// What goes wrong after a trap: the exception flag is cleared only when an instruction is
// freshly decoded, so a cached instruction may still see the flag of an older trap.
module SklFlagStale {
  import opened Words
  import opened SklFlags
  import O3
  import opened SklCpu
  import opened SklRun

  predicate IsStackOp(d: Instr) {
    d.Push? || d.Pop? || d.Enter? || d.Leave?
  }

  // The first stack word the instruction reads or writes.
  function FirstWord(s: Cpu, d: Instr): Word
    requires s.Valid() && d.Valid() && IsStackOp(d)
  {
    var sp: int := s.r[SP];
    match d
    case Push(_) => Wrap(sp - 4)
    case Enter(_, _) => Wrap(sp - 4)
    case Pop(_) => sp
    case Leave(rd, _) => s.r[rd]
  }

  predicate Reachable(s: Cpu, ea: Word, size: nat) {
    AddressValid(s, ea, size) && ea + size < TWO32
  }

  // The instructions that a stale flag keeps from their work: those that look at the flag after
  // their first access to memory, unless that is out of reach anyway.
  predicate Sensitive(s: Cpu, d: Instr)
    requires s.Valid() && d.Valid()
  {
    if d.Beyond? then !d.access.Nowhere? && Reachable(s, AccessAt(s, d.access), d.access.Size())
    else IsStackOp(d) && Reachable(s, FirstWord(s, d), 4)
  }

  // The same state but for the flag.
  ghost predicate Alike(s: Cpu, t: Cpu) {
    s.(exc := false) == t.(exc := false)
  }

  lemma Moves(s: Cpu, words: nat)
    requires s.Valid() && words in {1, 2, 3}
    ensures Bump(s, words).pc != s.pc
  {
  }

  lemma StaleTrap(s: Cpu, c: Cause)
    requires s.Valid()
    ensures Alike(HardwareTrap(s.(exc := true), c), HardwareTrap(s, c))
  {
  }

  lemma StaleGen(s: Cpu, op: GenOp, rd: nat, r0: nat, r1: nat)
    requires s.Valid() && rd < 32 && r0 < 32 && r1 < 32 && !s.exc
    ensures Alike(ExecGen(s.(exc := true), op, rd, r0, r1), ExecGen(s, op, rd, r0, r1))
  {
    hide HardwareTrap, Flags, O3.Div, O3.Mod;
    StaleTrap(s, DivideByZero);
  }

  lemma StaleLoad(s: Cpu, d: Instr)
    requires s.Valid() && d.Valid() && d.LoadInt? && !s.exc
    ensures Alike(ExecLoad(s.(exc := true), d), ExecLoad(s, d))
  {
    hide HardwareTrap, Load, EffectiveAddress, Extend;
    StaleTrap(s, OutOfBoundsRead);
  }

  lemma StaleStore(s: Cpu, d: Instr)
    requires s.Valid() && d.Valid() && d.StoreInt? && !s.exc
    ensures Alike(ExecStore(s.(exc := true), d), ExecStore(s, d))
  {
    hide HardwareTrap, Store, Bytes, EffectiveAddress;
    StaleTrap(s, OutOfBoundsWrite);
  }

  // Reads and writes of a word, with the flag down and with the flag up.
  lemma StaleRead(s: Cpu, ea: Word)
    requires s.Valid() && s.status == Running && !s.exc
    ensures Read(s, ea, 4).0 == Read(s.(exc := true), ea, 4).0
    ensures var t, t' := Read(s, ea, 4).1, Read(s.(exc := true), ea, 4).1;
      && Alike(t, t') && (Reachable(s, ea, 4) <==> !t.exc && t.status == Running)
      && (Reachable(s, ea, 4) ==> t == s && t' == s.(exc := true)) && (t'.exc || t'.status != Running)
  {
    hide Load;
  }

  lemma StaleWrite(s: Cpu, ea: Word, v: Word)
    requires s.Valid() && s.status == Running && !s.exc
    ensures var t, t' := Write(s, ea, v, 4), Write(s.(exc := true), ea, v, 4);
      && Alike(t, t') && (Reachable(s, ea, 4) <==> !t.exc && t.status == Running)
      && (Reachable(s, ea, 4) ==> t == s.(mem := t.mem)) && (t'.exc || t'.status != Running)
  {
    hide Store, Bytes;
  }

  lemma StalePush(s: Cpu, rd: nat)
    requires s.Valid() && rd < 32 && s.status == Running && !s.exc
    ensures Alike(ExecPush(s.(exc := true), rd), ExecPush(s, rd)) <==> !Reachable(s, FirstWord(s, Push(rd)), 4)
  {
    hide Write, Reachable;
    StaleWrite(s, FirstWord(s, Push(rd)), s.r[rd]);
    Moves(s, 1);
  }

  lemma StalePop(s: Cpu, rd: nat)
    requires s.Valid() && rd < 32 && s.status == Running && !s.exc
    ensures Alike(ExecPop(s.(exc := true), rd), ExecPop(s, rd)) <==> !Reachable(s, FirstWord(s, Pop(rd)), 4)
  {
    hide Read, Reachable;
    StaleRead(s, FirstWord(s, Pop(rd)));
    Moves(s, 1);
  }

  // ENTER goes on, or its second write traps; with the flag up it stops after its first.
  lemma StaleEnter(s: Cpu, rd: nat, words: nat)
    requires s.Valid() && rd < 32 && words < 0x1_0000 && s.status == Running && !s.exc
    ensures Alike(ExecEnter(s.(exc := true), rd, words), ExecEnter(s, rd, words))
            <==> !Reachable(s, FirstWord(s, Enter(rd, words)), 4)
  {
    hide Write, Reachable, HardwareTrap;
    var first, sp: int := FirstWord(s, Enter(rd, words)), s.r[SP];
    StaleWrite(s, first, s.r[RETADR]);
    Moves(s, 1);
    if Reachable(s, first, 4) {
      var t := Write(s, first, s.r[RETADR], 4);
      SecondWrite(t, Wrap(sp - 8), s.r[rd]);
    }
  }

  // A write that does not go through changes a control register or the status.
  lemma SecondWrite(s: Cpu, ea: Word, v: Word)
    requires s.Valid() && s.status == Running && !s.exc
    ensures var t := Write(s, ea, v, 4);
      if t.exc || t.status != Running then t.(exc := false) != s else t.pc == s.pc
  {
    hide Store, Bytes;
  }

  lemma SecondRead(s: Cpu, ea: Word)
    requires s.Valid() && s.status == Running && !s.exc
    ensures var t := Read(s, ea, 4).1;
      if t.exc || t.status != Running then t.(exc := false) != s else t.pc == s.pc
  {
    hide Load;
  }

  lemma StaleLeave(s: Cpu, rd: nat, words: nat)
    requires s.Valid() && rd < 32 && words < 0x1_0000 && s.status == Running && !s.exc
    ensures Alike(ExecLeave(s.(exc := true), rd, words), ExecLeave(s, rd, words))
            <==> !Reachable(s, FirstWord(s, Leave(rd, words)), 4)
  {
    hide Read, Reachable;
    var sfp: int := s.r[rd];
    StaleRead(s, sfp);
    Moves(s, 1);
    if Reachable(s, sfp, 4) {
      SecondRead(s, Wrap(sfp + 4));
    }
  }

  lemma StaleStack(s: Cpu, d: Instr)
    requires s.Valid() && d.Valid() && s.status == Running && !s.exc && IsStackOp(d)
    ensures Alike(Exec(s.(exc := true), d), Exec(s, d)) <==> !Reachable(s, FirstWord(s, d), 4)
  {
    hide ExecPush, ExecPop, ExecEnter, ExecLeave, FirstWord, Reachable;
    match d
    case Push(rd) => StalePush(s, rd);
    case Pop(rd) => StalePop(s, rd);
    case Enter(rd, words) => StaleEnter(s, rd, words);
    case Leave(rd, words) => StaleLeave(s, rd, words);
  }

  lemma StaleElse(s: Cpu, d: Instr)
    requires s.Valid() && d.Valid() && s.status == Running && !s.exc && !IsStackOp(d) && !d.Beyond?
    ensures Alike(Exec(s.(exc := true), d), Exec(s, d))
  {
    hide ExecGen, ExecLoad, ExecStore, Relates, EffectiveAddress;
    match d
    case Gen(op, rd, r0, r1) => StaleGen(s, op, rd, r0, r1);
    case LoadInt(_, _, _, _, _, _, _) => StaleLoad(s, d);
    case StoreInt(_, _, _, _, _, _) => StaleStore(s, d);
    case _ =>
  }

  // The second word of a push or pop: SP has moved, and a trap leaves its mark.
  lemma SecondMoves(s: Cpu, a: Access)
    requires s.Valid() && a.Valid() && (a.Pushed? || a.Popped?) && s.status == Running
    ensures ExecWords(s, a).r != s.r
  {
    var sp: int := s.r[SP];
    Apart(sp);
    hide Wrap;
  }

  lemma Apart(sp: Word)
    ensures Wrap(sp - 4) != sp && Wrap(sp + 4) != sp
    ensures Wrap(Wrap(sp - 4) - 4) != sp && Wrap(Wrap(sp + 4) + 4) != sp
  {
  }

  lemma StaleBeyond(s: Cpu, d: Instr)
    requires s.Valid() && d.Valid() && s.status == Running && !s.exc && d.Beyond?
    ensures Alike(Exec(s.(exc := true), d), Exec(s, d)) <==> !Sensitive(s, d)
  {
    hide HardwareTrap, AccessAt, ExecWords;
    Moves(s, d.words);
    StaleTrap(s, if d.access.Writes() then OutOfBoundsWrite else OutOfBoundsRead);
    if !d.access.Nowhere? {
      assert AccessAt(s.(exc := true), d.access) == AccessAt(s, d.access) by { SameAccess(s, d.access); }
      if d.access.Pushed? || d.access.Popped? {
        SecondMoves(s, d.access);
      }
    }
  }

  lemma SameAccess(s: Cpu, a: Access)
    requires s.Valid() && a.Valid() && !a.Nowhere?
    ensures AccessAt(s.(exc := true), a) == AccessAt(s, a)
  {
  }

  // A stale flag changes nothing (but the flag) exactly when the instruction is not sensitive.
  lemma StaleFlag(s: Cpu, d: Instr)
    requires s.Valid() && d.Valid() && s.status == Running && !s.exc
    ensures Alike(Exec(s.(exc := true), d), Exec(s, d)) <==> !Sensitive(s, d)
  {
    if IsStackOp(d) {
      StaleStack(s, d);
    } else if d.Beyond? {
      StaleBeyond(s, d);
    } else {
      StaleElse(s, d);
    }
    hide Exec, Alike;
  }

  // ---- Runs that go on after a trap ----------------------------------------------------

  // The emulator's next step is not the victim of an old flag.
  predicate Harmless(s: Cpu, seen: set<int>)
    requires s.Valid()
  {
    var d := Fetch(Reset(s)).0;
    s.exc && s.pc in seen && d.Some? ==> !Sensitive(Reset(s).(exc := false), d.value)
  }

  lemma AlikeStep(s: Cpu, t: Cpu, seen: set<int>)
    requires s.Valid() && t.Valid() && s.status == Running && Alike(s, t) && Cacheable(s, s.pc)
    ensures Alike(KeptStep(s, seen), PlainStep(t)) <==> Harmless(s, seen)
  {
    var r := Reset(s).(exc := false);
    assert r == Reset(t).(exc := false) && Reset(s).(exc := s.exc) == Reset(s);
    SameFetch(Reset(s), r);
    SameFetch(Reset(t), r);
    if Fetch(r).0.Some? {
      FetchClean(r);
      var d := Fetch(r).0.value;
      if s.exc && s.pc in seen {
        StaleFlag(r, d);
        assert r.(exc := true) == Reset(s);
      } else {
        assert r == Reset(s) || s.pc !in seen;
      }
    }
    hide Exec, Fetch, Sensitive;
  }

  // Fetching does not look at the flag.
  lemma SameFetch(s: Cpu, t: Cpu)
    requires s.Valid() && t.Valid() && t == s.(exc := false)
    ensures Fetch(s) == Fetch(t)
  {
    hide Read, Probe, Decode, Operands, HardwareTrap;
    assert t.(exc := false) == s.(exc := false);
  }

  // After each of `n` steps the emulator and the plain machine are alike.
  ghost predicate Agree(s: Cpu, t: Cpu, n: nat, seen: set<int>)
    requires s.Valid() && t.Valid()
    decreases n
  {
    Alike(s, t) &&
    (n == 0 || s.status != Running || Agree(KeptStep(s, seen), PlainStep(t), n - 1, SeenAfter(s, seen)))
  }

  predicate AllHarmless(s: Cpu, n: nat, seen: set<int>)
    requires s.Valid()
    decreases n
  {
    n == 0 || s.status != Running || (Harmless(s, seen) && AllHarmless(KeptStep(s, seen), n - 1, SeenAfter(s, seen)))
  }

  // Over whole runs, past any number of traps: they agree exactly when no step is harmed.
  lemma {:induction false} AgreeIffHarmless(s: Cpu, t: Cpu, n: nat, code: set<int>, seen: set<int>)
    requires s.Valid() && t.Valid() && Alike(s, t) && Quiet(s, n, code, seen)
    ensures Agree(s, t, n, seen) <==> AllHarmless(s, n, seen)
    decreases n
  {
    if n > 0 && s.status == Running {
      hide KeptStep, PlainStep, Fetch, Harmless, SeenAfter, Unchanged, CodeOf;
      assert Cacheable(s, s.pc);
      AlikeStep(s, t, seen);
      QuietStep(s, n, code, seen);
      if Harmless(s, seen) {
        AgreeIffHarmless(KeptStep(s, seen), PlainStep(t), n - 1, code + CodeOf(s.pc, Fetch(Reset(s)).0), SeenAfter(s, seen));
      }
    }
  }

  lemma {:induction false} AgreeAtEnd(s: Cpu, t: Cpu, n: nat, seen: set<int>)
    requires s.Valid() && t.Valid() && Agree(s, t, n, seen)
    ensures Alike(KeptRun(s, n, seen), PlainRun(t, n))
    decreases n
  {
    hide KeptStep, PlainStep, SeenAfter;
    if n > 0 && s.status == Running {
      AgreeAtEnd(KeptStep(s, seen), PlainStep(t), n - 1, SeenAfter(s, seen));
    }
  }
}
