// A run on which the emulator departs from the plain machine: after a trap, a cached PUSH does
// nothing because the exception flag is still up.
module SklFlagExample {
  import opened Words
  import O3
  import opened SklCpu
  import opened SklRun
  import opened SklFlagStale

  const PUSH_R1: Word := 10 * 0x400_0000 + 0x20_0000 + 2
  const DIV_R1_R0: Word := 0x40_0000 + 0x1_0000 + 3

  predicate Word0(s: Cpu, pc: int, inst: Word)
    requires s.Valid()
  {
    s.beg <= pc && pc + 4 < s.beg + |s.mem| && Load(s.mem, pc - s.beg, 4) == inst
  }

  // PUSH R1 and a division by R0, the trap of which leads back to the PUSH.
  predicate Stumbles(s: Cpu)
    requires s.Valid()
  {
    && s.status == Running && s.cr[1] as int == s.pc - 4 && s.cr[2] == 0 && Cacheable(s, s.pc) && Cacheable(s, s.pc + 4)
    && s.beg <= s.pc && Word0(s, s.pc, PUSH_R1) && Word0(s, s.pc + 4, DIV_R1_R0)
    && s.pc + 24 <= s.r[SP] < s.beg + |s.mem|
  }

  lemma Decodings(pc: Word)
    ensures Operands(PUSH_R1) == 0 && Decode(pc, PUSH_R1, 0) == Ok(Push(1))
    ensures Operands(DIV_R1_R0) == 0 && Decode(pc, DIV_R1_R0, 0) == Ok(Gen(DIV, 2, 1, 0))
  {
    assert Class(PUSH_R1) == 10 && PUSH_R1 % 32 == 2 && FieldRd(PUSH_R1) == 1;
    assert Class(DIV_R1_R0) == 0 && DIV_R1_R0 % 32 == 3 && Field(DIV_R1_R0, 0x100, 8) == 0;
    assert FieldRd(DIV_R1_R0) == 2 && FieldR0(DIV_R1_R0) == 1 && FieldR1(DIV_R1_R0) == 0;
  }

  lemma FetchOne(s: Cpu, inst: Word, d: Instr)
    requires s.Valid() && s.status == Running && Word0(s, s.pc, inst)
    requires Operands(inst) == 0 && Decode(s.pc, inst, 0) == Ok(d)
    ensures d.Valid() && Fetch(Reset(s)) == (Some(d), Reset(s).(exc := false))
  {
    hide Load, Decode, Operands;
  }

  // A PUSH within memory.
  lemma Pushes(s: Cpu, lo: int)
    requires s.Valid() && s.status == Running && s.beg <= lo && lo + 8 <= s.r[SP] < s.beg + |s.mem|
    ensures var t := ExecPush(s, 1);
      && t.beg == s.beg && t.cr == s.cr && t.exc == s.exc && t.status == s.status && |t.mem| == |s.mem|
      && t.pc == (if s.exc then s.pc else Wrap(s.pc + 4)) && t.r[SP] == s.r[SP] - (if s.exc then 0 else 4)
      && t.mem[..lo - s.beg] == s.mem[..lo - s.beg]
    ensures Reachable(s, FirstWord(s, Push(1)), 4)
  {
    hide Bytes;
  }

  lemma StepIs(s: Cpu, inst: Word, d: Instr, seen: set<int>)
    requires s.Valid() && s.status == Running && Word0(s, s.pc, inst) && (s.pc in seen || !s.exc)
    requires Operands(inst) == 0 && Decode(s.pc, inst, 0) == Ok(d)
    ensures d.Valid() && Fetch(Reset(s)).0 == Some(d) && KeptStep(s, seen) == Exec(Reset(s), d)
    ensures SeenAfter(s, seen) == seen + {s.pc as int} && CodeOf(s.pc, Fetch(Reset(s)).0) == Range(s.pc, 4 * d.Words())
  {
    FetchOne(s, inst, d);
    assert !s.exc ==> Reset(s).(exc := false) == Reset(s);
    hide Exec, Fetch, Decode, Operands, Word0;
  }

  predicate Below(s: Cpu, t: Cpu, lo: int)
  {
    s.beg == t.beg && |s.mem| == |t.mem| && s.beg <= lo <= s.beg + |s.mem| && s.mem[..lo - s.beg] == t.mem[..lo - s.beg]
  }

  lemma BelowKeeps(s: Cpu, t: Cpu, lo: int, pc: int, inst: Word)
    requires s.Valid() && t.Valid() && Below(s, t, lo) && Word0(s, pc, inst) && pc + 4 <= lo
    ensures Word0(t, pc, inst)
  {
    assert forall i :: 0 <= i < lo - s.beg ==> s.mem[i] == s.mem[..lo - s.beg][i] && t.mem[i] == t.mem[..lo - s.beg][i];
    LoadSame(s.mem, t.mem, pc - s.beg, 4);
  }

  lemma BelowUnchanged(s: Cpu, t: Cpu, lo: int, code: set<int>)
    requires Below(s, t, lo) && forall a :: a in code ==> a < lo
    ensures Unchanged(s, t, code)
  {
    forall a | a in code ensures ByteAt(s, a) == ByteAt(t, a) {
      if s.beg <= a {
        assert s.mem[a - s.beg] == s.mem[..lo - s.beg][a - s.beg] == t.mem[..lo - s.beg][a - s.beg];
      }
    }
  }

  // What the first and the third step have done: a push that is whole, or one that an old flag
  // cuts short.
  predicate AfterPush(s: Cpu, t: Cpu, lo: int) {
    && Below(s, t, lo) && t.beg == s.beg && |t.mem| == |s.mem| && t.cr == s.cr && t.exc == s.exc && t.status == s.status && |t.r| == |s.r| == 32
    && t.pc as int == s.pc + (if s.exc then 0 else 4) && t.r[SP] as int == s.r[SP] as int - (if s.exc then 0 else 4)
  }

  lemma PushEffect(s: Cpu, lo: int)
    requires s.Valid() && s.status == Running && s.pc + 4 < TWO32
    requires s.beg <= lo && lo + 8 <= s.r[SP] < s.beg + |s.mem|
    ensures AfterPush(s, Exec(Reset(s), Push(1)), lo) && Sensitive(Reset(s).(exc := false), Push(1))
  {
    hide ExecPush, Reachable, FirstWord;
    Pushes(Reset(s), lo);
    Pushes(Reset(s).(exc := false), lo);
  }

  lemma PushStep(s: Cpu, lo: int, seen: set<int>)
    requires s.Valid() && s.status == Running && Word0(s, s.pc, PUSH_R1) && s.pc + 4 <= lo
    requires s.beg <= lo && lo + 8 <= s.r[SP] < s.beg + |s.mem| && (s.pc in seen || !s.exc)
    ensures Fetch(Reset(s)).0 == Some(Push(1)) && AfterPush(s, KeptStep(s, seen), lo)
    ensures SeenAfter(s, seen) == seen + {s.pc as int} && CodeOf(s.pc, Fetch(Reset(s)).0) == Range(s.pc, 4)
    ensures s.exc && s.pc in seen ==> !Harmless(s, seen)
  {
    hide Exec, Operands, Decode, Fetch, KeptStep, SeenAfter, CodeOf, Word0, AfterPush, Reset, Sensitive;
    Decodings(s.pc);
    StepIs(s, PUSH_R1, Push(1), seen);
    PushEffect(s, lo);
  }

  // The division traps, and the pc is bumped past the handler's start.
  predicate AfterTrap(s: Cpu, t: Cpu) {
    && t.mem == s.mem && t.beg == s.beg && t.status == Running && t.pc as int == s.pc - 4 && t.exc
    && |t.r| == |s.r| == 32 && t.r[SP] == s.r[SP]
  }

  lemma DivideEffect(s: Cpu)
    requires s.Valid() && s.status == Running && s.cr[1] as int == s.pc - 8 && s.cr[2] == 0
    ensures AfterTrap(s, Exec(Reset(s), Gen(DIV, 2, 1, 0)))
  {
    hide O3.Div;
    assert Wrap(s.pc - 8 + 4) == s.pc - 4;
  }

  lemma DivideStep(s: Cpu, seen: set<int>)
    requires s.Valid() && s.status == Running && Word0(s, s.pc, DIV_R1_R0) && !s.exc
    requires s.cr[1] as int == s.pc - 8 && s.cr[2] == 0
    ensures Fetch(Reset(s)).0 == Some(Gen(DIV, 2, 1, 0)) && AfterTrap(s, KeptStep(s, seen))
    ensures SeenAfter(s, seen) == seen + {s.pc as int} && CodeOf(s.pc, Fetch(Reset(s)).0) == Range(s.pc, 4)
  {
    hide Exec, Operands, Decode, Fetch, KeptStep, SeenAfter, CodeOf, Word0, AfterTrap, Reset;
    Decodings(s.pc);
    StepIs(s, DIV_R1_R0, Gen(DIV, 2, 1, 0), seen);
    DivideEffect(s);
  }

  lemma QuietMore(s: Cpu, n: nat, code: set<int>, seen: set<int>)
    requires s.Valid() && n > 0 && s.status == Running && Cacheable(s, s.pc) && Fetch(Reset(s)).0.Some?
    requires var t := KeptStep(s, seen);
      && t.status == Running && Cacheable(t, t.pc)
      && (n > 1 ==> Unchanged(s, t, code + CodeOf(s.pc, Fetch(Reset(s)).0))
                    && Quiet(t, n - 1, code + CodeOf(s.pc, Fetch(Reset(s)).0), SeenAfter(s, seen)))
    ensures Quiet(s, n, code, seen)
  {
    hide KeptStep, Fetch, Unchanged, Cacheable, SeenAfter, CodeOf;
  }

  lemma RunTwice(s: Cpu)
    requires s.Valid() && s.status == Running
    requires var a := KeptStep(s, {}); a.status == Running && KeptStep(a, SeenAfter(s, {})).status == Running
    ensures var a, seen := KeptStep(s, {}), SeenAfter(s, {});
      var b, seen' := KeptStep(a, seen), SeenAfter(a, seen);
      && KeptRun(s, 3, {}) == KeptStep(b, seen')
      && (AllHarmless(s, 3, {}) ==> Harmless(b, seen'))
  {
    hide KeptStep, SeenAfter, Harmless;
    var a := KeptStep(s, {});
    var seen := SeenAfter(s, {});
    var b := KeptStep(a, seen);
    assert KeptRun(KeptStep(b, SeenAfter(a, seen)), 0, SeenAfter(b, SeenAfter(a, seen))) == KeptStep(b, SeenAfter(a, seen));
    assert KeptRun(b, 1, SeenAfter(a, seen)) == KeptStep(b, SeenAfter(a, seen));
    assert KeptRun(a, 2, seen) == KeptRun(b, 1, SeenAfter(a, seen));
    assert AllHarmless(a, 2, seen) ==> AllHarmless(b, 1, SeenAfter(a, seen));
  }

  // The states of the run.
  ghost predicate Trace(s: Cpu, a: Cpu, b: Cpu, c: Cpu)
    requires s.Valid()
  {
    var p: int := s.pc;
    && a.Valid() && b.Valid() && c.Valid()
    && a == KeptStep(s, {}) && b == KeptStep(a, {p}) && c == KeptStep(b, {p, p + 4})
    && s.status == a.status == b.status == c.status == Running
    && a.pc as int == p + 4 && b.pc == c.pc == s.pc && s.beg == a.beg == b.beg == c.beg && |s.mem| == |a.mem| == |b.mem| == |c.mem|
    && !s.exc && !a.exc && Below(s, a, p + 8) && Below(a, b, p + 8)
    && SeenAfter(s, {}) == {p} && SeenAfter(a, {p}) == {p, p + 4}
  }

  ghost predicate Fetches(s: Cpu, d: Instr, code: set<int>)
    requires s.Valid()
  {
    Fetch(Reset(s)).0 == Some(d) && CodeOf(s.pc, Fetch(Reset(s)).0) == code
  }

  lemma Stumbling(s: Cpu) returns (a: Cpu, b: Cpu, c: Cpu)
    requires s.Valid() && Stumbles(s) && !s.exc
    ensures Trace(s, a, b, c) && !Harmless(b, {s.pc as int, s.pc + 4})
    ensures Fetches(s, Push(1), Range(s.pc, 4)) && Fetches(a, Gen(DIV, 2, 1, 0), Range(s.pc + 4, 4))
    ensures Fetches(b, Push(1), Range(s.pc, 4)) && Cacheable(s, s.pc) && Cacheable(s, s.pc + 4)
  {
    hide KeptStep, Fetch, Word0, SeenAfter, CodeOf, Range, Reset, Cacheable, Harmless, Cpu.Valid;
    var p: int, lo := s.pc, s.pc + 8;
    a := KeptStep(s, {});
    PushStep(s, lo, {});
    hide Below;
    BelowKeeps(s, a, lo, p, PUSH_R1);
    BelowKeeps(s, a, lo, p + 4, DIV_R1_R0);
    DivideStep(a, {p});
    b := KeptStep(a, {p});
    SameBelow(a, b, lo);
    BelowKeeps(a, b, lo, p, PUSH_R1);
    PushStep(b, lo, {p, p + 4});
    c := KeptStep(b, {p, p + 4});
  }

  lemma CodeBelow(s: Cpu, t: Cpu, p: int)
    requires Below(s, t, p + 8)
    ensures Unchanged(s, t, {} + Range(p, 4)) && Unchanged(s, t, {} + Range(p, 4) + Range(p + 4, 4))
  {
    BelowUnchanged(s, t, p + 8, {} + Range(p, 4));
    BelowUnchanged(s, t, p + 8, {} + Range(p, 4) + Range(p + 4, 4));
  }

  lemma SameSlots(s: Cpu, t: Cpu, pc: int)
    requires s.beg == t.beg && |s.mem| == |t.mem|
    ensures Cacheable(s, pc) == Cacheable(t, pc)
  {
  }

  lemma TraceSlots(s: Cpu, a: Cpu, b: Cpu, c: Cpu)
    requires s.Valid() && Trace(s, a, b, c) && Cacheable(s, s.pc) && Cacheable(s, s.pc + 4)
    ensures Cacheable(a, a.pc) && Cacheable(b, b.pc) && Cacheable(c, c.pc)
  {
    hide KeptStep, SeenAfter, Below, Range, Cacheable, Cpu.Valid;
    SameSlots(s, a, a.pc);
    SameSlots(s, b, b.pc);
    SameSlots(s, c, c.pc);
  }

  lemma TraceCode(s: Cpu, a: Cpu, b: Cpu, c: Cpu)
    requires s.Valid() && Trace(s, a, b, c)
    ensures Unchanged(s, a, {} + Range(s.pc, 4)) && Unchanged(a, b, {} + Range(s.pc, 4) + Range(s.pc + 4, 4))
  {
    hide KeptStep, SeenAfter, Below, Range, Unchanged, Cpu.Valid;
    CodeBelow(s, a, s.pc);
    CodeBelow(a, b, s.pc);
  }

  lemma QuietThree(s: Cpu, a: Cpu, b: Cpu, c: Cpu, e1: set<int>, e2: set<int>, k1: set<int>, k2: set<int>)
    requires s.Valid() && a.Valid() && b.Valid() && c.Valid()
    requires s.status == a.status == b.status == c.status == Running
    requires a == KeptStep(s, {}) && b == KeptStep(a, e1) && c == KeptStep(b, e2)
    requires e1 == SeenAfter(s, {}) && e2 == SeenAfter(a, e1)
    requires Fetch(Reset(s)).0.Some? && Fetch(Reset(a)).0.Some? && Fetch(Reset(b)).0.Some?
    requires k1 == {} + CodeOf(s.pc, Fetch(Reset(s)).0) && k2 == k1 + CodeOf(a.pc, Fetch(Reset(a)).0)
    requires Cacheable(s, s.pc) && Cacheable(a, a.pc) && Cacheable(b, b.pc) && Cacheable(c, c.pc)
    requires Unchanged(s, a, k1) && Unchanged(a, b, k2)
    ensures Quiet(s, 3, {}, {})
  {
    hide *;
    QuietMore(b, 1, k2, e2);
    QuietMore(a, 2, k1, e1);
    QuietMore(s, 3, {}, {});
  }

  lemma StumblesQuietly(s: Cpu, a: Cpu, b: Cpu, c: Cpu)
    requires s.Valid() && Trace(s, a, b, c) && Cacheable(s, s.pc) && Cacheable(s, s.pc + 4)
    requires Fetches(s, Push(1), Range(s.pc, 4)) && Fetches(a, Gen(DIV, 2, 1, 0), Range(s.pc + 4, 4))
    requires Fetches(b, Push(1), Range(s.pc, 4))
    ensures Quiet(s, 3, {}, {})
  {
    hide KeptStep, Fetch, Quiet, Unchanged, SeenAfter, CodeOf, Below, Range, Reset, PlainStep, Cacheable, Cpu.Valid;
    var p: int := s.pc;
    TraceSlots(s, a, b, c);
    TraceCode(s, a, b, c);
    QuietThree(s, a, b, c, {p}, {p, p + 4}, {} + Range(p, 4), {} + Range(p, 4) + Range(p + 4, 4));
  }

  // With the flag down the emulator does what the plain machine does.
  lemma FlagDown(s: Cpu, t: Cpu, seen: set<int>)
    requires s.Valid() && t.Valid() && s.status == Running && Alike(s, t) && Cacheable(s, s.pc) && !s.exc
    ensures Alike(KeptStep(s, seen), PlainStep(t))
  {
    AlikeStep(s, t, seen);
    hide KeptStep, PlainStep, Fetch, Sensitive, Alike, Reset;
  }

  lemma AlikeSelf(s: Cpu)
    ensures Alike(s, s)
  {
  }

  lemma PlainThree(s: Cpu)
    requires s.Valid() && s.status == PlainStep(s).status == PlainStep(PlainStep(s)).status == Running
    ensures PlainRun(s, 3) == PlainStep(PlainStep(PlainStep(s)))
  {
    hide PlainStep;
    var a, b := PlainStep(s), PlainStep(PlainStep(s));
    assert PlainRun(PlainStep(b), 0) == PlainStep(b);
    assert PlainRun(b, 1) == PlainStep(b) && PlainRun(a, 2) == PlainRun(b, 1);
  }

  lemma AlikeStatus(s: Cpu, t: Cpu)
    requires Alike(s, t)
    ensures s.status == t.status
  {
  }

  lemma ThirdDiffers(s: Cpu, a: Cpu, b: Cpu, c: Cpu, e1: set<int>, e2: set<int>)
    requires s.Valid() && a.Valid() && b.Valid() && c.Valid() && !s.exc && !a.exc
    requires s.status == a.status == b.status == Running
    requires a == KeptStep(s, {}) && b == KeptStep(a, e1) && c == KeptStep(b, e2)
    requires Cacheable(s, s.pc) && Cacheable(a, a.pc) && Cacheable(b, b.pc) && !Harmless(b, e2)
    ensures !Alike(c, PlainRun(s, 3))
  {
    hide *;
    AlikeSelf(s);
    FlagDown(s, s, {});
    FlagDown(a, PlainStep(s), e1);
    AlikeStep(b, PlainStep(PlainStep(s)), e2);
    AlikeStatus(a, PlainStep(s));
    AlikeStatus(b, PlainStep(PlainStep(s)));
    PlainThree(s);
  }

  lemma Departs(s: Cpu, a: Cpu, b: Cpu, c: Cpu)
    requires s.Valid() && Trace(s, a, b, c) && Cacheable(s, s.pc) && Cacheable(s, s.pc + 4)
    requires !Harmless(b, {s.pc as int, s.pc + 4})
    ensures !AllHarmless(s, 3, {}) && KeptRun(s, 3, {}) == c && c.pc == s.pc && !Alike(c, PlainRun(s, 3))
  {
    hide KeptStep, AllHarmless, Harmless, KeptRun, PlainRun, SeenAfter, Below, Cacheable, Alike, Cpu.Valid;
    TraceSlots(s, a, b, c);
    RunTwice(s);
    ThirdDiffers(s, a, b, c, {s.pc as int}, {s.pc as int, s.pc + 4});
  }

  // After the trap the cached PUSH writes, and nothing else happens, while the plain machine
  // pushes once more.
  lemma OldFlagExample(s: Cpu)
    requires s.Valid() && Stumbles(s) && !s.exc
    ensures Quiet(s, 3, {}, {}) && !AllHarmless(s, 3, {}) && !Agree(s, s, 3, {})
    ensures KeptRun(s, 3, {}).pc == s.pc && !Alike(KeptRun(s, 3, {}), PlainRun(s, 3))
  {
    hide *;
    var a, b, c := Stumbling(s);
    StumblesQuietly(s, a, b, c);
    Departs(s, a, b, c);
    AlikeSelf(s);
    AgreeIffHarmless(s, s, 3, {}, {});
  }

  lemma SameBelow(s: Cpu, t: Cpu, lo: int)
    requires s.beg == t.beg && s.mem == t.mem && s.beg <= lo <= s.beg + |s.mem|
    ensures Below(s, t, lo)
  {
  }

  // There are such states.
  lemma StumblingExists() returns (s: Cpu)
    ensures s.Valid() && Stumbles(s) && !s.exc
  {
    var zeros: seq<Byte> := seq(1024, i => 0);
    var one := Store(zeros, 0, Bytes(PUSH_R1, 4));
    var two := Store(one, 4, Bytes(DIV_R1_R0, 4));
    StoreLoad(zeros, 0, PUSH_R1);
    StoreLoad(one, 4, DIV_R1_R0);
    LoadSame(one, two, 0, 4);
    hide Load, Bytes, Store;
    var cr: seq<Word> := [0, 4104, 0, 0, 0, 0];
    var r: seq<Word> := seq(32, i => 4500);
    s := Cpu(4108, 4108, r, cr, two, false, Running);
  }
}
