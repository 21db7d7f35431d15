// Procedure frames: nested ENTER/LEAVE restore what they must.
module SklFrames {
  import opened Words
  import opened SklCpu
  import opened SklRun

  // What runs between an ENTER and its LEAVE: single instructions, and whole calls.
  datatype Item = Step(d: Instr) | Call(t: Tree)
  datatype Tree = Tree(locals: nat, args: nat, body: seq<Item>)

  function Do(s: Cpu, d: Instr): (t: Cpu)
    requires s.Valid()
    ensures t.Valid()
  {
    if d.Valid() then Exec(Reset(s), d) else s.(status := Fatal)
  }

  function RunTree(s: Cpu, t: Tree, rd: nat): (s': Cpu)
    requires s.Valid()
    ensures s'.Valid()
    decreases t, |t.body| + 1
  {
    Do(RunFrom(Do(s, Enter(rd, t.locals)), t, 0, rd), Leave(rd, t.args))
  }

  // The body of `t`, from item `k` on.
  function RunFrom(s: Cpu, t: Tree, k: nat, rd: nat): (s': Cpu)
    requires s.Valid() && k <= |t.body|
    ensures s'.Valid()
    decreases t, |t.body| - k
  {
    if k == |t.body| then s else RunFrom(RunItem(s, t, k, rd), t, k + 1, rd)
  }

  function RunItem(s: Cpu, t: Tree, k: nat, rd: nat): (s': Cpu)
    requires s.Valid() && k < |t.body|
    ensures s'.Valid()
    decreases t, 0
  {
    match t.body[k]
    case Step(d) => Do(s, d)
    case Call(u) => RunTree(s, u, rd)
  }

  predicate Fine(s: Cpu) {
    !s.exc && s.status == Running
  }

  predicate Keeps(s: Cpu, t: Cpu, keep: set<int>) {
    s.beg == t.beg && |s.mem| == |t.mem| && forall a :: a in keep ==> ByteAt(s, a) == ByteAt(t, a)
  }

  function Top(s: Cpu): int
    requires s.Valid()
  {
    s.r[SP]
  }

  // The words in which ENTER saves the frame register and the return address.
  function FrameWords(s: Cpu): set<int>
    requires s.Valid()
  {
    Range(Top(s) - 8, 8)
  }

  // The bytes an instruction writes, if it does not trap.
  function Writes(s: Cpu, d: Instr): set<int>
    requires s.Valid() && d.Valid()
  {
    match d
    case StoreInt(size, _, base, index, scale, offset) =>
      Range(EffectiveAddress(s.r[base], s.r[index], scale, offset), size)
    case Push(_) => Range(Wrap(Top(s) - 4), 4)
    case Enter(_, _) => Range(Wrap(Top(s) - 4), 4) + Range(Wrap(Top(s) - 8), 4)
    case _ => {}
  }

  // The registers an instruction sets, if it does not trap.
  function Targets(d: Instr): set<nat> {
    match d
    case Gen(_, rd, _, _) => {rd}
    case Set(_, rd, _) => {rd}
    case JumpLink(_, _) => {RETADR}
    case JumpRegLink(rd, _, _) => {rd}
    case LoadImm(rd, _, _) => {rd}
    case LoadInt(_, _, rd, _, _, _, _) => {rd}
    case LoadAddr(rd, _, _, _, _) => {rd}
    case Push(_) => {SP}
    case Pop(rd) => {rd, SP}
    case Enter(rd, _) => {rd, SP}
    case Leave(rd, _) => {rd, SP, RETADR}
    case _ => {}
  }

  // The stack grows down to `low`, and bytes are kept outside of its unused part.
  predicate Outer(keep: set<int>, low: int, top: int) {
    forall a :: a in keep ==> a < low || top <= a
  }

  // No trap; no instruction of a body writes at the address of a byte of `keep` or of a saved
  // frame word of an active frame, or sets the frame register; and when a body calls, the stack
  // pointer is not above the frame, nor so low that the new frame would pass `low`.
  ghost predicate Tidy(s: Cpu, t: Tree, rd: nat, low: int, keep: set<int>)
    requires s.Valid()
    decreases t, |t.body| + 1
  {
    && Fine(Do(s, Enter(rd, t.locals))) && low <= Top(s) - 8
    && TidyFrom(Do(s, Enter(rd, t.locals)), t, 0, rd, low, keep + FrameWords(s))
  }

  ghost predicate TidyFrom(s: Cpu, t: Tree, k: nat, rd: nat, low: int, keep: set<int>)
    requires s.Valid() && k <= |t.body|
    decreases t, |t.body| - k
  {
    k == |t.body| ||
    (TidyItem(s, t, k, rd, low, keep) && TidyFrom(RunItem(s, t, k, rd), t, k + 1, rd, low, keep))
  }

  ghost predicate TidyItem(s: Cpu, t: Tree, k: nat, rd: nat, low: int, keep: set<int>)
    requires s.Valid() && k < |t.body|
    decreases t, 0
  {
    match t.body[k]
    case Step(d) => d.Valid() && Fine(Do(s, d)) && Writes(Reset(s), d) !! keep && rd !in Targets(d)
    case Call(u) => rd < 32 && Top(s) <= s.r[rd] && Tidy(s, u, rd, low, keep)
  }

  predicate FrameRegister(rd: nat) {
    0 < rd < 32 && rd != SP && rd != RETADR
  }

  // A call restores the frame register and the return address, pops its arguments, and
  // leaves every byte of `keep` as it was.
  lemma {:induction false} CallRestores(s: Cpu, t: Tree, rd: nat, low: int, keep: set<int>)
    requires s.Valid() && Fine(s) && FrameRegister(rd) && TreeOK(t)
    requires Outer(keep, low, Top(s)) && Tidy(s, t, rd, low, keep)
    ensures var s' := RunTree(s, t, rd);
            && Fine(s') && s'.r[rd] == s.r[rd] && s'.r[RETADR] == s.r[RETADR]
            && s'.r[SP] == Wrap(Top(s) + 4 * t.args) && Keeps(s, s', keep)
    decreases t, |t.body| + 1
  {
    hide TidyFrom, RunFrom, Do;
    var e := Do(s, Enter(rd, t.locals));
    Entering(s, rd, t.locals, keep);
    BodyKeeps(e, t, 0, rd, low, keep + FrameWords(s));
    var b := RunFrom(e, t, 0, rd);
    LoadKept(e, b, Top(s) - 8, keep + FrameWords(s));
    LoadKept(e, b, Top(s) - 4, keep + FrameWords(s));
    Leaving(s, b, rd, t.args);
  }

  predicate TreeOK(t: Tree) {
    t.locals < 0x1_0000 && t.args < 0x1_0000 && forall i :: 0 <= i < |t.body| && t.body[i].Call? ==> TreeOK(t.body[i].t)
  }

  // The frame register points below everything the active frames must keep, so no frame of a
  // nested call lands on it.
  lemma {:induction false} BodyKeeps(s: Cpu, t: Tree, k: nat, rd: nat, low: int, keep: set<int>)
    requires s.Valid() && Fine(s) && FrameRegister(rd) && k <= |t.body|
    requires TreeOK(t) && Outer(keep, low, s.r[rd]) && TidyFrom(s, t, k, rd, low, keep)
    ensures var s' := RunFrom(s, t, k, rd); Fine(s') && s'.r[rd] == s.r[rd] && Keeps(s, s', keep)
    decreases t, |t.body| - k
  {
    hide Do, Tidy, RunTree, Writes, Targets, Exec;
    if k < |t.body| {
      match t.body[k] {
        case Step(d) => StepKeeps(s, d, rd, keep);
        case Call(u) => CallRestores(s, u, rd, low, keep);
      }
      BodyKeeps(RunItem(s, t, k, rd), t, k + 1, rd, low, keep);
    }
  }

  // An instruction changes no other byte than those it writes, and no other register.
  lemma StepKeeps(s: Cpu, d: Instr, rd: nat, keep: set<int>)
    requires s.Valid() && Fine(s) && d.Valid() && 0 < rd < 32 && Fine(Do(s, d))
    requires Writes(Reset(s), d) !! keep && rd !in Targets(d)
    ensures Do(s, d).r[rd] == s.r[rd] && Keeps(s, Do(s, d), keep)
  {
    hide Exec, Writes, Targets;
    RegisterKept(Reset(s), d, rd);
    BytesKept(Reset(s), d, keep);
    SameBytes(s, Reset(s));
  }

  // The instructions beyond the model trap, stay where they are or end the run.
  lemma NeverFine(s: Cpu, d: Instr)
    requires s.Valid() && d.Valid() && d.Beyond?
    ensures !Fine(Exec(s, d))
  {
    hide AccessAt;
  }

  lemma RegisterKept(s: Cpu, d: Instr, rd: nat)
    requires s.Valid() && d.Valid() && rd < 32 && Fine(Exec(s, d)) && rd !in Targets(d)
    ensures Exec(s, d).r[rd] == s.r[rd]
  {
    if d.Beyond? {
      NeverFine(s, d);
    }
    hide ExecBeyond;
    hide Load, Store, Bytes, Extend, EffectiveAddress;
  }

  lemma BytesKept(s: Cpu, d: Instr, keep: set<int>)
    requires s.Valid() && Fine(s) && d.Valid() && Fine(Exec(s, d)) && Writes(s, d) !! keep
    ensures Keeps(s, Exec(s, d), keep)
  {
    hide EffectiveAddress, Write, ByteAt;
    match d {
      case StoreInt(size, rd, _, _, _, _) =>
        var ea := EffectiveAddress(s.r[d.base], s.r[d.index], d.scale, d.offset);
        StoreIsWrite(s, d);
        WriteKeeps(s, ea, s.r[rd], size, keep);
        SameBytes(Write(s, ea, s.r[rd], size), Exec(s, d));
      case Push(i) =>
        WriteKeeps(s, Wrap(Top(s) - 4), s.r[i], 4, keep);
        SameBytes(Write(s, Wrap(Top(s) - 4), s.r[i], 4), Exec(s, d));
      case Enter(i, _) =>
        EnterKeeps(s, i, d.words, keep);
      case Beyond(_, _, _) =>
        NeverFine(s, d);
      case _ =>
        NothingWritten(s, d);
        SameBytes(s, Exec(s, d));
    }
  }

  lemma EnterKeeps(s: Cpu, rd: nat, words: nat, keep: set<int>)
    requires s.Valid() && rd < 32 && Fine(ExecEnter(s, rd, words))
    requires Range(Wrap(Top(s) - 4), 4) !! keep && Range(Wrap(Top(s) - 8), 4) !! keep
    ensures Keeps(s, ExecEnter(s, rd, words), keep)
  {
    hide Write, ByteAt, Range;
    var sp := Top(s);
    var t := Write(s, Wrap(sp - 4), s.r[RETADR], 4);
    WriteKeeps(s, Wrap(sp - 4), s.r[RETADR], 4, keep);
    WriteKeeps(t, Wrap(sp - 8), s.r[rd], 4, keep);
    SameBytes(Write(t, Wrap(sp - 8), s.r[rd], 4), ExecEnter(s, rd, words));
  }

  lemma StoreIsWrite(s: Cpu, d: Instr)
    requires s.Valid() && d.Valid() && d.StoreInt? && Fine(Exec(s, d))
    ensures var t := Write(s, EffectiveAddress(s.r[d.base], s.r[d.index], d.scale, d.offset), s.r[d.rd], d.size);
      Fine(t) && Exec(s, d) == Bump(t, 2)
  {
    hide EffectiveAddress, Bytes;
  }

  lemma NothingWritten(s: Cpu, d: Instr)
    requires s.Valid() && d.Valid() && !d.StoreInt? && !d.Push? && !d.Enter? && !d.Beyond?
    ensures Keeps(s, Exec(s, d), {}) && Exec(s, d).mem == s.mem
  {
    hide Load, ByteAt, Extend, EffectiveAddress;
  }

  lemma WriteKeeps(s: Cpu, ea: Word, v: Word, size: nat, keep: set<int>)
    requires s.Valid() && size in {1, 2, 4} && Range(ea, size) !! keep && Fine(Write(s, ea, v, size))
    ensures Keeps(s, Write(s, ea, v, size), keep)
  {
    hide Bytes;
    forall a | a in keep ensures ByteAt(s, a) == ByteAt(Write(s, ea, v, size), a) {
      assert a !in Range(ea, size);
    }
  }

  lemma LoadKept(s: Cpu, t: Cpu, ea: int, keep: set<int>)
    requires s.Valid() && t.Valid() && Keeps(s, t, keep) && Range(ea, 4) <= keep && InMemory(s, ea, 4)
    ensures Load(s.mem, ea - s.beg, 4) == Load(t.mem, ea - s.beg, 4)
  {
    forall i | ea - s.beg <= i < ea - s.beg + 4 ensures s.mem[i] == t.mem[i] {
      assert s.beg + i in keep && ByteAt(s, s.beg + i) == ByteAt(t, s.beg + i);
    }
    LoadSame(s.mem, t.mem, ea - s.beg, 4);
  }

  lemma WordKept(s: Cpu, t: Cpu, ea: int)
    requires s.Valid() && t.Valid() && s.beg == t.beg && |s.mem| == |t.mem| && InMemory(s, ea, 4)
    requires forall a :: ea <= a < ea + 4 ==> ByteAt(s, a) == ByteAt(t, a)
    ensures Load(s.mem, ea - s.beg, 4) == Load(t.mem, ea - s.beg, 4)
  {
    hide ByteAt, Load, Cpu.Valid;
    LoadKept(s, t, ea, Range(ea, 4));
  }

  // A write that did not trap.
  lemma WriteFine(s: Cpu, ea: Word, v: Word)
    requires s.Valid() && Fine(s) && Fine(Write(s, ea, v, 4))
    ensures InMemory(s, ea, 5) && Write(s, ea, v, 4) == s.(mem := Store(s.mem, ea - s.beg, Bytes(v, 4)))
    ensures Load(Write(s, ea, v, 4).mem, ea - s.beg, 4) == v
    ensures forall a :: !(ea <= a < ea + 4) ==> ByteAt(Write(s, ea, v, 4), a) == ByteAt(s, a)
  {
    hide Bytes, Load;
    assert AddressValid(s, ea, 4) && ea + 4 < TWO32;
    StoreLoad(s.mem, ea - s.beg, v);
  }

  // After ENTER the frame register points at the two saved words.
  lemma Entering(s: Cpu, rd: nat, locals: nat, keep: set<int>)
    requires s.Valid() && Fine(s) && FrameRegister(rd) && locals < 0x1_0000
    requires Fine(Do(s, Enter(rd, locals))) && keep !! FrameWords(s)
    ensures var e, sp := Do(s, Enter(rd, locals)), Top(s) - 8;
            && e.r[rd] == sp && e.beg == s.beg && |e.mem| == |s.mem| && Keeps(s, e, keep)
            && s.beg <= sp && sp + 8 < s.beg + |s.mem|
            && Load(e.mem, sp - s.beg, 4) == s.r[rd] && Load(e.mem, sp + 4 - s.beg, 4) == s.r[RETADR]
  {
    hide Load, ByteAt, Exec, Write;
    var u := EnterWrites(s, rd, locals);
    forall a | a in keep ensures ByteAt(s, a) == ByteAt(u, a) {
      assert a !in FrameWords(s);
    }
    SameBytes(u, Do(s, Enter(rd, locals)));
  }

  // The state after ENTER's two writes.
  lemma EnterWrites(s: Cpu, rd: nat, locals: nat) returns (u: Cpu)
    requires s.Valid() && Fine(s) && FrameRegister(rd) && locals < 0x1_0000
    requires Fine(Do(s, Enter(rd, locals)))
    ensures u.Valid() && u.beg == s.beg && |u.mem| == |s.mem|
    ensures var e, sp := Do(s, Enter(rd, locals)), Top(s) - 8;
            && e.mem == u.mem && e.beg == s.beg && e.r[rd] == sp
            && s.beg <= sp && sp + 8 < s.beg + |s.mem|
            && Load(u.mem, sp - s.beg, 4) == s.r[rd] && Load(u.mem, sp + 4 - s.beg, 4) == s.r[RETADR]
            && forall a :: !(sp <= a < sp + 8) ==> ByteAt(u, a) == ByteAt(s, a)
  {
    hide Write, Load, ByteAt, ExecEnter;
    var r, sp := Reset(s), Top(s);
    EnterIs(r, rd, locals);
    u := TwoWrites(r, sp, s.r[RETADR], s.r[rd]);
    SameBytes(r, s);
  }

  // Two words pushed, neither of which trapped.
  lemma TwoWrites(s: Cpu, sp: Word, x: Word, y: Word) returns (u: Cpu)
    requires s.Valid() && Fine(s) && Fine(Write(s, Wrap(sp - 4), x, 4))
    requires Fine(Write(Write(s, Wrap(sp - 4), x, 4), Wrap(sp - 8), y, 4))
    ensures u.Valid() && u == Write(Write(s, Wrap(sp - 4), x, 4), Wrap(sp - 8), y, 4) && u.beg == s.beg && |u.mem| == |s.mem|
    ensures s.beg <= sp - 8 && sp < s.beg + |s.mem|
    ensures Load(u.mem, sp - 8 - s.beg, 4) == y && Load(u.mem, sp - 4 - s.beg, 4) == x
    ensures forall a :: !(sp - 8 <= a < sp) ==> ByteAt(u, a) == ByteAt(s, a)
  {
    hide Write, Load, ByteAt, Cpu.Valid;
    var t := Write(s, Wrap(sp - 4), x, 4);
    u := Write(t, Wrap(sp - 8), y, 4);
    WriteFine(s, Wrap(sp - 4), x);
    WriteFine(t, Wrap(sp - 8), y);
    BegAbove(s);
    WordKept(t, u, sp - 4);
  }

  lemma BegAbove(s: Cpu)
    requires s.Valid()
    ensures 4096 <= s.beg && s.beg + |s.mem| < TWO31
  {
  }

  lemma EnterIs(s: Cpu, rd: nat, locals: nat)
    requires s.Valid() && Fine(s) && FrameRegister(rd) && Fine(ExecEnter(s, rd, locals))
    ensures var sp := Top(s);
            var t := Write(s, Wrap(sp - 4), s.r[RETADR], 4);
            var u := Write(t, Wrap(sp - 8), s.r[rd], 4);
            var e := ExecEnter(s, rd, locals);
            Fine(t) && Fine(u) && e.mem == u.mem && e.beg == u.beg && e.r[rd] == Wrap(sp - 8)
  {
    hide Write;
  }

  lemma SameBytes(s: Cpu, t: Cpu)
    requires s.beg == t.beg && s.mem == t.mem
    ensures forall a :: ByteAt(s, a) == ByteAt(t, a)
  {
  }

  // LEAVE reads back the words ENTER saved, if the body kept them.
  lemma Leaving(s: Cpu, b: Cpu, rd: nat, args: nat)
    requires s.Valid() && b.Valid() && Fine(b) && FrameRegister(rd) && args < 0x1_0000
    requires b.beg == s.beg && |b.mem| == |s.mem| && b.r[rd] == Top(s) - 8
    requires s.beg <= Top(s) - 8 && Top(s) < s.beg + |s.mem|
    requires Load(b.mem, Top(s) - 8 - s.beg, 4) == s.r[rd] && Load(b.mem, Top(s) - 4 - s.beg, 4) == s.r[RETADR]
    ensures var u := Do(b, Leave(rd, args));
            && Fine(u) && u.r[rd] == s.r[rd] && u.r[RETADR] == s.r[RETADR]
            && u.r[SP] == Wrap(Top(s) + 4 * args) && u.mem == b.mem && u.beg == b.beg
  {
    hide Load;
    assert Reset(b).r[rd] == Top(s) - 8;
  }

  // Everything at or above the stack pointer.
  function Above(s: Cpu): set<int>
    requires s.Valid()
  {
    var end := s.beg + |s.mem|;
    Range(Top(s), if Top(s) < end then end - Top(s) else 0)
  }

  // A call whose bodies write nothing at or above the entry stack pointer leaves all memory
  // there alone.
  lemma AboveKept(s: Cpu, t: Tree, rd: nat, low: int)
    requires s.Valid() && Fine(s) && FrameRegister(rd) && TreeOK(t) && Tidy(s, t, rd, low, Above(s))
    ensures forall a :: a >= Top(s) ==> ByteAt(RunTree(s, t, rd), a) == ByteAt(s, a)
  {
    hide RunTree, Tidy;
    CallRestores(s, t, rd, low, Above(s));
    forall a | a >= Top(s) ensures ByteAt(RunTree(s, t, rd), a) == ByteAt(s, a) {
      if a in Above(s) {
        assert ByteAt(s, a) == ByteAt(RunTree(s, t, rd), a);
      }
    }
  }

  lemma WriteRoom(s: Cpu, ea: int, v: Word)
    requires s.Valid() && Fine(s) && InMemory(s, ea, 5)
    ensures ea == Wrap(ea) && var t := Write(s, ea, v, 4);
      Fine(t) && t.beg == s.beg && |t.mem| == |s.mem| && t.r == s.r
  {
    hide Bytes;
  }

  // The frame register and the return address can be saved.
  lemma EnterFine(s: Cpu, rd: nat, locals: nat)
    requires s.Valid() && Fine(s) && FrameRegister(rd) && locals < 0x1_0000
    requires s.beg <= Top(s) - 8 && Top(s) < s.beg + |s.mem|
    ensures var e := Do(s, Enter(rd, locals));
      Fine(e) && e.beg == s.beg && |e.mem| == |s.mem| && e.r[rd] == Top(s) - 8 && e.r[SP] == Wrap(Top(s) - 8 - 4 * locals)
  {
    hide Write;
    var r, sp := Reset(s), Top(s);
    WriteRoom(r, sp - 4, s.r[RETADR]);
    var t := Write(r, Wrap(sp - 4), s.r[RETADR], 4);
    WriteRoom(t, sp - 8, s.r[rd]);
  }

  lemma PushFine(s: Cpu, i: nat)
    requires s.Valid() && Fine(s) && i < 32 && s.beg <= Top(s) - 4 && Top(s) < s.beg + |s.mem|
    ensures var t := Do(s, Push(i));
      && Fine(t) && t.beg == s.beg && |t.mem| == |s.mem| && t.r == Reset(s).r[SP := Wrap(Top(s) - 4)]
      && Writes(Reset(s), Push(i)) == Range(Top(s) - 4, 4)
  {
    hide Write;
    WriteRoom(Reset(s), Top(s) - 4, Reset(s).r[i]);
  }

  // A procedure that pushes one argument and calls on, `n` deep.
  function Nest(n: nat, locals: nat, i: nat): (t: Tree)
    requires i < 32 && locals < 0x1_0000
    ensures TreeOK(t)
    decreases n
  {
    Tree(locals, 1, if n == 0 then [] else [Step(Push(i)), Call(Nest(n - 1, locals, i))])
  }

  // The stack this takes.
  function Depth(n: nat, locals: nat): nat
    decreases n
  {
    if n == 0 then 8 else 12 + 4 * locals + Depth(n - 1, locals)
  }

  // The state in which the nested call starts.
  lemma NestStarts(s: Cpu, n: nat, locals: nat, i: nat, rd: nat, low: int, keep: set<int>) returns (p: Cpu)
    requires s.Valid() && Fine(s) && FrameRegister(rd) && locals < 0x1_0000 && i < 32 && n > 0
    requires s.beg <= low <= Top(s) - Depth(n, locals) && Top(s) < s.beg + |s.mem| && Outer(keep, low, Top(s))
    ensures var e, all := Do(s, Enter(rd, locals)), keep + FrameWords(s);
      && Fine(e) && p == Do(e, Push(i)) && Writes(Reset(e), Push(i)) !! all
      && p.Valid() && Fine(p) && p.beg == s.beg && |p.mem| == |s.mem| && Outer(all, low, Top(p))
      && low <= Top(p) - Depth(n - 1, locals) && Top(p) < s.beg + |s.mem| && Top(p) <= p.r[rd]
  {
    hide Do, Writes;
    EnterFine(s, rd, locals);
    var e := Do(s, Enter(rd, locals));
    PushFine(e, i);
    p := Do(e, Push(i));
  }

  lemma NestBody(e: Cpu, n: nat, locals: nat, i: nat, rd: nat, low: int, keep: set<int>)
    requires e.Valid() && FrameRegister(rd) && locals < 0x1_0000 && i < 32 && n > 0
    requires var p := Do(e, Push(i));
      && Fine(p) && Writes(Reset(e), Push(i)) !! keep && Top(p) <= p.r[rd]
      && Tidy(p, Nest(n - 1, locals, i), rd, low, keep)
    ensures TidyFrom(e, Nest(n, locals, i), 0, rd, low, keep)
  {
    hide Do, Writes, Tidy;
    var t := Nest(n, locals, i);
    var p := RunItem(e, t, 0, rd);
    assert TidyFrom(RunItem(p, t, 1, rd), t, 2, rd, low, keep);
    assert TidyFrom(p, t, 1, rd, low, keep);
  }

  // With room on the stack such calls are tidy: trees of the kind above exist, of any depth.
  lemma {:induction false} NestIsTidy(s: Cpu, n: nat, locals: nat, i: nat, rd: nat, low: int, keep: set<int>)
    requires s.Valid() && Fine(s) && FrameRegister(rd) && locals < 0x1_0000 && i < 32
    requires s.beg <= low <= Top(s) - Depth(n, locals) && Top(s) < s.beg + |s.mem| && Outer(keep, low, Top(s))
    ensures Tidy(s, Nest(n, locals, i), rd, low, keep)
    decreases n
  {
    hide Do, Writes, Outer, FrameWords;
    EnterFine(s, rd, locals);
    if n > 0 {
      var all := keep + FrameWords(s);
      var p := NestStarts(s, n, locals, i, rd, low, keep);
      NestIsTidy(p, n - 1, locals, i, rd, low, all);
      NestBody(Do(s, Enter(rd, locals)), n, locals, i, rd, low, all);
    }
  }
}
