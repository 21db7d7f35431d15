// The plain machine: fetch, decode, execute, with no cache.
module SklRun {
  import opened Words
  import opened SklCpu

  // The check that the two words of a real operand are there; they are not read here.
  function Probe(s: Cpu, ea: Word): (t: Cpu)
    requires s.Valid()
    ensures t.Valid()
  {
    if !AddressValid(s, ea, 8) then HardwareTrap(s, OutOfBoundsRead)
    else if ea + 8 >= TWO32 then s.(status := Wild)
    else s
  }

  // The words at the pc: the instruction's, and its operand word if it has one. An operand
  // word that cannot be read traps, yet the instruction is still interpreted.
  function FetchWords(s: Cpu): (res: (Word, Word, Cpu))
    requires s.Valid()
    ensures res.2.Valid()
  {
    var (inst, s1) := Read(s.(exc := false), s.pc, 4);
    if s1.status != Running || Operands(inst) == 0 then (inst, 0, s1)
    else if Operands(inst) == 2 then (inst, 0, Probe(s1, Wrap(s.pc + 4)))
    else
      var (word, s2) := Read(s1, Wrap(s.pc + 4), 4);
      (inst, word, s2)
  }

  // Fetching clears the exception flag, reads the words of the instruction, and traps if it must.
  function Fetch(s: Cpu): (res: (Option<Instr>, Cpu))
    requires s.Valid()
    ensures res.1.Valid() && (res.0.Some? ==> res.0.value.Valid())
    ensures res.0.None? ==> res.1.exc || res.1.status != Running
    ensures res.0.Some? ==> res.1.status == Running
  {
    var (inst, word, s2) := FetchWords(s);
    if s2.status != Running then (None, s2) else
    match Decode(s.pc, inst, word)
    case Ok(d) => (Some(d), s2)
    case Unsupported => (None, s2.(status := Fatal))
    case Invalid => (None, HardwareTrap(s2, InvalidOpcode))
  }

  function Reset(s: Cpu): (t: Cpu)
    requires s.Valid()
    ensures t.Valid()
  {
    SetReg(s, 0, 0)
  }

  function PlainStep(s: Cpu): (t: Cpu)
    requires s.Valid()
    ensures t.Valid()
  {
    var (d, t) := Fetch(Reset(s));
    if d.None? then t else Exec(t, d.value)
  }

  function PlainRun(s: Cpu, n: nat): (t: Cpu)
    requires s.Valid()
    ensures t.Valid()
    decreases n
  {
    if n == 0 || s.status != Running then s else PlainRun(PlainStep(s), n - 1)
  }

  // The words at `pc` decode to `d`, without a trap.
  predicate Fits(s: Cpu, pc: Word, d: Instr)
    requires s.Valid()
  {
    Fetch(s.(pc := pc)) == (Some(d), s.(pc := pc, exc := false))
  }

  // Addresses of the bytes of an instruction's words.
  function CodeOf(pc: Word, d: Option<Instr>): set<int> {
    if d.None? then {} else Range(pc, 4 * d.value.Words())
  }

  predicate Between(lo: int, a: int, hi: int) {
    lo <= a < hi
  }

  function Range(lo: int, n: nat): (r: set<int>)
    ensures forall a :: a in r <==> lo <= a < lo + n
  {
    var hi := lo + n;
    set a | lo <= a < hi && Between(lo, a, hi)
  }

  function ByteAt(s: Cpu, a: int): int {
    if s.beg <= a < s.beg + |s.mem| then s.mem[a - s.beg] else -1
  }

  predicate Unchanged(s: Cpu, t: Cpu, code: set<int>) {
    s.beg == t.beg && |s.mem| == |t.mem| && forall a :: a in code ==> ByteAt(s, a) == ByteAt(t, a)
  }

  lemma SameRead(s: Cpu, t: Cpu, ea: Word)
    requires s.Valid() && t.Valid() && s.beg == t.beg && |s.mem| == |t.mem| && s.status == t.status
    requires forall a :: ea <= a < ea + 4 ==> ByteAt(s, a) == ByteAt(t, a)
    requires Read(s, ea, 4).1 == s && s.status == Running
    ensures Read(t, ea, 4) == (Read(s, ea, 4).0, t)
  {
    assert AddressValid(s, ea, 4) && ea + 4 < TWO32;
    forall i | ea - s.beg <= i < ea - s.beg + 4 ensures s.mem[i] == t.mem[i] {
      assert ByteAt(s, s.beg + i) == ByteAt(t, s.beg + i);
    }
    LoadSame(s.mem, t.mem, ea - s.beg, 4);
  }

  // What a decoding gives depends only on the bytes of the instruction.
  lemma FitsSame(s: Cpu, t: Cpu, pc: Word, d: Instr)
    requires s.Valid() && t.Valid() && Fits(s, pc, d) && Unchanged(s, t, CodeOf(pc, Some(d)))
    requires s.status == t.status == Running
    ensures Fits(t, pc, d)
  {
    hide Decode, Read, Operands, Probe;
    var s0, t0 := s.(pc := pc, exc := false), t.(pc := pc, exc := false);
    var (inst, s1) := Read(s0, pc, 4);
    ReadKeeps(s0, pc);
    ReadKeeps(s1, Wrap(pc + 4));
    ProbeKeeps(s1, Wrap(pc + 4));
    assert s1 == s0;
    forall a | pc <= a < pc + 4 * d.Words() ensures ByteAt(s0, a) == ByteAt(t0, a) {
      assert a in CodeOf(pc, Some(d)) && ByteAt(s, a) == ByteAt(t, a);
    }
    SameRead(s0, t0, pc);
    ReadInside(s0, pc);
    if Operands(inst) == 1 {
      SameRead(s0, t0, Wrap(pc + 4));
    } else if Operands(inst) == 2 {
      SameProbe(s0, t0, Wrap(pc + 4));
    }
  }

  lemma FitsInside(s: Cpu, pc: Word, d: Instr)
    requires s.Valid() && s.status == Running && Fits(s, pc, d)
    ensures s.beg <= pc
  {
    hide Decode, Load, Operands;
    var s0 := s.(pc := pc, exc := false);
    ReadKeeps(s0, pc);
    ReadKeeps(Read(s0, pc, 4).1, Wrap(pc + 4));
    ProbeKeeps(Read(s0, pc, 4).1, Wrap(pc + 4));
  }

  lemma ProbeKeeps(s: Cpu, ea: Word)
    requires s.Valid()
    ensures s.status != Running ==> Probe(s, ea).status != Running
    ensures var t := Probe(s, ea); t == s || (t.exc && t.status == Running) || t.status != Running
    ensures s.exc ==> Probe(s, ea).exc || Probe(s, ea).status != Running
  {
  }

  lemma SameProbe(s: Cpu, t: Cpu, ea: Word)
    requires s.Valid() && t.Valid() && s.beg == t.beg && |s.mem| == |t.mem| && s.status == t.status == Running
    requires !s.exc && !t.exc && Probe(s, ea) == s
    ensures Probe(t, ea) == t
  {
  }

  // A read changes nothing, unless it traps or leaves the model.
  lemma ReadKeeps(s: Cpu, ea: Word)
    requires s.Valid()
    ensures s.status != Running ==> Read(s, ea, 4).1.status != Running
    ensures var t := Read(s, ea, 4).1; t == s || (t.exc && t.status == Running) || t.status != Running
    ensures var t := Read(s, ea, 4).1; s.exc ==> t.exc || t.status != Running
  {
  }

  lemma ReadInside(s: Cpu, ea: Word)
    requires s.Valid() && s.status == Running && Read(s, ea, 4).1 == s
    ensures Wrap(ea + 4) == ea + 4
  {
  }

  // ---- The emulator's runs, as runs of instructions -----------------------------------

  // The heap is counted from the host's allocation, 12 bytes before memory begins. Address 0 has
  // the place of its first byte.
  function Slot(s: Cpu, pc: int): int {
    if pc == 0 then 0 else pc - (s.beg - 12)
  }

  // Where the emulator's asserts let an instruction be cached: aligned, and (the cache is
  // indexed by byte offset but has one entry a word) in the first quarter of the heap.
  predicate Cacheable(s: Cpu, pc: int) {
    pc % 4 == 0 && 0 <= Slot(s, pc) < |s.mem| / 4
  }

  // An instruction fetched before is not decoded again, so the exception flag stays as it is.
  function KeptStep(s: Cpu, seen: set<int>): (t: Cpu)
    requires s.Valid()
    ensures t.Valid()
  {
    var (d, t) := Fetch(Reset(s));
    if d.None? then t else Exec(if s.pc in seen then Reset(s) else t, d.value)
  }

  function SeenAfter(s: Cpu, seen: set<int>): set<int>
    requires s.Valid()
  {
    if Fetch(Reset(s)).0.Some? then seen + {s.pc as int} else seen
  }

  function KeptRun(s: Cpu, n: nat, seen: set<int>): (t: Cpu)
    requires s.Valid()
    ensures t.Valid()
    decreases n
  {
    if n == 0 || s.status != Running then s else KeptRun(KeptStep(s, seen), n - 1, SeenAfter(s, seen))
  }

  function SeenRun(s: Cpu, n: nat, seen: set<int>): set<int>
    requires s.Valid()
    decreases n
  {
    if n == 0 || s.status != Running then seen else SeenRun(KeptStep(s, seen), n - 1, SeenAfter(s, seen))
  }

  // `n` steps that never overwrite an instruction fetched so far (`code` holds the bytes of
  // those fetched before), at places where instructions can be cached. After an opcode that
  // is none the emulator decodes without looking, and asserts that there is no entry yet.
  ghost predicate Quiet(s: Cpu, n: nat, code: set<int>, seen: set<int>)
    requires s.Valid()
    decreases n
  {
    n == 0 || s.status != Running ||
    var t := KeptStep(s, seen);
    var f := Fetch(Reset(s)).0;
    && Cacheable(s, s.pc)
    && (t.status == Running ==> Cacheable(t, t.pc) && (f.None? ==> t.pc !in seen))
    && (t.status == Running && n > 1 ==>
        Unchanged(s, t, code + CodeOf(s.pc, f)) && Quiet(t, n - 1, code + CodeOf(s.pc, f), SeenAfter(s, seen)))
  }

  lemma RunStart(s: Cpu, seen: set<int>)
    requires s.Valid()
    ensures KeptRun(s, 0, seen) == s && SeenRun(s, 0, seen) == seen
  {
  }

  lemma RunStep(s: Cpu, n: nat, seen: set<int>)
    requires s.Valid() && n > 0 && s.status == Running
    ensures KeptRun(s, n, seen) == KeptRun(KeptStep(s, seen), n - 1, SeenAfter(s, seen))
    ensures SeenRun(s, n, seen) == SeenRun(KeptStep(s, seen), n - 1, SeenAfter(s, seen))
  {
  }

  lemma RunStopped(s: Cpu, n: nat, seen: set<int>)
    requires s.Valid() && s.status != Running
    ensures KeptRun(s, n, seen) == s && SeenRun(s, n, seen) == seen
  {
  }

  // The first step of a quiet run.
  lemma QuietStep(s: Cpu, n: nat, code: set<int>, seen: set<int>)
    requires s.Valid() && n > 0 && s.status == Running && Quiet(s, n, code, seen)
    ensures var t, f := KeptStep(s, seen), Fetch(Reset(s)).0;
      && (t.status == Running ==> Cacheable(t, t.pc) && (f.None? ==> t.pc !in seen))
      && (t.status == Running && n > 1 ==> Unchanged(s, t, code + CodeOf(s.pc, f)))
      && Quiet(t, n - 1, code + CodeOf(s.pc, f), SeenAfter(s, seen))
  {
    hide KeptStep, Fetch, Unchanged, CodeOf, SeenAfter, Cacheable;
  }

  // No instruction that can be cached traps while its operand words are fetched.
  lemma FetchClean(s: Cpu)
    requires s.Valid() && s.status == Running && Cacheable(s, s.pc) && Fetch(s).0.Some?
    ensures Fetch(s).1 == s.(exc := false) && Fits(s, s.pc, Fetch(s).0.value)
  {
    hide Decode, Load, HardwareTrap;
    var s0 := s.(exc := false);
    if !AddressValid(s0, s.pc, 4) {
      NoOpcode(s.pc);
    }
    assert s.(pc := s.pc) == s;
  }

  // All ones is no instruction.
  lemma NoOpcode(pc: Word)
    ensures Operands(0xFFFF_FFFF) == 0 && Decode(pc, 0xFFFF_FFFF, 0) == Invalid
  {
    assert Class(0xFFFF_FFFF) == 63;
  }

  // Interpreting a decoding that fits is the emulator's step, whatever the flag.
  lemma CachedStep(s: Cpu, d: Instr, seen: set<int>)
    requires s.Valid() && s.status == Running && Fits(s, s.pc, d) && s.pc in seen
    ensures Fetch(Reset(s)).0 == Some(d) && KeptStep(s, seen) == Exec(Reset(s), d)
  {
    hide Fetch, Exec;
    FitsSame(s, Reset(s), s.pc, d);
    assert Reset(s).(pc := s.pc) == Reset(s);
  }

  // With the flag down, the emulator's step is the plain machine's.
  lemma PlainKept(s: Cpu, seen: set<int>)
    requires s.Valid() && s.status == Running && Cacheable(s, s.pc) && !s.exc
    ensures KeptStep(s, seen) == PlainStep(s)
  {
    hide Fetch, Exec;
    if Fetch(Reset(s)).0.Some? {
      FetchClean(Reset(s));
    }
  }

  // So the emulator's run is the plain machine's, up to and including the first trap.
  lemma {:induction false} UpToTrap(s: Cpu, n: nat, code: set<int>, seen: set<int>)
    requires s.Valid() && Quiet(s, n, code, seen)
    requires forall k :: 0 <= k < n ==> !PlainRun(s, k).exc
    ensures KeptRun(s, n, seen) == PlainRun(s, n)
    decreases n
  {
    hide KeptStep, PlainStep, Fetch, Unchanged, CodeOf, SeenAfter;
    if n > 0 && s.status == Running {
      assert PlainRun(s, 0) == s;
      PlainKept(s, seen);
      var t := KeptStep(s, seen);
      if t.status == Running && n > 1 {
        forall k | 0 <= k < n - 1 ensures !PlainRun(t, k).exc {
          assert PlainRun(s, k + 1) == PlainRun(t, k);
        }
        UpToTrap(t, n - 1, code + CodeOf(s.pc, Fetch(Reset(s)).0), SeenAfter(s, seen));
      }
    }
  }

  // A jump to itself: an instruction word of class 7, operation 10, and an operand of -8.
  predicate Loops(s: Cpu)
    requires s.Valid()
  {
    && s.status == Running && s.beg <= s.pc && Cacheable(s, s.pc) && s.pc + 8 < s.beg + |s.mem|
    && Load(s.mem, s.pc - s.beg, 4) == 7 * 0x400_0000 + 10 && Load(s.mem, s.pc + 4 - s.beg, 4) == 0xFFFF_FFF8
  }

  lemma LoopDecodes(pc: Word)
    ensures Operands(7 * 0x400_0000 + 10) == 1 && Decode(pc, 7 * 0x400_0000 + 10, 0xFFFF_FFF8) == Ok(Jump(pc))
  {
    var inst: Word := 7 * 0x400_0000 + 10;
    assert Class(inst) == 7 && inst % 32 == 10;
    assert Wrap(pc + 8 + 0xFFFF_FFF8) == pc;
  }

  lemma LoopSteps(s: Cpu, seen: set<int>)
    requires s.Valid() && Loops(s)
    ensures Fetch(Reset(s)).0 == Some(Jump(s.pc))
    ensures KeptStep(s, seen) == if s.pc in seen then Reset(s) else Reset(s).(exc := false)
  {
    hide Load, Decode, Operands;
    LoopDecodes(s.pc);
    var t := Reset(s).(exc := false);
    assert FetchWords(Reset(s)) == (7 * 0x400_0000 + 10, 0xFFFF_FFF8, t);
    assert t.(pc := s.pc) == t && Reset(s).(pc := s.pc) == Reset(s);
  }

  lemma LoopStays(s: Cpu, seen: set<int>)
    requires s.Valid() && Loops(s)
    ensures var t := KeptStep(s, seen);
      Loops(t) && Cacheable(t, t.pc) && t.pc == s.pc && forall code :: Unchanged(s, t, code)
  {
    LoopSteps(s, seen);
    hide KeptStep, Loops, Unchanged;
    SameCode(s, KeptStep(s, seen));
  }

  lemma SameCode(s: Cpu, t: Cpu)
    requires s.Valid() && t.Valid() && Loops(s)
    requires t.mem == s.mem && t.beg == s.beg && t.pc == s.pc && t.status == s.status
    ensures Loops(t) && Cacheable(t, t.pc) && forall code :: Unchanged(s, t, code)
  {
    hide Load;
  }

  // Quiet runs exist, of any length.
  lemma {:induction false} LoopIsQuiet(s: Cpu, n: nat, seen: set<int>)
    requires s.Valid() && Loops(s)
    ensures Quiet(s, n, CodeOf(s.pc, Some(Jump(s.pc))), seen)
    decreases n
  {
    if n > 0 {
      LoopSteps(s, seen);
      LoopStays(s, seen);
      assert Cacheable(s, s.pc);
      hide Fetch, KeptStep, Loops, Cacheable, Unchanged, CodeOf, SeenAfter;
      var t, code := KeptStep(s, seen), CodeOf(s.pc, Some(Jump(s.pc)));
      assert code + code == code;
      LoopIsQuiet(t, n - 1, SeenAfter(s, seen));
    }
  }
}
