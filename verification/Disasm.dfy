// The disassembler's linear sweep over a block of code, against the interpreter's program
// counter.
module Disasm {
  import opened Words
  import opened SklCpu
  import opened SklRun
  import opened SklFlags
  import O3

  // The word at `pc`; the code is an array of words starting at address 0.
  function WordAt(code: seq<Word>, pc: int): Word
    requires 0 <= pc < 4 * |code|
  {
    code[pc / 4]
  }

  // The instruction at `pc`, as the interpreter decodes it.
  function InstrAt(code: seq<Word>, pc: int): Decoded
    requires 0 <= pc < 4 * |code| && pc < TWO32
  {
    Decode(pc, WordAt(code, pc), if pc + 4 < 4 * |code| then WordAt(code, pc + 4) else 0)
  }

  // It is one that the interpreter's constructors accept, and all of it is there.
  predicate Whole(code: seq<Word>, pc: int)
    requires 0 <= pc < 4 * |code| && pc < TWO32
  {
    InstrAt(code, pc).Ok? && pc + 4 * InstrAt(code, pc).i.Words() <= 4 * |code|
  }

  // Where the instructions of a block are: each one as many words after the one before as
  // that one takes.
  ghost function Places(code: seq<Word>, pc: int, end: int): seq<int>
    requires 0 <= pc && end <= 4 * |code| && end < TWO32
    decreases end - pc
  {
    if pc >= end then [] else
      var d := InstrAt(code, pc);
      if d.Ok? then [pc] + Places(code, pc + 4 * d.i.Words(), end) else [pc]
  }

  // Every instruction of the block is whole.
  ghost predicate Sound(code: seq<Word>, pc: int, end: int)
    requires 0 <= pc && end <= 4 * |code| && end < TWO32
    decreases end - pc
  {
    pc >= end || (Whole(code, pc) && Sound(code, pc + 4 * InstrAt(code, pc).i.Words(), end))
  }

  // ---- Where the interpreter goes on ---------------------------------------------------

  // Without a trap, an instruction that is no jump goes on with the next.
  predicate GoesOn(t: Cpu, next: Word) {
    t.exc || t.status in {Fatal, Wild} || t.pc == next
  }

  lemma StackGoesOn(s: Cpu, d: Instr)
    requires s.Valid() && d.Valid() && (d.Push? || d.Pop?) && s.status == Running
    ensures GoesOn(Exec(s, d), Wrap(s.pc + 4))
  {
    hide Read, Write;
    var sp: int := s.r[SP];
    WriteStays(s, Wrap(sp - 4), s.r[d.rd]);
    ReadStays(s, sp);
  }

  lemma FrameGoesOn(s: Cpu, d: Instr)
    requires s.Valid() && d.Valid() && (d.Enter? || d.Leave?) && s.status == Running
    ensures GoesOn(Exec(s, d), Wrap(s.pc + 4))
  {
    hide Read, Write;
    var sp: int, sfp: int := s.r[SP], s.r[d.rd];
    if d.Enter? {
      WriteStays(s, Wrap(sp - 4), s.r[RETADR]);
      WriteStays(Write(s, Wrap(sp - 4), s.r[RETADR], 4), Wrap(sp - 8), s.r[d.rd]);
    } else {
      ReadStays(s, sfp);
      ReadStays(Read(s, sfp, 4).1, Wrap(sfp + 4));
    }
  }

  lemma WriteStays(s: Cpu, ea: Word, v: Word)
    requires s.Valid()
    ensures var t := Write(s, ea, v, 4); t.exc || t.status in {s.status, Fatal, Wild}
    ensures var t := Write(s, ea, v, 4); !t.exc && t.status == s.status == Running ==> t.pc == s.pc
  {
    hide Store, Bytes;
  }

  lemma ReadStays(s: Cpu, ea: Word)
    requires s.Valid()
    ensures var t := Read(s, ea, 4).1; t.exc || t.status in {s.status, Fatal, Wild}
    ensures var t := Read(s, ea, 4).1; !t.exc && t.status == s.status == Running ==> t.pc == s.pc
  {
    hide Load;
  }

  lemma GenGoesOn(s: Cpu, d: Instr)
    requires s.Valid() && d.Valid() && d.Gen? && s.status == Running
    ensures GoesOn(Exec(s, d), Wrap(s.pc + 4))
  {
    hide Flags, O3.Div, O3.Mod;
  }

  lemma MemoryGoesOn(s: Cpu, d: Instr)
    requires s.Valid() && d.Valid() && (d.LoadInt? || d.StoreInt?) && s.status == Running
    ensures GoesOn(Exec(s, d), Wrap(s.pc + 8))
  {
    hide Store, Bytes, Load, EffectiveAddress, Extend;
  }

  lemma OtherGoesOn(s: Cpu, d: Instr)
    requires s.Valid() && d.Valid() && s.status == Running && !s.exc
    requires d.Set? || d.LoadImm? || d.LoadAddr? || d.TrapNil? || d.TrapRange? || d.TrapArray?
    ensures GoesOn(Exec(s, d), Wrap(s.pc + 4 * d.Words()))
  {
    hide Relates, EffectiveAddress;
  }

  lemma BeyondGoesOn(s: Cpu, d: Instr)
    requires s.Valid() && d.Valid() && d.Beyond? && s.status == Running && !s.exc
    ensures GoesOn(Exec(s, d), Wrap(s.pc + 4 * d.Words()))
  {
    hide AccessAt, EffectiveAddress;
    assert HardwareTrap(s, OutOfBoundsRead).exc || HardwareTrap(s, OutOfBoundsRead).status == Fatal;
  }

  // Where an instruction, interpreted in `s`, leaves the pc `next` to go on with.
  predicate Follows(s: Cpu, d: Instr, t: Cpu, next: Word)
    requires s.Valid() && d.Valid() && t.Valid()
  {
    match d
    case Jump(_) => true
    case JumpLink(_, _) => t.r[RETADR] == next
    case JumpRegLink(rd, _, _) => t.r[rd] == next
    case Branch(rel, r0, dest) => t.pc == if Relates(rel, s.r[r0]) then dest else next
    case _ => GoesOn(t, next)
  }

  // Control goes on with the next instruction, by falling through or as a return address: for
  // every encoding that the interpreter accepts.
  lemma FallsThrough(s: Cpu, inst: Word, word: Word)
    requires s.Valid() && s.status == Running && !s.exc && Decode(s.pc, inst, word).Ok?
    ensures var d := Decode(s.pc, inst, word).i; Follows(s, d, Exec(s, d), Wrap(s.pc + 4 * d.Words()))
  {
    var d := Decode(s.pc, inst, word).i;
    Returns(s.pc, inst, word);
    hide Decode, GoesOn, Relates, ExecGen, ExecLoad, ExecStore, ExecPush, ExecPop, ExecEnter, ExecLeave, ExecBeyond, EffectiveAddress;
    if d.Push? || d.Pop? {
      StackGoesOn(s, d);
    } else if d.Enter? || d.Leave? {
      FrameGoesOn(s, d);
    } else if d.Gen? {
      GenGoesOn(s, d);
    } else if d.LoadInt? || d.StoreInt? {
      MemoryGoesOn(s, d);
    } else if d.Beyond? {
      BeyondGoesOn(s, d);
    } else if !d.Jump? && !d.JumpLink? && !d.JumpRegLink? && !d.Branch? {
      OtherGoesOn(s, d);
    }
  }

  lemma Returns(pc: Word, inst: Word, word: Word)
    requires Decode(pc, inst, word).Ok?
    ensures var d := Decode(pc, inst, word).i;
      (d.JumpLink? ==> d.ret == Wrap(pc + 8)) && (d.JumpRegLink? ==> d.ret == Wrap(pc + 4))
  {
  }

  // ---- Straight-line runs -----------------------------------------------------------------

  // The code is in memory, from address `at` on.
  ghost predicate Loaded(s: Cpu, code: seq<Word>, at: int)
    requires s.Valid()
  {
    && s.status == Running && s.beg <= at && at + 4 * |code| < s.beg + |s.mem|
    && forall i :: 0 <= i < |code| ==> Load(s.mem, at + 4 * i - s.beg, 4) == code[i]
  }

  // The plain machine goes on from `s` to `t` without a trap and without a jump: by its own step,
  // by an instruction whose data is beyond the model, or by a call that comes back.
  ghost predicate Onward(s: Cpu, t: Cpu)
    requires s.Valid() && t.Valid()
  {
    var f, u := Fetch(Reset(s)), PlainStep(s);
    && f.0.Some? && !f.0.value.Jump?
    && match f.0.value
       case JumpLink(_, _) => t.pc == u.r[RETADR]
       case JumpRegLink(rd, _, _) => t.pc == u.r[rd]
       case Branch(rel, r0, _) => !Relates(rel, f.1.r[r0]) && t == u
       case Beyond(_, _, _) => !u.exc && u.status == Outside && t.pc == u.pc
       case _ => !u.exc && t == u
  }

  // Whether a word is an instruction, and of how many words, depends on that word alone.
  lemma DecodeShape(pc: Word, pc': Word, inst: Word, word: Word, word': Word)
    ensures Decode(pc, inst, word).Ok? <==> Decode(pc', inst, word').Ok?
  {
    hide Class, Field;
  }

  lemma ReadsCode(s: Cpu, code: seq<Word>, at: int, i: nat)
    requires s.Valid() && Loaded(s, code, at) && i < |code|
    ensures at + 4 * i < TWO32 && Read(s, at + 4 * i, 4) == (code[i], s)
    ensures i + 1 < |code| ==> Probe(s, at + 4 * i) == s
  {
    hide Load, HardwareTrap;
  }

  lemma LoadedReset(s: Cpu, code: seq<Word>, at: int)
    requires s.Valid() && Loaded(s, code, at)
    ensures Loaded(Reset(s).(exc := false), code, at)
  {
    hide Load;
  }

  // Fetching the words of an instruction of the block.
  lemma FetchesWords(s: Cpu, code: seq<Word>, at: int, i: nat) returns (word: Word, r: Cpu)
    requires s.Valid() && Loaded(s, code, at) && s.pc == at + 4 * i && i < |code| && i + 1 + Operands(code[i]) <= |code|
    ensures r.Valid() && r.status == Running && !r.exc && r.pc == s.pc == Reset(s).pc
    ensures s.pc + 4 * (1 + Operands(code[i])) < TWO32
    ensures FetchWords(Reset(s)) == (code[i], word, r)
  {
    hide Read, Probe, Operands, Loaded, Wrap;
    InRange(s, code, at, i);
    LoadedReset(s, code, at);
    r := Reset(s).(exc := false);
    ReadsCode(r, code, at, i);
    if Operands(code[i]) != 0 {
      ReadsCode(r, code, at, i + 1);
    }
    word := FetchWords(Reset(s)).1;
  }

  lemma InRange(s: Cpu, code: seq<Word>, at: int, i: nat)
    requires s.Valid() && Loaded(s, code, at) && s.pc == at + 4 * i && i < |code| && i + 1 + Operands(code[i]) <= |code|
    ensures s.status == Running && s.pc + 4 * (1 + Operands(code[i])) < TWO32 && Wrap(s.pc + 4) == at + 4 * (i + 1)
  {
  }

  // Fetching an instruction of the block.
  lemma FetchesCode(s: Cpu, code: seq<Word>, at: int, i: nat) returns (d: Instr, word: Word, r: Cpu)
    requires s.Valid() && Loaded(s, code, at) && s.pc == at + 4 * i && i < |code| && 4 * i < TWO32 && Whole(code, 4 * i)
    ensures r.Valid() && r.status == Running && !r.exc && r.pc == s.pc && s.pc + 4 * InstrAt(code, 4 * i).i.Words() < TWO32
    ensures Decode(r.pc, code[i], word) == Ok(d) && Fetch(Reset(s)) == (Some(d), r)
    ensures d.Valid() && d.Words() == InstrAt(code, 4 * i).i.Words() && d.Words() in {1, 2, 3}
  {
    word, r := FetchesWords(s, code, at, i);
    hide Decode, Loaded, FetchWords, Reset, Operands;
    DecodeShape(4 * i, s.pc, code[i], if i + 1 < |code| then code[i + 1] else 0, word);
    d := Decode(s.pc, code[i], word).i;
  }

  lemma OnwardFollows(s: Cpu, t: Cpu, d: Instr, r: Cpu, next: Word)
    requires s.Valid() && t.Valid() && r.Valid() && d.Valid() && t.status == Running && Onward(s, t)
    requires Fetch(Reset(s)) == (Some(d), r) && Follows(r, d, Exec(r, d), next)
    ensures t.pc == next
  {
    hide Fetch, Exec, Relates;
  }

  lemma NextPlace(s: Cpu, t: Cpu, code: seq<Word>, at: int, i: nat)
    requires s.Valid() && t.Valid() && Loaded(s, code, at) && t.status == Running && Onward(s, t)
    requires s.pc == at + 4 * i && i < |code| && 4 * i < TWO32 && Whole(code, 4 * i)
    ensures t.pc == at + 4 * i + 4 * InstrAt(code, 4 * i).i.Words()
  {
    hide *;
    var d, word, r := FetchesCode(s, code, at, i);
    FallsThrough(r, code[i], word);
    OnwardFollows(s, t, d, r, Wrap(s.pc + 4 * d.Words()));
    Settled(s.pc + 4 * d.Words());
  }

  lemma Settled(next: int)
    requires 0 <= next < TWO32
    ensures Wrap(next) == next
  {
  }

  function Offsets(trace: seq<Cpu>, at: int): seq<int> {
    seq(|trace|, i requires 0 <= i < |trace| => trace[i].pc - at)
  }

  ghost predicate There(s: Cpu, code: seq<Word>, at: int) {
    s.Valid() && Loaded(s, code, at)
  }

  ghost predicate Goes(s: Cpu, t: Cpu, limit: int) {
    s.Valid() && t.Valid() && s.pc < limit && Onward(s, t)
  }

  // Straight on through the code at `at`, up to the last state within the block.
  ghost predicate Passes(trace: seq<Cpu>, code: seq<Word>, at: int, end: int) {
    && trace != []
    && (forall i :: 0 <= i < |trace| ==> There(trace[i], code, at))
    && forall i, j :: 0 <= i && j == i + 1 < |trace| ==> Goes(trace[i], trace[j], at + end)
  }

  lemma PassesRest(trace: seq<Cpu>, code: seq<Word>, at: int, end: int)
    requires Passes(trace, code, at, end) && |trace| > 1
    ensures Passes(trace[1..], code, at, end) && Goes(trace[0], trace[1], at + end) && trace[0].pc < at + end
  {
    hide There, Onward;
    var rest := trace[1..];
    forall i, j | 0 <= i && j == i + 1 < |rest| ensures Goes(rest[i], rest[j], at + end) {
      assert rest[i] == trace[i + 1] && rest[j] == trace[j + 1];
    }
  }

  lemma OffsetsRest(trace: seq<Cpu>, at: int)
    requires |trace| > 1
    ensures var n := |trace| - 1; Offsets(trace[..n], at) == [trace[0].pc - at] + Offsets(trace[1..][..n - 1], at)
  {
  }

  lemma FirstPlace(trace: seq<Cpu>, code: seq<Word>, at: int, end: int, i: nat)
    requires Passes(trace, code, at, end) && |trace| > 1 && trace[0].pc == at + 4 * i
    requires i < |code| && 4 * i < TWO32 && Whole(code, 4 * i)
    ensures trace[1].pc == at + 4 * i + 4 * InstrAt(code, 4 * i).i.Words()
  {
    assert trace[1].Valid() && trace[1].status == Running;
    hide InstrAt, Onward, Loaded;
    NextPlace(trace[0], trace[1], code, at, i);
  }

  // Runs of the plain machine through the block go from place to place, and a run that has left
  // the block has been to every one.
  lemma {:induction false} RunsVisitPlaces(trace: seq<Cpu>, code: seq<Word>, at: int, p: int, end: int)
    requires 0 <= p && p % 4 == 0 && end <= 4 * |code| && end < TWO32 && Sound(code, p, end)
    requires trace != [] && Passes(trace, code, at, end) && trace[0].pc == at + p
    ensures var n := |trace| - 1;
      && Offsets(trace[..n], at) <= Places(code, p, end)
      && (trace[n].pc >= at + end ==> Offsets(trace[..n], at) == Places(code, p, end))
    decreases |trace|
  {
    hide Passes, InstrAt, Goes;
    if |trace| > 1 {
      PassesRest(trace, code, at, end);
      OffsetsRest(trace, at);
      FirstPlace(trace, code, at, end, p / 4);
      hide Offsets;
      RunsVisitPlaces(trace[1..], code, at, p + 4 * InstrAt(code, p).i.Words(), end);
    }
  }

  lemma PlacesStep(code: seq<Word>, at: int, end: int)
    requires 0 <= at < end <= 4 * |code| && end < TWO32
    ensures Sound(code, at, end) ==>
      var next := at + 4 * InstrAt(code, at).i.Words();
      Whole(code, at) && Sound(code, next, end) && Places(code, at, end) == [at] + Places(code, next, end)
  {
  }

  lemma PlacesEnd(code: seq<Word>, at: int, end: int)
    requires 0 <= at && end <= at && end <= 4 * |code| && end < TWO32
    ensures Sound(code, at, end) ==> Places(code, at, end) == []
  {
  }

  class Disassembler {
    const code: seq<Word>
    var pc: int

    constructor (code: seq<Word>)
      ensures this.code == code
    {
      this.code, pc := code, 0;
    }

    method GetNextWord() returns (result: Word)
      requires pc % 4 == 0 && 0 <= pc < 4 * |code|
      modifies this
      ensures result == WordAt(code, old(pc)) && pc == old(pc) + 4
    {
      result := code[pc / 4];
      pc := pc + 4;
    }

    // The address that a line is headed with, one word back.
    function Header(pc: int): int {
      pc - 4
    }

    // Loads and stores: the operand words follow the instruction.
    method DecodeRegMem(inst: Word) returns (printed: int)
      requires pc % 4 == 0 && 0 <= pc && pc + (if inst % 32 == 3 then 8 else if inst % 32 < 16 then 4 else 0) <= 4 * |code|
      modifies this
      ensures pc == old(pc) + (if inst % 32 == 3 then 8 else if inst % 32 < 16 then 4 else 0)
      ensures printed == old(pc) - 4
    {
      var opc := inst % 32;
      if opc in {0, 1, 2, 4, 6, 7, 8, 15, 5, 9, 10, 11, 12, 13, 14} {
        var offset := GetNextWord();
        printed := Header(pc - 4);
      } else if opc == 3 {
        var lo := GetNextWord();
        var hi := GetNextWord();
        printed := Header(pc - 8);
      } else {
        printed := Header(pc);
      }
    }

    // Jumps. An invalid one is listed at its operand word.
    method DecodeBranch(inst: Word) returns (printed: int)
      requires pc % 4 == 0 && 0 <= pc < 4 * |code|
      modifies this
      ensures pc == old(pc) + 4 && printed == if inst % 32 < 12 then old(pc) - 4 else old(pc)
    {
      var dest := GetNextWord();
      printed := if inst % 32 < 12 then Header(pc - 4) else Header(pc);
    }

    // The decoder for the instruction's class; but for those two, they print one line and
    // fetch nothing.
    method DecodeOne() returns (printed: int)
      requires pc % 4 == 0 && 0 <= pc < 4 * |code| && pc < TWO32 && (pc + 12 <= 4 * |code| || Whole(code, pc))
      modifies this
      ensures pc > old(pc) && pc % 4 == 0
      ensures InstrAt(code, old(pc)).Ok? ==> printed == old(pc) && pc == old(pc) + 4 * InstrAt(code, old(pc)).i.Words()
    {
      var inst := GetNextWord();
      var cls := Class(inst);
      if cls == 7 {
        printed := DecodeBranch(inst);
      } else if cls == 8 {
        printed := DecodeRegMem(inst);
      } else {
        printed := Header(pc);
      }
    }

    // The addresses that the listing shows are the places where the interpreter finds the
    // block's instructions. Only a block with an instruction that the interpreter does not accept
    // may lead beyond the block, so the code must go on then.
    method Disassemble(offs: int, len: int) returns (listing: seq<int>)
      requires 0 <= offs && offs % 4 == 0 && 4 <= len && offs + len <= 4 * |code| && offs + len < TWO32
      requires Sound(code, offs, offs + len) || offs + len + 8 <= 4 * |code|
      modifies this
      ensures Sound(code, offs, offs + len) ==> listing == Places(code, offs, offs + len)
    {
      hide Sound, Places, InstrAt;
      ghost var end := offs + len;
      pc := offs;
      listing := [];
      while pc < offs + len
        invariant 0 <= pc && pc % 4 == 0
        invariant Sound(code, offs, end) ==> Sound(code, pc, end) && listing + Places(code, pc, end) == Places(code, offs, end)
        decreases offs + len - pc
      {
        PlacesStep(code, pc, end);
        ghost var before := listing;
        var printed := DecodeOne();
        listing := listing + [printed];
        Regroup(before, [printed], Places(code, pc, end));
      }
      PlacesEnd(code, pc, end);
    }
  }
}
