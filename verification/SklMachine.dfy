// The emulator: registers and memory updated in place, and a cache of decoded
// instructions threaded by guessed `next` links.
module SklMachine {
  import opened Words
  import opened SklFlags
  import O3
  import opened SklCpu
  import opened SklRun

  class Instruction {
    const pc: Word
    const op: Instr
    var next: Instruction?

    constructor (pc: Word, op: Instr)
      ensures this.pc == pc && this.op == op && next == null
    {
      this.pc, this.op, next := pc, op, null;
    }
  }

  class Machine {
    const beg: Word
    const R: array<Word>
    const CR: array<Word>
    const mem: array<Byte>
    const cache: array<Instruction?>    // one entry a word of memory, indexed by byte offset
    ghost var made: set<Instruction>    // every instruction ever cached
    var pc: Word
    var exc: bool
    var status: Status

    ghost predicate Valid()
      reads this, R, CR, mem
    {
      && R != CR && mem as object != R && mem as object != CR
      && cache as object != R && cache as object != CR && cache as object != mem
      && State().Valid()
    }

    ghost function State(): Cpu
      reads this, R, CR, mem
    {
      Cpu(beg, pc, R[..], CR[..], mem[..], exc, status)
    }

    constructor (beg: Word, bytes: seq<Byte>)
      requires 4096 <= beg && beg + |bytes| < 0x4000_0000 && beg % 4096 == 12 && |bytes| % 16 == 0
      ensures Valid() && Linked() && Matches({}) && Holds(State(), {}) && fresh(R) && fresh(CR) && fresh(mem) && fresh(cache)
      ensures State() == Cpu(beg, beg, seq(32, i => 0), seq(6, i => 0), bytes, false, Running)
    {
      this.beg := beg;
      R, CR := new Word[32](i => 0), new Word[6](i => 0);
      mem := new Byte[|bytes|](i requires 0 <= i < |bytes| => bytes[i]);
      cache := new Instruction?[|bytes| / 4](i => null);
      pc, exc, status, made := beg, false, Running, {};
    }

    method WriteReg(i: nat, v: Word)
      requires Valid() && i < 32
      modifies R
      ensures Valid() && State() == SetReg(old(State()), i, v)
    {
      R[i] := v;
    }

    method IncrementPc(words: nat)
      requires Valid()
      modifies this`pc
      ensures Valid() && State() == Bump(old(State()), words)
    {
      pc := Wrap(pc + 4 * words);
    }

    method Trap(c: Cause)
      requires Valid()
      modifies this`pc, this`exc, this`status, CR
      ensures Valid() && State() == HardwareTrap(old(State()), c)
    {
      if CR[2] / 32 % 4 != 0 {
        status := Fatal;
      } else {
        CR[0] := pc;
        CR[2] := 32 + CauseBits(c) + 1;
        pc := CR[1];
        exc := true;
      }
    }

    method RaiseSoftware(code: Word)
      requires Valid()
      modifies this`pc, this`exc, R
      ensures Valid() && State() == SoftwareTrap(old(State()), code)
    {
      R[1] := code;
      R[31] := pc;
      pc := CR[5];
      exc := true;
    }

    method ReadMem(ea: Word, size: nat) returns (v: Word)
      requires Valid() && size in {1, 2, 4}
      modifies this`pc, this`exc, this`status, CR
      ensures Valid() && (v, State()) == Read(old(State()), ea, size)
    {
      if beg <= ea && Wrap(ea + size) < beg + mem.Length {
        if ea + size >= TWO32 {
          v, status := 0, Wild;
        } else {
          v := Load(mem[..], ea - beg, size);
        }
      } else {
        Trap(OutOfBoundsRead);
        v := 0xFFFF_FFFF;
      }
    }

    method Poke(at: nat, b: seq<Byte>)
      requires Valid() && at + |b| <= mem.Length
      modifies mem
      ensures Valid() && State() == old(State()).(mem := Store(old(mem[..]), at, b))
    {
      ghost var was := mem[..];
      for i := 0 to |b|
        invariant forall j :: at <= j < at + i ==> mem[j] == b[j - at]
        invariant forall j :: 0 <= j < mem.Length && !(at <= j < at + i) ==> mem[j] == was[j]
      {
        mem[at + i] := b[i];
      }
      assert mem[..] == Store(was, at, b);
    }

    method WriteMem(ea: Word, v: Word, size: nat)
      requires Valid() && size in {1, 2, 4}
      modifies this`pc, this`exc, this`status, CR, mem
      ensures Valid() && State() == Write(old(State()), ea, v, size)
    {
      hide Bytes, HardwareTrap, Store;
      if beg <= ea && Wrap(ea + size) < beg + mem.Length {
        if ea + size >= TWO32 {
          status := Wild;
        } else {
          Poke(ea - beg, Bytes(v, size));
        }
      } else {
        Trap(OutOfBoundsWrite);
      }
    }

    // ---- Interpreting an instruction ---------------------------------------------

    method InterpretGen(d: Instr)
      requires Valid() && d.Valid() && d.Gen?
      modifies this`pc, this`exc, this`status, R, CR
      ensures Valid() && State() == Exec(old(State()), d)
    {
      hide HardwareTrap, Flags;
      var l: int, r: int := R[d.r0], R[d.r1];
      match d.op {
        case ADD => WriteReg(d.rd, Wrap(l + r));
        case SUB => WriteReg(d.rd, Wrap(l - r));
        case MUL => WriteReg(d.rd, Wrap(l * r));
        case CMP => WriteReg(d.rd, Flags(l, r));
        case ABS => WriteReg(d.rd, if Signed(r) < 0 then Wrap(-r) else r);
        case DIV =>
          if r != 0 {
            WriteReg(d.rd, Wrap(O3.Div(Signed(l), Signed(r))));
          } else {
            Trap(DivideByZero);
          }
        case MOD =>
          if r != 0 {
            WriteReg(d.rd, Wrap(O3.Mod(Signed(l), Signed(r))));
          } else {
            Trap(DivideByZero);
          }
      }
      IncrementPc(1);
    }

    method InterpretJump(d: Instr)
      requires Valid() && d.Valid() && (d.Branch? || d.Jump? || d.JumpLink? || d.JumpRegLink?)
      modifies this`pc, R
      ensures Valid() && State() == Exec(old(State()), d)
    {
      hide Relates;
      match d {
        case Branch(rel, r0, dest) =>
          if Relates(rel, R[r0]) {
            pc := dest;
          } else {
            IncrementPc(2);
          }
        case Jump(dest) =>
          pc := dest;
        case JumpLink(dest, ret) =>
          WriteReg(RETADR, ret);
          pc := dest;
        case JumpRegLink(rd, r0, ret) =>
          var newPc := R[r0];
          WriteReg(rd, ret);
          pc := newPc;
      }
    }

    method InterpretLoad(d: Instr)
      requires Valid() && d.Valid() && d.LoadInt?
      modifies this`pc, this`exc, this`status, R, CR
      ensures Valid() && State() == Exec(old(State()), d)
    {
      hide HardwareTrap, Load, EffectiveAddress, Extend;
      var ea := EffectiveAddress(R[d.base], R[d.index], d.scale, d.offset);
      if beg <= ea && Wrap(ea + d.size) < beg + mem.Length {
        if ea + d.size >= TWO32 {
          status := Wild;
        } else {
          WriteReg(d.rd, Extend(Load(mem[..], ea - beg, d.size), d.size, d.signed));
          IncrementPc(2);
        }
      } else {
        Trap(OutOfBoundsRead);
      }
    }

    method InterpretStore(d: Instr)
      requires Valid() && d.Valid() && d.StoreInt?
      modifies this`pc, this`exc, this`status, CR, mem
      ensures Valid() && State() == Exec(old(State()), d)
    {
      hide HardwareTrap, Bytes, Store, EffectiveAddress;
      var value := R[d.rd];
      var ea := EffectiveAddress(R[d.base], R[d.index], d.scale, d.offset);
      if beg <= ea && Wrap(ea + d.size) < beg + mem.Length {
        if ea + d.size >= TWO32 {
          status := Wild;
        } else {
          Poke(ea - beg, Bytes(value, d.size));
          IncrementPc(2);
        }
      } else {
        Trap(OutOfBoundsWrite);
      }
    }

    method InterpretStack(d: Instr)
      requires Valid() && d.Valid() && (d.Push? || d.Pop?)
      modifies this`pc, this`exc, this`status, R, CR, mem
      ensures Valid() && State() == Exec(old(State()), d)
    {
      hide Read, Write;
      var sp: int := R[SP];
      if d.Push? {
        WriteMem(Wrap(sp - 4), R[d.rd], 4);
        if !exc && status == Running {
          WriteReg(SP, Wrap(sp - 4));
          IncrementPc(1);
        }
      } else {
        var value := ReadMem(sp, 4);
        if !exc && status == Running {
          WriteReg(SP, Wrap(sp + 4));
          WriteReg(d.rd, value);
          IncrementPc(1);
        }
      }
    }

    method InterpretEnter(d: Instr)
      requires Valid() && d.Valid() && d.Enter?
      modifies this`pc, this`exc, this`status, R, CR, mem
      ensures Valid() && State() == Exec(old(State()), d)
    {
      hide Read, Write;
      var sp: int, saved := R[SP], R[d.rd];
      WriteMem(Wrap(sp - 4), R[RETADR], 4);
      if !exc && status == Running {
        WriteMem(Wrap(sp - 8), saved, 4);
        if !exc && status == Running {
          WriteReg(SP, Wrap(sp - 8 - 4 * d.words));
          WriteReg(d.rd, Wrap(sp - 8));
          IncrementPc(1);
        }
      }
    }

    method InterpretLeave(d: Instr)
      requires Valid() && d.Valid() && d.Leave?
      modifies this`pc, this`exc, this`status, R, CR
      ensures Valid() && State() == Exec(old(State()), d)
    {
      hide Read, Write;
      var sfp: int := R[d.rd];
      var saved := ReadMem(sfp, 4);
      if !exc && status == Running {
        var ret := ReadMem(Wrap(sfp + 4), 4);
        if !exc && status == Running {
          WriteReg(RETADR, ret);
          WriteReg(d.rd, saved);
          WriteReg(SP, Wrap(sfp + 8 + 4 * d.words));
          IncrementPc(1);
        }
      }
    }

    // Data that is not modelled has been read or written.
    method LoseTrack()
      requires Valid()
      modifies this`status
      ensures Valid() && State() == Unknown(old(State()))
    {
      if status == Running {
        status := Outside;
      }
    }

    method Address(a: Access) returns (ea: Word)
      requires Valid() && a.Valid() && !a.Nowhere?
      ensures ea == AccessAt(State(), a)
    {
      hide EffectiveAddress;
      var sp: int := R[SP];
      match a {
        case PointedAt(reg) => ea := R[reg];
        case Indexed(base, index, scale, offset, _, _) => ea := EffectiveAddress(R[base], R[index], scale, offset);
        case Pushed(_) => ea := Wrap(sp - 4);
        case Popped(_) => ea := sp;
      }
    }

    method PushAgain()
      requires Valid()
      modifies this`pc, this`exc, this`status, R, CR
      ensures Valid() && State() == SecondPush(old(State()))
    {
      hide HardwareTrap;
      var sp: int := R[SP];
      var ea := Wrap(sp - 4);
      if beg <= ea && Wrap(ea + 4) < beg + mem.Length {
        if ea + 4 >= TWO32 {
          status := Wild;
        } else {
          WriteReg(SP, ea);
          IncrementPc(1);
          LoseTrack();
        }
      } else {
        Trap(OutOfBoundsWrite);
        LoseTrack();
      }
    }

    method PopAgain()
      requires Valid()
      modifies this`pc, this`exc, this`status, R, CR
      ensures Valid() && State() == SecondPop(old(State()))
    {
      hide HardwareTrap;
      var sp: int := R[SP];
      if beg <= sp && Wrap(sp + 4) < beg + mem.Length {
        if sp + 4 >= TWO32 {
          status := Wild;
        } else {
          WriteReg(SP, Wrap(sp + 4));
          IncrementPc(1);
          LoseTrack();
        }
      } else {
        Trap(OutOfBoundsRead);
      }
    }

    // The stack words of a push or pop of an F register, the first being within memory.
    method InterpretWords(a: Access)
      requires Valid() && a.Valid() && (a.Pushed? || a.Popped?)
      modifies this`pc, this`exc, this`status, R, CR
      ensures Valid() && State() == ExecWords(old(State()), a)
    {
      hide SecondPush, SecondPop, Bump, Unknown;
      var sp: int := R[SP];
      WriteReg(SP, if a.Pushed? then Wrap(sp - 4) else Wrap(sp + 4));
      if a.count == 1 {
        IncrementPc(1);
        LoseTrack();
      } else if a.Pushed? {
        PushAgain();
      } else {
        PopAgain();
      }
    }

    method InterpretBeyond(words: nat, a: Access)
      requires Valid() && a.Valid()
      modifies this`pc, this`exc, this`status, R, CR
      ensures Valid() && State() == ExecBeyond(old(State()), words, a)
    {
      hide HardwareTrap, AccessAt, ExecWords;
      if !a.Nowhere? {
        var ea := Address(a);
        if !(beg <= ea && Wrap(ea + a.Size()) < beg + mem.Length) {
          Trap(if a.Writes() then OutOfBoundsWrite else OutOfBoundsRead);
          return;
        }
        if ea + a.Size() >= TWO32 {
          status := Wild;
          return;
        }
        if exc {
          if a.Writes() {
            LoseTrack();
          }
          return;
        }
        if a.Pushed? || a.Popped? {
          InterpretWords(a);
          return;
        }
      }
      IncrementPc(words);
      LoseTrack();
    }

    method Interpret(d: Instr)
      requires Valid() && d.Valid()
      modifies this`pc, this`exc, this`status, R, CR, mem
      ensures Valid() && State() == Exec(old(State()), d)
    {
      hide ExecGen, ExecLoad, ExecStore, ExecPush, ExecPop, ExecEnter, ExecLeave, ExecBeyond, Relates, EffectiveAddress;
      match d {
        case Gen(_, _, _, _) => InterpretGen(d);
        case Branch(_, _, _) => InterpretJump(d);
        case Jump(_) => InterpretJump(d);
        case JumpLink(_, _) => InterpretJump(d);
        case JumpRegLink(_, _, _) => InterpretJump(d);
        case LoadImm(rd, base, cdata) =>
          WriteReg(rd, Wrap(R[base] as int + cdata));
          IncrementPc(2);
        case LoadAddr(rd, base, index, scale, offset) =>
          WriteReg(rd, EffectiveAddress(R[base], R[index], scale, offset));
          IncrementPc(2);
        case LoadInt(_, _, _, _, _, _, _) => InterpretLoad(d);
        case StoreInt(_, _, _, _, _, _) => InterpretStore(d);
        case Push(_) => InterpretStack(d);
        case Pop(_) => InterpretStack(d);
        case Enter(_, _) => InterpretEnter(d);
        case Leave(_, _) => InterpretLeave(d);
        case Set(rel, rd, r0) =>
          WriteReg(rd, if Relates(rel, R[r0]) then 1 else 0);
          IncrementPc(1);
        case TrapNil(code, r0) =>
          if R[r0] == 0 { RaiseSoftware(code); } else { IncrementPc(1); }
        case TrapRange(lo, hi, r0) =>
          if lo <= Signed(R[r0]) <= hi { IncrementPc(1); } else { RaiseSoftware(12); }
        case TrapArray(rd, r0) =>
          if Signed(R[r0]) >= 0 && R[r0] < R[rd] { IncrementPc(1); } else { RaiseSoftware(13); }
        case Beyond(_, words, access) => InterpretBeyond(words, access);
      }
    }

    // ---- The instruction cache -----------------------------------------------------

    // Where the cache keeps the instruction at `pc`: the heap begins 12 bytes before memory.
    function Index(pc: int): int {
      if pc == 0 then 0 else pc - (beg - 12)
    }

    predicate InCache(e: Instruction)
      reads cache
    {
      0 <= Index(e.pc) < cache.Length && cache[Index(e.pc)] == e
    }

    // Every entry sits at the offset of its pc, and every link leads to an entry.
    ghost predicate Linked()
      reads `made, cache, made
    {
      && cache.Length == mem.Length / 4
      && forall i :: 0 <= i < cache.Length && cache[i] != null ==>
           && cache[i] in made && Index(cache[i].pc) == i
           && (cache[i].next != null ==> InCache(cache[i].next))
    }

    // There are entries for just the instructions at `seen`.
    ghost predicate Matches(seen: set<int>)
      reads cache
    {
      forall i :: 0 <= i < cache.Length ==> (cache[i] != null <==> beg - 12 + i in seen)
    }

    // Every entry, operand words included, is what decoding its words in the state `s`
    // would give; their bytes are among `code`.
    ghost predicate Holds(s: Cpu, code: set<int>)
      requires s.Valid()
      reads cache
    {
      forall i :: 0 <= i < cache.Length && cache[i] != null ==> Current(s, cache[i], code)
    }

    ghost predicate Current(s: Cpu, e: Instruction, code: set<int>)
      requires s.Valid()
    {
      e.op.Valid() && Fits(s, e.pc, e.op) && CodeOf(e.pc, Some(e.op)) <= code
    }

    lemma StillHolds(s: Cpu, t: Cpu, code: set<int>, code': set<int>)
      requires s.Valid() && t.Valid() && s.status == t.status == Running
      requires Holds(s, code) && Unchanged(s, t, code) && code <= code'
      ensures Holds(t, code')
    {
      hide Fits;
      forall i | 0 <= i < cache.Length && cache[i] != null
        ensures Current(t, cache[i], code')
      {
        var e := cache[i];
        assert Current(s, e, code);
        FitsSame(s, t, e.pc, e.op);
      }
    }

    // No instruction is cached for address 0, nor for the bytes before memory.
    lemma NothingBelow(s: Cpu, code: set<int>)
      requires s.Valid() && s.status == Running && s.beg == beg && Linked() && Holds(s, code)
      ensures forall i :: 0 <= i < cache.Length && cache[i] != null ==> cache[i].pc >= beg && i >= 12
    {
      hide Fits;
      forall i | 0 <= i < cache.Length && cache[i] != null ensures cache[i].pc >= beg && i >= 12 {
        assert Current(s, cache[i], code);
        FitsInside(s, cache[i].pc, cache[i].op);
      }
    }

    // What the cache holds does not depend on the pc.
    lemma HoldsHere(s: Cpu, t: Cpu, code: set<int>)
      requires s.Valid() && t == s.(pc := t.pc) && t.Valid() && s.status == Running && Holds(s, code)
      ensures Holds(t, code)
    {
      StillHolds(s, t, code, code);
    }

    method Lookup(addr: Word) returns (e: Instruction?)
      requires Valid() && Linked() && Cacheable(State(), addr)
      ensures e == cache[Index(addr)]
    {
      e := cache[Index(addr)];
    }

    method CacheInstruction(at: Word, d: Instr) returns (e: Instruction)
      requires Valid() && Linked() && 0 <= Index(at) < cache.Length && cache[Index(at)] == null
      modifies this`made, cache
      ensures Valid() && Linked() && State() == old(State())
      ensures fresh(e) && e.next == null && e.pc == at && e.op == d && made == old(made) + {e}
      ensures cache[..] == old(cache[..])[Index(at) := e]
    {
      e := new Instruction(at, d);
      cache[Index(at)] := e;
      made := made + {e};
    }

    method CheckOperands(ea: Word)
      requires Valid()
      modifies this`pc, this`exc, this`status, CR
      ensures Valid() && State() == Probe(old(State()), ea)
    {
      if beg <= ea && Wrap(ea + 8) < beg + mem.Length {
        if ea + 8 >= TWO32 {
          status := Wild;
        }
      } else {
        Trap(OutOfBoundsRead);
      }
    }

    method FetchCode() returns (inst: Word, word: Word)
      requires Valid() && status == Running
      modifies this`pc, this`exc, this`status, CR
      ensures Valid() && (inst, word, State()) == FetchWords(old(State()))
    {
      hide Read, Operands, Probe;
      var at: int := pc;
      exc := false;
      inst := ReadMem(at, 4);
      word := 0;
      if status == Running && Operands(inst) != 0 {
        if Operands(inst) == 2 {
          CheckOperands(Wrap(at + 4));
        } else {
          word := ReadMem(Wrap(at + 4), 4);
        }
      }
    }

    // Fetch, decode and cache the instruction at the pc.
    method FetchAndCache() returns (e: Instruction?)
      requires Valid() && Linked() && status == Running
      requires Cacheable(State(), pc) && cache[Index(pc)] == null
      modifies this`pc, this`exc, this`status, this`made, CR, cache
      ensures Valid() && Linked() && State() == Fetch(old(State())).1
      ensures e == null <==> Fetch(old(State())).0.None?
      ensures e == null ==> made == old(made) && cache[..] == old(cache[..])
      ensures e != null ==> fresh(e) && e.next == null && made == old(made) + {e} && e.pc == old(pc) && e.op.Valid()
      ensures e != null ==> Some(e.op) == Fetch(old(State())).0 && cache[..] == old(cache[..])[Index(e.pc) := e]
    {
      assert 0 <= Index(pc) < cache.Length;
      hide FetchWords, Decode, HardwareTrap, Linked;
      var at := pc;
      e := null;
      var inst, word := FetchCode();
      if status != Running {
        return;
      }
      match Decode(at, inst, word) {
        case Ok(d) =>
          e := CacheInstruction(at, d);
        case Unsupported =>
          status := Fatal;
        case Invalid =>
          Trap(InvalidOpcode);
      }
    }

    method ResetR0()
      requires Valid()
      modifies R
      ensures Valid() && State() == Reset(old(State()))
    {
      if R[0] != 0 {
        R[0] := 0;
      }
      assert R[..] == old(R[..])[0 := 0];
    }

    // An entry found is the emulator's decoding of the instruction at the pc.
    lemma Reused(e: Instruction, s: Cpu, code: set<int>, seen: set<int>)
      requires s.Valid() && s.status == Running && s.beg == beg && Linked() && Matches(seen) && Holds(s, code)
      requires 0 <= Index(s.pc) < cache.Length && e == cache[Index(s.pc)]
      ensures e.pc == s.pc && e.op.Valid() && KeptStep(s, seen) == Exec(Reset(s), e.op) && SeenAfter(s, seen) == seen
      ensures Holds(s, code + CodeOf(s.pc, Fetch(Reset(s)).0))
    {
      hide Exec, Fits, Fetch;
      NothingBelow(s, code);
      assert beg - 12 + Index(s.pc) == s.pc;
      assert Current(s, e, code);
      CachedStep(s, e.op, seen);
      assert forall i :: 0 <= i < cache.Length && cache[i] != null ==> Current(s, cache[i], code);
    }

    // With no entry for the pc, the instruction there has not been seen.
    lemma Unseen(s: Cpu, seen: set<int>)
      requires Matches(seen) && s.beg == beg && 0 <= Index(s.pc) < cache.Length && cache[Index(s.pc)] == null
      ensures s.pc != 0 ==> s.pc !in seen
    {
      assert s.pc != 0 ==> beg - 12 + Index(s.pc) == s.pc;
    }

    lemma NothingAtNil(s: Cpu)
      requires s.Valid() && s.status == Running && Cacheable(s, s.pc) && Fetch(s).0.Some?
      ensures s.pc >= s.beg
    {
      FetchClean(s);
      FitsInside(s, s.pc, Fetch(s).0.value);
    }

    // The instruction at the pc, decoded now.
    method Decoded(ghost s: Cpu, ghost code: set<int>, ghost seen: set<int>)
      returns (e: Instruction?, ghost code': set<int>, ghost seen': set<int>)
      requires Valid() && Linked() && Matches(seen) && s.Valid() && State() == Reset(s) && Holds(s, code) && status == Running
      requires Cacheable(State(), pc) && cache[Index(pc)] == null
      modifies this`pc, this`exc, this`status, this`made, CR, cache
      ensures Valid() && Linked() && Matches(seen') && seen' == SeenAfter(s, seen)
      ensures code' == code + CodeOf(s.pc, Fetch(Reset(s)).0)
      ensures if e == null then State() == KeptStep(s, seen) && Fetch(Reset(s)).0.None?
              else e in made && e.op.Valid() && KeptStep(s, seen) == Exec(State(), e.op)
      ensures Holds(s, code')
      ensures fresh(made - old(made)) && old(made) <= made
      ensures e != null ==> status == Running && e.next == null && InCache(e) && e.pc == s.pc
    {
      hide Exec, Fits, Fetch;
      code', seen' := code + CodeOf(s.pc, Fetch(Reset(s)).0), SeenAfter(s, seen);
      Unseen(s, seen);
      label before:
      e := FetchAndCache();
      if e != null {
        NothingAtNil(Reset(s));
        FetchClean(Reset(s));
        FitsSame(Reset(s), s, s.pc, e.op);
        assert forall i :: 0 <= i < cache.Length && cache[i] != null && i != Index(s.pc) ==>
            cache[i] == old@before(cache[i]) && Current(s, cache[i], code);
        assert Current(s, e, code');
      }
    }

    // The entry for the pc, decoded now if the cache had none.
    method Obtain(next: Instruction?, ghost s: Cpu, ghost code: set<int>, ghost seen: set<int>)
      returns (e: Instruction?, ghost code': set<int>, ghost seen': set<int>)
      requires Valid() && Linked() && Matches(seen) && s.Valid() && State() == Reset(s) && Holds(s, code) && status == Running
      requires Cacheable(State(), pc) && next == cache[Index(pc)]
      modifies this`pc, this`exc, this`status, this`made, CR, cache
      ensures Valid() && Linked() && Matches(seen') && seen' == SeenAfter(s, seen)
      ensures code' == code + CodeOf(s.pc, Fetch(Reset(s)).0)
      ensures if e == null then State() == KeptStep(s, seen) && Fetch(Reset(s)).0.None? && next == null
              else e in made && e.op.Valid() && KeptStep(s, seen) == Exec(State(), e.op)
      ensures Holds(s, code')
      ensures fresh(made - old(made)) && old(made) <= made
      ensures e != null ==> status == Running && (e.next != null ==> InCache(e.next)) && InCache(e) && e.pc == s.pc
    {
      hide Exec, Fits, Fetch, KeptStep, Current, SeenAfter, CodeOf;
      e := next;
      if e != null {
        code', seen' := code + CodeOf(s.pc, Fetch(Reset(s)).0), seen;
        Reused(e, s, code, seen);
      } else {
        e, code', seen' := Decoded(s, code, seen);
      }
    }

    // The entry to go on with: the guessed link if its pc is right, else what the cache holds.
    method Follow(cinst: Instruction) returns (follow: Instruction?)
      requires Valid() && Linked() && InCache(cinst) && Cacheable(State(), pc)
      modifies cinst`next
      ensures Linked() && follow == cache[Index(pc)]
    {
      follow := cinst.next;
      if follow == null || follow.pc != pc {
        follow := Lookup(pc);
        cinst.next := follow;
      }
    }

    // One turn of the execute loop.  `next` is what the cache holds for the pc.
    method Turn(next: Instruction?, ghost code: set<int>, ghost seen: set<int>)
      returns (follow: Instruction?, ghost code': set<int>, ghost seen': set<int>)
      requires Valid() && Linked() && Matches(seen) && Holds(State(), code) && status == Running
      requires Cacheable(State(), pc) && next == cache[Index(pc)]
      requires var t := KeptStep(State(), seen);
        t.status == Running ==> Cacheable(t, t.pc) && (Fetch(Reset(State())).0.None? ==> t.pc !in seen)
      modifies this`pc, this`exc, this`status, this`made, R, CR, mem, cache, made
      ensures Valid() && State() == KeptStep(old(State()), seen) && fresh(made - old(made)) && old(made) <= made
      ensures code' == code + CodeOf(old(pc), Fetch(Reset(old(State()))).0) && seen' == SeenAfter(old(State()), seen)
      ensures status == Running ==> Linked() && Matches(seen') && follow == cache[Index(pc)]
      ensures status == Running && Unchanged(old(State()), State(), code') ==> Holds(State(), code')
    {
      hide Fetch, Exec, KeptStep, Fits, Unchanged, Current;
      ghost var s := State();
      ResetR0();
      var cinst;
      cinst, code', seen' := Obtain(next, s, code, seen);
      follow := next;
      if cinst != null {
        Interpret(cinst.op);
        if status == Running {
          follow := Follow(cinst);
        }
      } else if status == Running {
        NothingBelow(s, code');
        assert cache[Index(pc)] != null <==> beg - 12 + Index(pc) in seen';
      }
      if status == Running && Unchanged(s, State(), code') { StillHolds(s, State(), code', code'); }
    }

    // While the machine runs, the cache is in order and `next` is its entry for the pc.
    ghost predicate Ready(next: Instruction?, code: set<int>, seen: set<int>)
      requires Valid()
      reads this, R, CR, mem, cache, made
    {
      status == Running ==>
        Linked() && Matches(seen) && Holds(State(), code) && Cacheable(State(), pc) && next == cache[Index(pc)]
    }

    lemma Start(next: Instruction?, code: set<int>, seen: set<int>)
      requires Valid() && Linked() && Matches(seen) && Holds(State(), code) && Cacheable(State(), pc) && next == cache[Index(pc)]
      ensures Ready(next, code, seen)
    {
    }

    lemma Finish(next: Instruction?, code: set<int>, seen: set<int>)
      requires Valid() && Ready(next, code, seen)
      ensures status == Running ==> Linked() && Matches(seen) && Holds(State(), code)
    {
    }

    // A turn within a quiet run of `n` instructions.
    method Advance(next: Instruction?, ghost n: nat, ghost code: set<int>, ghost seen: set<int>)
      returns (follow: Instruction?, ghost code': set<int>, ghost seen': set<int>)
      requires Valid() && Ready(next, code, seen) && n > 0 && status == Running && Quiet(State(), n, code, seen)
      modifies this`pc, this`exc, this`status, this`made, R, CR, mem, cache, made
      ensures Valid() && State() == KeptStep(old(State()), seen) && fresh(made - old(made))
      ensures seen' == SeenAfter(old(State()), seen)
      ensures Quiet(State(), n - 1, code', seen') && (n > 1 ==> Ready(follow, code', seen'))
    {
      hide Fetch, Exec, KeptStep, Fits, Unchanged, Current, Quiet;
      QuietStep(State(), n, code, seen);
      follow, code', seen' := Turn(next, code, seen);
    }

    // The execute loop, for `n` instructions from `addr` on: what is done is what the
    // instructions do one after the other. The cache is fit to go on with, unless the last of
    // them overwrote an instruction.
    method Execute(addr: Word, n: nat, ghost code: set<int>, ghost seen: set<int>)
      returns (ghost code': set<int>, ghost seen': set<int>)
      requires Valid() && Linked() && Matches(seen) && Holds(State(), code) && status == Running
      requires Cacheable(State(), addr) && Quiet(State().(pc := addr), n, code, seen)
      modifies this`pc, this`exc, this`status, this`made, R, CR, mem, cache, made
      ensures var s := old(State()).(pc := addr);
        Valid() && State() == KeptRun(s, n, seen) && seen' == SeenRun(s, n, seen)
      ensures Quiet(old(State()).(pc := addr), n + 1, code, seen) && status == Running ==>
                Linked() && Matches(seen') && Holds(State(), code')
    {
      hide Fetch, Exec, KeptStep, Fits, Quiet, KeptRun, SeenRun, Ready;
      pc := addr;
      ghost var s := State();
      ghost var k := if Quiet(s, n + 1, code, seen) then n + 1 else n;
      code', seen' := code, seen;
      HoldsHere(old(State()), s, code);
      var next := Lookup(pc);
      Start(next, code, seen);
      var i := 0;
      while i < n && status == Running
        invariant i <= n && Valid() && fresh(made - old(made))
        invariant KeptRun(State(), n - i, seen') == KeptRun(s, n, seen) && SeenRun(State(), n - i, seen') == SeenRun(s, n, seen)
        invariant Quiet(State(), k - i, code', seen') && (i < k ==> Ready(next, code', seen'))
      {
        RunStep(State(), n - i, seen');
        next, code', seen' := Advance(next, k - i, code', seen');
        i := i + 1;
      }
      if i < n { RunStopped(State(), n - i, seen'); } else { RunStart(State(), seen'); }
      assert k == n + 1 && status == Running ==> Linked() && Matches(seen') && Holds(State(), code') by {
        if i < k { Finish(next, code', seen'); }
      }
    }
  }
}
