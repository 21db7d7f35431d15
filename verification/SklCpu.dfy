// The SKL processor: what each instruction of the modelled subset does to the
// registers and memory, and how instructions are decoded.
module SklCpu {
  import opened Words
  import opened SklFlags
  import O3

  const SP := 30
  const RETADR := 31

  // Causes of a hardware trap, in bits 4..2 of CR2.
  datatype Cause = InvalidOpcode | OutOfBoundsRead | OutOfBoundsWrite | DivideByZero

  function CauseBits(c: Cause): Word {
    match c
    case InvalidOpcode => 0
    case OutOfBoundsRead => 12
    case OutOfBoundsWrite => 16
    case DivideByZero => 20
  }

  // Fatal: the emulator gave up (a trap inside a trap, an unsupported encoding).
  // Wild: it would touch host memory outside the heap.  Outside: the data that an instruction
  // works on is not modelled, only where it goes on; registers and memory are now unknown.
  datatype Status = Running | Fatal | Wild | Outside

  datatype Cpu = Cpu(beg: Word, pc: Word, r: seq<Word>, cr: seq<Word>, mem: seq<Byte>, exc: bool, status: Status) {
    // Memory starts 12 bytes into a page: heap blocks begin one word below a paragraph.
    predicate Valid() {
      |r| == 32 && |cr| == 6 && 4096 <= beg && beg + |mem| < 0x4000_0000 && beg % 4096 == 12 && |mem| % 16 == 0
    }
  }

  // ---- Memory ----------------------------------------------------------------------

  // The emulator's bounds check; the sum wraps.
  predicate AddressValid(s: Cpu, ea: Word, size: nat) {
    s.beg <= ea && Wrap(ea + size) < s.beg + |s.mem|
  }

  predicate InMemory(s: Cpu, ea: int, size: nat) {
    s.beg <= ea && ea + size <= s.beg + |s.mem|
  }

  // When the check says yes, the access is inside memory, or has wrapped round.
  lemma AddressCheck(s: Cpu, ea: Word, size: nat)
    requires s.Valid() && 0 < size <= 8
    ensures AddressValid(s, ea, size) <==>
              (InMemory(s, ea, size) && ea + size != s.beg + |s.mem|) || ea + size >= TWO32
  {
  }

  // The topmost word passes the check wherever memory is.
  lemma AddressWraps(s: Cpu)
    requires s.Valid()
    ensures AddressValid(s, 0xFFFF_FFFC, 4) && !InMemory(s, 0xFFFF_FFFC, 4)
  {
    AddressCheck(s, 0xFFFF_FFFC, 4);
  }

  function Load(mem: seq<Byte>, at: nat, size: nat): Word
    requires size in {1, 2, 4} && at + size <= |mem|
  {
    var b0: int := mem[at];
    if size == 1 then b0 else
    var b1: int := mem[at + 1];
    if size == 2 then b0 + 0x100 * b1 else
    var b2: int, b3: int := mem[at + 2], mem[at + 3];
    b0 + 0x100 * b1 + 0x1_0000 * b2 + 0x100_0000 * b3
  }

  function Digit(v: int, power: int): Byte
    requires power > 0
  {
    v / power % 0x100
  }

  function Bytes(v: Word, size: nat): (b: seq<Byte>)
    requires size in {1, 2, 4}
    ensures |b| == size
  {
    if size == 1 then [Digit(v, 1)]
    else if size == 2 then [Digit(v, 1), Digit(v, 0x100)]
    else [Digit(v, 1), Digit(v, 0x100), Digit(v, 0x1_0000), Digit(v, 0x100_0000)]
  }

  function Store(mem: seq<Byte>, at: nat, b: seq<Byte>): (m: seq<Byte>)
    requires at + |b| <= |mem|
    ensures |m| == |mem|
    ensures forall i :: at <= i < at + |b| ==> m[i] == b[i - at]
    ensures forall i :: 0 <= i < |mem| && !(at <= i < at + |b|) ==> m[i] == mem[i]
  {
    mem[..at] + b + mem[at + |b|..]
  }

  lemma Digits(v: Word)
    ensures v == Digit(v, 1) as int + 0x100 * Digit(v, 0x100) as int
                 + 0x1_0000 * Digit(v, 0x1_0000) as int + 0x100_0000 * Digit(v, 0x100_0000) as int
  {
  }

  // A stored word reads back.
  lemma StoreLoad(mem: seq<Byte>, at: nat, v: Word)
    requires at + 4 <= |mem|
    ensures Load(Store(mem, at, Bytes(v, 4)), at, 4) == v
  {
    hide Digit;
    Digits(v);
    var m, b := Store(mem, at, Bytes(v, 4)), Bytes(v, 4);
    assert m[at] == b[0] && m[at + 1] == b[1] && m[at + 2] == b[2] && m[at + 3] == b[3];
  }

  lemma LoadSame(mem: seq<Byte>, mem': seq<Byte>, at: nat, size: nat)
    requires |mem| == |mem'| && at + size <= |mem| && size in {1, 2, 4}
    requires forall i :: at <= i < at + size ==> mem[i] == mem'[i]
    ensures Load(mem, at, size) == Load(mem', at, size)
  {
  }

  // ---- Traps -----------------------------------------------------------------------

  // A trap taken while another is being handled (CR2, bits 6..5) is fatal.
  function HardwareTrap(s: Cpu, c: Cause): (t: Cpu)
    requires s.Valid()
    ensures t.Valid()
  {
    if s.cr[2] / 32 % 4 != 0 then s.(status := Fatal)
    else s.(cr := s.cr[0 := s.pc][2 := 32 + CauseBits(c) + 1], pc := s.cr[1], exc := true)
  }

  function SoftwareTrap(s: Cpu, code: Word): (t: Cpu)
    requires s.Valid()
    ensures t.Valid()
  {
    s.(r := s.r[1 := code][31 := s.pc], pc := s.cr[5], exc := true)
  }

  // A checked read: the value, and the state after a trap if there was one.
  function Read(s: Cpu, ea: Word, size: nat): (res: (Word, Cpu))
    requires s.Valid() && size in {1, 2, 4}
    ensures res.1.Valid()
  {
    if !AddressValid(s, ea, size) then (0xFFFF_FFFF, HardwareTrap(s, OutOfBoundsRead))
    else if ea + size >= TWO32 then (0, s.(status := Wild))
    else (Load(s.mem, ea - s.beg, size), s)
  }

  function Write(s: Cpu, ea: Word, v: Word, size: nat): (t: Cpu)
    requires s.Valid() && size in {1, 2, 4}
    ensures t.Valid()
  {
    if !AddressValid(s, ea, size) then HardwareTrap(s, OutOfBoundsWrite)
    else if ea + size >= TWO32 then s.(status := Wild)
    else s.(mem := Store(s.mem, ea - s.beg, Bytes(v, size)))
  }

  // ---- Instructions ----------------------------------------------------------------

  datatype GenOp = ADD | SUB | MUL | DIV | MOD | CMP | ABS

  // The memory that an instruction works on first: none, the word a register points at, an
  // indexed operand, or words of the stack.
  datatype Access =
    | Nowhere
    | PointedAt(reg: nat)
    | Indexed(base: nat, index: nat, scale: nat, offset: Word, size: nat, write: bool)
    | Pushed(count: nat)
    | Popped(count: nat)
  {
    predicate Valid() {
      match this
      case Nowhere => true
      case PointedAt(reg) => reg < 32
      case Indexed(base, index, scale, _, size, _) => base < 32 && index < 32 && scale < 4 && size in {4, 8}
      case Pushed(count) => count in {1, 2}
      case Popped(count) => count in {1, 2}
    }

    predicate Writes() {
      Pushed? || (Indexed? && write)
    }

    function Size(): nat {
      if Indexed? then size else 4
    }
  }

  // A decoded instruction, with the operand words captured when it was decoded. `Beyond` stands
  // for those that work on F registers, single bits, control registers or the host.
  datatype Instr =
    | Gen(op: GenOp, rd: nat, r0: nat, r1: nat)
    | Set(rel: Relation, rd: nat, r0: nat)
    | Branch(rel: Relation, r0: nat, dest: Word)
    | Jump(dest: Word)
    | JumpLink(dest: Word, ret: Word)
    | JumpRegLink(rd: nat, r0: nat, ret: Word)
    | LoadImm(rd: nat, base: nat, cdata: Word)
    | LoadInt(size: nat, signed: bool, rd: nat, base: nat, index: nat, scale: nat, offset: Word)
    | StoreInt(size: nat, rd: nat, base: nat, index: nat, scale: nat, offset: Word)
    | LoadAddr(rd: nat, base: nat, index: nat, scale: nat, offset: Word)
    | Push(rd: nat)
    | Pop(rd: nat)
    | Enter(rd: nat, words: nat)
    | Leave(rd: nat, words: nat)
    | TrapNil(code: Word, r0: nat)
    | TrapRange(lo: int, hi: int, r0: nat)
    | TrapArray(rd: nat, r0: nat)
    | Beyond(inst: Word, words: nat, access: Access)
  {
    predicate Valid() {
      match this
      case Gen(_, rd, r0, r1) => rd < 32 && r0 < 32 && r1 < 32
      case Set(_, rd, r0) => rd < 32 && r0 < 32
      case Branch(_, r0, _) => r0 < 32
      case Jump(_) => true
      case JumpLink(_, _) => true
      case JumpRegLink(rd, r0, _) => rd < 32 && r0 < 32
      case LoadImm(rd, base, _) => rd < 32 && base < 32
      case LoadInt(size, _, rd, base, index, scale, _) => size in {1, 2, 4} && rd < 32 && base < 32 && index < 32 && scale < 4
      case StoreInt(size, rd, base, index, scale, _) => size in {1, 2, 4} && rd < 32 && base < 32 && index < 32 && scale < 4
      case LoadAddr(rd, base, index, scale, _) => rd < 32 && base < 32 && index < 32 && scale < 4
      case Push(rd) => rd < 32
      case Pop(rd) => rd < 32
      case Enter(rd, words) => rd < 32 && words < 0x1_0000
      case Leave(rd, words) => rd < 32 && words < 0x1_0000
      case TrapNil(_, r0) => r0 < 32
      case TrapRange(_, _, r0) => r0 < 32
      case TrapArray(rd, r0) => rd < 32 && r0 < 32
      case Beyond(_, words, access) => words in {1, 2, 3} && access.Valid() && (access.Pushed? || access.Popped? ==> words == 1)
    }

    // Words the encoding occupies.
    function Words(): nat {
      match this
      case Branch(_, _, _) => 2
      case Jump(_) => 2
      case JumpLink(_, _) => 2
      case LoadImm(_, _, _) => 2
      case LoadInt(_, _, _, _, _, _, _) => 2
      case StoreInt(_, _, _, _, _, _) => 2
      case LoadAddr(_, _, _, _, _) => 2
      case Beyond(_, words, _) => words
      case _ => 1
    }
  }

  function SetReg(s: Cpu, i: nat, v: Word): (t: Cpu)
    requires s.Valid() && i < 32
    ensures t.Valid()
  {
    s.(r := s.r[i := v])
  }

  function Bump(s: Cpu, words: nat): (t: Cpu)
    ensures s.Valid() ==> t.Valid()
  {
    s.(pc := Wrap(s.pc + 4 * words))
  }

  function Power2(scale: nat): int
    requires scale < 4
  {
    if scale == 0 then 1 else if scale == 1 then 2 else if scale == 2 then 4 else 8
  }

  function EffectiveAddress(base: Word, index: Word, scale: nat, offset: Word): Word
    requires scale < 4
  {
    var shifted: int := Wrap(index * Power2(scale));
    Wrap(base + shifted + offset)
  }

  function Extend(v: Word, size: nat, signed: bool): Word {
    if signed && size == 1 && v >= 0x80 then Wrap(v - 0x100)
    else if signed && size == 2 && v >= 0x8000 then Wrap(v - 0x1_0000)
    else v
  }

  function ExecGen(s: Cpu, op: GenOp, rd: nat, r0: nat, r1: nat): (t: Cpu)
    requires s.Valid() && rd < 32 && r0 < 32 && r1 < 32
    ensures t.Valid()
  {
    var l: int, r: int := s.r[r0], s.r[r1];
    match op
    case ADD => Bump(SetReg(s, rd, Wrap(l + r)), 1)
    case SUB => Bump(SetReg(s, rd, Wrap(l - r)), 1)
    case MUL => Bump(SetReg(s, rd, Wrap(l * r)), 1)
    case CMP => Bump(SetReg(s, rd, Flags(l, r)), 1)
    case ABS => Bump(SetReg(s, rd, if Signed(r) < 0 then Wrap(-r) else r), 1)
    // a division by zero traps, and the pc is then bumped all the same
    case DIV =>
      if r == 0 then Bump(HardwareTrap(s, DivideByZero), 1)
      else Bump(SetReg(s, rd, Wrap(O3.Div(Signed(l), Signed(r)))), 1)
    case MOD =>
      if r == 0 then Bump(HardwareTrap(s, DivideByZero), 1)
      else Bump(SetReg(s, rd, Wrap(O3.Mod(Signed(l), Signed(r)))), 1)
  }

  function ExecLoad(s: Cpu, d: Instr): (t: Cpu)
    requires s.Valid() && d.Valid() && d.LoadInt?
    ensures t.Valid()
  {
    var ea := EffectiveAddress(s.r[d.base], s.r[d.index], d.scale, d.offset);
    if !AddressValid(s, ea, d.size) then HardwareTrap(s, OutOfBoundsRead)
    else if ea + d.size >= TWO32 then s.(status := Wild)
    else Bump(SetReg(s, d.rd, Extend(Load(s.mem, ea - s.beg, d.size), d.size, d.signed)), 2)
  }

  function ExecStore(s: Cpu, d: Instr): (t: Cpu)
    requires s.Valid() && d.Valid() && d.StoreInt?
    ensures t.Valid()
  {
    var ea := EffectiveAddress(s.r[d.base], s.r[d.index], d.scale, d.offset);
    if !AddressValid(s, ea, d.size) then HardwareTrap(s, OutOfBoundsWrite)
    else if ea + d.size >= TWO32 then s.(status := Wild)
    else Bump(s.(mem := Store(s.mem, ea - s.beg, Bytes(s.r[d.rd], d.size))), 2)
  }

  // Stack instructions do nothing more once the exception flag is up, whoever raised it.
  function ExecPush(s: Cpu, rd: nat): (t: Cpu)
    requires s.Valid() && rd < 32
    ensures t.Valid()
  {
    var top: int := s.r[SP];
    var sp := Wrap(top - 4);
    var t := Write(s, sp, s.r[rd], 4);
    if t.exc || t.status != Running then t else Bump(SetReg(t, SP, sp), 1)
  }

  function ExecPop(s: Cpu, rd: nat): (t: Cpu)
    requires s.Valid() && rd < 32
    ensures t.Valid()
  {
    var sp: int := s.r[SP];
    var (v, t) := Read(s, sp, 4);
    if t.exc || t.status != Running then t else Bump(SetReg(SetReg(t, SP, Wrap(sp + 4)), rd, v), 1)
  }

  function ExecEnter(s: Cpu, rd: nat, words: nat): (t: Cpu)
    requires s.Valid() && rd < 32
    ensures t.Valid()
  {
    var sp: int := s.r[SP];
    var t := Write(s, Wrap(sp - 4), s.r[RETADR], 4);
    if t.exc || t.status != Running then t else
    var u := Write(t, Wrap(sp - 8), s.r[rd], 4);
    if u.exc || u.status != Running then u
    else Bump(SetReg(SetReg(u, SP, Wrap(sp - 8 - 4 * words)), rd, Wrap(sp - 8)), 1)
  }

  function ExecLeave(s: Cpu, rd: nat, words: nat): (t: Cpu)
    requires s.Valid() && rd < 32
    ensures t.Valid()
  {
    var sfp: int := s.r[rd];
    var (saved, t) := Read(s, sfp, 4);
    if t.exc || t.status != Running then t else
    var (ret, u) := Read(t, Wrap(sfp + 4), 4);
    if u.exc || u.status != Running then u
    else Bump(SetReg(SetReg(SetReg(u, RETADR, ret), rd, saved), SP, Wrap(sfp + 8 + 4 * words)), 1)
  }

  // Where the access begins.
  function AccessAt(s: Cpu, a: Access): Word
    requires s.Valid() && a.Valid() && !a.Nowhere?
  {
    var sp: int := s.r[SP];
    match a
    case PointedAt(reg) => s.r[reg]
    case Indexed(base, index, scale, offset, _, _) => EffectiveAddress(s.r[base], s.r[index], scale, offset)
    case Pushed(_) => Wrap(sp - 4)
    case Popped(_) => sp
  }

  function Unknown(s: Cpu): (t: Cpu)
    ensures s.Valid() ==> t.Valid()
  {
    if s.status == Running then s.(status := Outside) else s
  }

  // The second word of a push or pop of two, the first being done.
  function SecondPush(s: Cpu): (t: Cpu)
    requires s.Valid()
    ensures t.Valid()
  {
    var sp: int := s.r[SP];
    var ea := Wrap(sp - 4);
    if !AddressValid(s, ea, 4) then Unknown(HardwareTrap(s, OutOfBoundsWrite))
    else if ea + 4 >= TWO32 then s.(status := Wild)
    else Unknown(Bump(SetReg(s, SP, ea), 1))
  }

  function SecondPop(s: Cpu): (t: Cpu)
    requires s.Valid()
    ensures t.Valid()
  {
    var sp: int := s.r[SP];
    if !AddressValid(s, sp, 4) then HardwareTrap(s, OutOfBoundsRead)
    else if sp + 4 >= TWO32 then s.(status := Wild)
    else Unknown(Bump(SetReg(s, SP, Wrap(sp + 4)), 1))
  }

  // The stack words of a push or pop of an F register, one after the other; the first is there.
  function ExecWords(s: Cpu, a: Access): (t: Cpu)
    requires s.Valid() && a.Valid() && (a.Pushed? || a.Popped?)
    ensures t.Valid()
  {
    var sp: int := s.r[SP];
    var u := SetReg(s, SP, if a.Pushed? then Wrap(sp - 4) else Wrap(sp + 4));
    if a.count == 1 then Unknown(Bump(u, 1)) else if a.Pushed? then SecondPush(u) else SecondPop(u)
  }

  // What is known of the others: whether their access traps, that they go no further than their
  // first access while the exception flag is up, and where they go on.
  function ExecBeyond(s: Cpu, words: nat, a: Access): (t: Cpu)
    requires s.Valid() && a.Valid()
    ensures t.Valid()
  {
    if a.Nowhere? then Unknown(Bump(s, words)) else
    var ea := AccessAt(s, a);
    if !AddressValid(s, ea, a.Size()) then HardwareTrap(s, if a.Writes() then OutOfBoundsWrite else OutOfBoundsRead)
    else if ea + a.Size() >= TWO32 then s.(status := Wild)
    else if s.exc then (if a.Writes() then Unknown(s) else s)
    else if a.Pushed? || a.Popped? then ExecWords(s, a)
    else Unknown(Bump(s, words))
  }

  // What interpreting the decoded instruction `d` does.
  function Exec(s: Cpu, d: Instr): (t: Cpu)
    requires s.Valid() && d.Valid()
    ensures t.Valid()
  {
    match d
    case Gen(op, rd, r0, r1) => ExecGen(s, op, rd, r0, r1)
    case Set(rel, rd, r0) => Bump(SetReg(s, rd, if Relates(rel, s.r[r0]) then 1 else 0), 1)
    case Branch(rel, r0, dest) => if Relates(rel, s.r[r0]) then s.(pc := dest) else Bump(s, 2)
    case Jump(dest) => s.(pc := dest)
    case JumpLink(dest, ret) => SetReg(s, RETADR, ret).(pc := dest)
    case JumpRegLink(rd, r0, ret) => SetReg(s, rd, ret).(pc := s.r[r0])
    case LoadImm(rd, base, cdata) => Bump(SetReg(s, rd, Wrap(s.r[base] as int + cdata)), 2)
    case LoadInt(_, _, _, _, _, _, _) => ExecLoad(s, d)
    case StoreInt(_, _, _, _, _, _) => ExecStore(s, d)
    case LoadAddr(rd, base, index, scale, offset) =>
      Bump(SetReg(s, rd, EffectiveAddress(s.r[base], s.r[index], scale, offset)), 2)
    case Push(rd) => ExecPush(s, rd)
    case Pop(rd) => ExecPop(s, rd)
    case Enter(rd, words) => ExecEnter(s, rd, words)
    case Leave(rd, words) => ExecLeave(s, rd, words)
    case TrapNil(code, r0) => if s.r[r0] == 0 then SoftwareTrap(s, code) else Bump(s, 1)
    case TrapRange(lo, hi, r0) => if lo <= Signed(s.r[r0]) <= hi then Bump(s, 1) else SoftwareTrap(s, 12)
    case TrapArray(rd, r0) => if Signed(s.r[r0]) >= 0 && s.r[r0] < s.r[rd] then Bump(s, 1) else SoftwareTrap(s, 13)
    case Beyond(_, words, access) => ExecBeyond(s, words, access)
  }

  // ---- Decoding --------------------------------------------------------------------

  // Bits lo .. lo+width-1 of an instruction word, for 2^lo and 2^width.
  function Field(inst: Word, lo: int, width: int): (f: nat)
    requires lo > 0 && width > 0
    ensures f < width
  {
    inst / lo % width
  }

  function FieldRd(inst: Word): (f: nat)
    ensures f < 32
  {
    Field(inst, 0x20_0000, 32)
  }

  function FieldR0(inst: Word): (f: nat)
    ensures f < 32
  {
    Field(inst, 0x1_0000, 32)
  }

  function FieldR1(inst: Word): (f: nat)
    ensures f < 32
  {
    Field(inst, 0x800, 32)
  }

  function Class(inst: Word): nat {
    Field(inst, 0x400_0000, 64)
  }

  // Decoding: an instruction, an encoding that the emulator gives up on, or no instruction at all.
  datatype Decoded = Ok(i: Instr) | Unsupported | Invalid

  function RelationOf(opc: nat): Relation
    requires opc < 10
  {
    [EQ, NE, LT, GE, LE, GT, LTU, GEU, LEU, GTU][opc]
  }

  // How many operand words, which decoding must fetch, the encoding carries.
  function Operands(inst: Word): nat {
    if Class(inst) == 7 && inst % 32 < 12 then 1
    else if Class(inst) == 8 && inst % 32 < 16 then (if inst % 32 == 3 then 2 else 1)
    else 0
  }

  // Operations on integers, on integers with a result in an F register, and on F registers.
  function DecodeGen(inst: Word): Decoded {
    var opc, banks := inst % 32, Field(inst, 0x100, 8);
    if opc > 6 then Unsupported
    else if banks == 0 then Ok(Gen([ADD, SUB, MUL, DIV, MOD, CMP, ABS][opc], FieldRd(inst), FieldR0(inst), FieldR1(inst)))
    else if opc == 4 && banks != 4 then Unsupported
    else Ok(Beyond(inst, 1, Nowhere))
  }

  function DecodeJump(pc: Word, inst: Word, word: Word): Decoded {
    var opc := inst % 32;
    if opc < 10 then Ok(Branch(RelationOf(opc), FieldR0(inst), Wrap(pc + 8 + word)))
    else if opc == 10 then Ok(Jump(Wrap(pc + 8 + word)))
    else if opc == 11 && FieldRd(inst) == RETADR then Ok(JumpLink(word, Wrap(pc + 8)))
    else Unsupported
  }

  function DecodeRegMem(inst: Word, word: Word): Decoded {
    var opc, rd, base, index, scale := inst % 32, FieldRd(inst), FieldR0(inst), FieldR1(inst), Field(inst, 0x40, 4);
    if opc == 0 then Ok(LoadInt(1, true, rd, base, index, scale, word))
    else if opc == 1 then Ok(LoadInt(1, false, rd, base, index, scale, word))
    else if opc == 6 then Ok(LoadInt(2, true, rd, base, index, scale, word))
    else if opc == 7 then Ok(LoadInt(2, false, rd, base, index, scale, word))
    else if opc == 8 then Ok(LoadInt(4, true, rd, base, index, scale, word))
    else if opc == 9 then Ok(LoadImm(rd, base, word))
    else if opc == 10 then Ok(StoreInt(1, rd, base, index, scale, word))
    else if opc == 13 then Ok(StoreInt(2, rd, base, index, scale, word))
    else if opc == 14 then Ok(StoreInt(4, rd, base, index, scale, word))
    else if opc == 15 then Ok(LoadAddr(rd, base, index, scale, word))
    else if opc == 3 then Ok(Beyond(inst, 3, Nowhere))
    else if opc == 5 then Ok(Beyond(inst, 2, Nowhere))
    else if opc in {2, 4, 11, 12} then
      Ok(Beyond(inst, 2, Indexed(base, index, scale, word, if opc in {2, 11} then 8 else 4, opc >= 11)))
    else Unsupported
  }

  function DecodeStack(inst: Word): Decoded {
    var opc, rd, words := inst % 32, FieldRd(inst), Field(inst, 32, 0x1_0000);
    if opc == 0 then Ok(Enter(rd, words))
    else if opc == 1 then Ok(Leave(rd, words))
    else if opc == 2 then Ok(Push(rd))
    else if opc == 5 then Ok(Pop(rd))
    else if opc == 3 || opc == 4 then Ok(Beyond(inst, 1, Pushed(opc - 2)))
    else if opc == 6 || opc == 7 then Ok(Beyond(inst, 1, Popped(opc - 5)))
    else Unsupported
  }

  function DecodeTrap(inst: Word): Decoded {
    var opc, sub := Field(inst, 0x100, 0x100), inst % 0x100;
    if opc == 19 || opc == 20 then (if FieldRd(inst) == 0 then Ok(TrapNil(opc, FieldR0(inst))) else Unsupported)
    else if opc == 12 && sub == 4 then Ok(TrapRange(-128, 127, FieldR0(inst)))
    else if opc == 12 && sub == 5 then Ok(TrapRange(-32768, 32767, FieldR0(inst)))
    else if opc == 12 && sub == 6 then Ok(TrapRange(-0x8000_0000, 0x7FFF_FFFF, FieldR0(inst)))
    else if opc == 12 && sub == 9 then Ok(TrapRange(0, 31, FieldR0(inst)))
    else if opc == 13 then Ok(TrapArray(FieldRd(inst), FieldR0(inst)))
    else Unsupported
  }

  // Classes whose instructions work on data beyond the model: integer logic (1), control
  // registers (3), the instruction counter (4), the VM service (5), bit tests (9), functions of
  // F registers (13).
  function DecodeBeyond(cls: nat, inst: Word): Decoded {
    var opc := inst % 32;
    if (cls == 1 && opc < 9) || (cls == 3 && opc < 2) || (cls == 4 && opc == 2) || (cls == 13 && opc < 7)
    then Ok(Beyond(inst, 1, Nowhere))
    else if cls == 9 && opc < 8 then Ok(Beyond(inst, 1, if opc < 2 then Nowhere else PointedAt(FieldR1(inst))))
    else if cls == 5 && opc == 3 then Ok(Beyond(inst, 1, PointedAt(FieldR0(inst))))
    else Unsupported
  }

  // The instruction at `pc`, given its first word and (where it has one) its operand word.
  function Decode(pc: Word, inst: Word, word: Word): (d: Decoded)
    ensures d.Ok? ==> d.i.Valid() && d.i.Words() == 1 + Operands(inst)
  {
    var cls, opc := Class(inst), inst % 32;
    if cls == 0 then DecodeGen(inst)
    else if cls == 6 then Ok(JumpRegLink(FieldRd(inst), FieldR0(inst), Wrap(pc + 4)))
    else if cls == 7 then DecodeJump(pc, inst, word)
    else if cls == 8 then DecodeRegMem(inst, word)
    else if cls == 10 then DecodeStack(inst)
    else if cls == 11 then (if opc < 10 then Ok(Set(RelationOf(opc), FieldRd(inst), FieldR0(inst))) else Unsupported)
    else if cls == 12 then DecodeTrap(inst)
    else if cls == 2 then Unsupported
    else if cls < 14 then DecodeBeyond(cls, inst)
    else Invalid
  }
}
