// The encodings, written from the tables of mnemonics: decoding one gives the instruction back.
module SklEncode {
  import opened Words
  import opened SklFlags
  import O3
  import opened SklCpu

  // ---- Fields ------------------------------------------------------------------------------

  // Class in bits 31..26, Rd in 25..21, R0 in 20..16, R1 in 15..11, and the rest.
  function Assemble(cls: nat, rd: nat, r0: nat, r1: nat, low: nat): Word
    requires cls < 64 && rd < 32 && r0 < 32 && r1 < 32 && low < 0x800
  {
    cls * 0x400_0000 + rd * 0x20_0000 + r0 * 0x1_0000 + r1 * 0x800 + low
  }

  lemma DivIs(a: int, q: int, d: nat, r: nat)
    requires r < d && a == q * d + r
    ensures a / d == q && a % d == r
  {
    O3.Unique(d, q, a / d, a);
  }

  lemma FieldIs(w: Word, hi: nat, lo: nat, width: nat, f: nat, low: nat)
    requires f < width && low < lo && w == (hi * width + f) * lo + low
    ensures Field(w, lo, width) == f
  {
    DivIs(w, hi * width + f, lo, low);
    DivIs(hi * width + f, hi, width, f);
  }

  lemma Fields(cls: nat, rd: nat, r0: nat, r1: nat, low: nat)
    requires cls < 64 && rd < 32 && r0 < 32 && r1 < 32 && low < 0x800
    ensures var w := Assemble(cls, rd, r0, r1, low);
      && Class(w) == cls && FieldRd(w) == rd && FieldR0(w) == r0 && FieldR1(w) == r1
      && w % 32 == low % 32 && w % 0x100 == low % 0x100 && Field(w, 0x100, 8) == low / 0x100 && Field(w, 0x40, 4) == low / 0x40 % 4
      && Field(w, 32, 0x1_0000) == r0 * 0x800 + r1 * 0x40 + low / 32 && Field(w, 0x100, 0x100) == r1 * 8 + low / 0x100
  {
    hide Field;
    var w := Assemble(cls, rd, r0, r1, low);
    var r0s, r1s := r0 * 0x1_0000 + r1 * 0x800 + low, r1 * 0x800 + low;
    FieldIs(w, 0, 0x400_0000, 64, cls, rd * 0x20_0000 + r0s);
    FieldIs(w, cls, 0x20_0000, 32, rd, r0s);
    FieldIs(w, cls * 32 + rd, 0x1_0000, 32, r0, r1s);
    FieldIs(w, cls * 1024 + rd * 32 + r0, 0x800, 32, r1, low);
    FieldIs(w, (cls * 1024 + rd * 32 + r0) * 32 + r1, 0x100, 8, low / 0x100, low % 0x100);
    FieldIs(w, (cls * 1024 + rd * 32 + r0) * 256 + r1 * 8 + low / 0x100, 0x40, 4, low / 0x40 % 4, low % 0x40);
    FieldIs(w, cls * 32 + rd, 32, 0x1_0000, r0 * 0x800 + r1 * 0x40 + low / 32, low % 32);
    FieldIs(w, cls * 1024 + rd * 32 + r0, 0x100, 0x100, r1 * 8 + low / 0x100, low % 0x100);
    Remainder(w, cls * 0x20_0000 + rd * 0x1_0000 + r0 * 0x800 + r1 * 0x40, low);
  }

  lemma Remainder(w: int, q: int, low: nat)
    requires w == q * 32 + low && q % 8 == 0
    ensures w % 32 == low % 32 && w % 0x100 == low % 0x100
  {
    DivIs(w, q + low / 32, 32, low % 32);
    DivIs(w, q / 8 + low / 0x100, 0x100, low % 0x100);
  }

  // ---- The tables ------------------------------------------------------------------------------

  // ADD, SUB, MUL, DIV, MOD, CMP, ABS.
  function OpNumber(op: GenOp): nat {
    match op
    case ADD => 0
    case SUB => 1
    case MUL => 2
    case DIV => 3
    case MOD => 4
    case CMP => 5
    case ABS => 6
  }

  // JEQ, JNE, JLT, JGE, JLE, JGT, JLTU, JGEU, JLEU, JGTU, and SEQ to SGTU.
  function RelationNumber(rel: Relation): nat {
    match rel
    case EQ => 0
    case NE => 1
    case LT => 2
    case GE => 3
    case LE => 4
    case GT => 5
    case LTU => 6
    case GEU => 7
    case LEU => 8
    case GTU => 9
  }

  // LB, LBU, LH, LHU, LW.
  function LoadNumber(size: nat, signed: bool): nat {
    if size == 1 then (if signed then 0 else 1) else if size == 2 then (if signed then 6 else 7) else 8
  }

  // SB, SH, SW.
  function StoreNumber(size: nat): nat {
    if size == 1 then 10 else if size == 2 then 13 else 14
  }

  // SHORTINT, INTEGER, LONGINT, and elements of a SET.
  function RangeNumber(lo: int): nat {
    if lo == -128 then 4 else if lo == -32768 then 5 else if lo == 0 then 9 else 6
  }

  // The instructions of the modelled subset that have an encoding.
  predicate Encodable(pc: Word, i: Instr) {
    && i.Valid()
    && match i
       case JumpLink(_, ret) => ret == Wrap(pc + 8)
       case JumpRegLink(_, _, ret) => ret == Wrap(pc + 4)
       case LoadInt(size, signed, _, _, _, _, _) => size == 4 ==> signed
       case TrapNil(code, _) => code in {19, 20}
       case TrapRange(lo, hi, _) => (lo, hi) in {(-128, 127), (-32768, 32767), (-0x8000_0000, 0x7FFF_FFFF), (0, 31)}
       case Beyond(_, _, _) => false
       case _ => true
  }

  function EncodeInstr(i: Instr): Word
    requires exists pc :: Encodable(pc, i)
  {
    match i
    case Gen(op, rd, r0, r1) => Assemble(0, rd, r0, r1, OpNumber(op))
    case JumpRegLink(rd, r0, _) => Assemble(6, rd, r0, 0, 0)
    case Branch(rel, r0, _) => Assemble(7, 0, r0, 0, RelationNumber(rel))
    case Jump(_) => Assemble(7, 0, 0, 0, 10)
    case JumpLink(_, _) => Assemble(7, 31, 0, 0, 11)
    case LoadImm(rd, base, _) => Assemble(8, rd, base, 0, 9)
    case LoadInt(size, signed, rd, base, index, scale, _) => Assemble(8, rd, base, index, scale * 0x40 + LoadNumber(size, signed))
    case StoreInt(size, rd, base, index, scale, _) => Assemble(8, rd, base, index, scale * 0x40 + StoreNumber(size))
    case LoadAddr(rd, base, index, scale, _) => Assemble(8, rd, base, index, scale * 0x40 + 15)
    case Enter(rd, words) => 10 * 0x400_0000 + rd * 0x20_0000 + words * 0x20 + 0
    case Leave(rd, words) => 10 * 0x400_0000 + rd * 0x20_0000 + words * 0x20 + 1
    case Push(rd) => Assemble(10, rd, 0, 0, 2)
    case Pop(rd) => Assemble(10, rd, 0, 0, 5)
    case Set(rel, rd, r0) => Assemble(11, rd, r0, 0, RelationNumber(rel))
    case TrapRange(lo, _, r0) => 12 * 0x400_0000 + r0 * 0x1_0000 + 12 * 0x100 + RangeNumber(lo)
    case TrapArray(rd, r0) => 12 * 0x400_0000 + rd * 0x20_0000 + r0 * 0x1_0000 + 13 * 0x100
    case TrapNil(code, r0) => 12 * 0x400_0000 + r0 * 0x1_0000 + code * 0x100
  }

  // The operand word, of those that have one: jumps count from the word after it.
  function OperandOf(pc: Word, i: Instr): Word
    requires i.Words() == 2 && !i.Beyond?
  {
    match i
    case Branch(_, _, dest) => Wrap(dest as int - pc - 8)
    case Jump(dest) => Wrap(dest as int - pc - 8)
    case JumpLink(dest, _) => dest
    case LoadImm(_, _, cdata) => cdata
    case LoadInt(_, _, _, _, _, _, offset) => offset
    case StoreInt(_, _, _, _, _, offset) => offset
    case LoadAddr(_, _, _, _, offset) => offset
  }

  // ---- Round trip ----------------------------------------------------------------------------

  lemma ThereAndBack(pc: Word, dest: Word)
    ensures Wrap(pc + 8 + Wrap(dest as int - pc - 8)) == dest
    ensures Wrap(Wrap(pc + 8 + dest) as int - pc - 8) == dest
  {
  }

  lemma WordsFields(rd: nat, words: nat, opc: nat)
    requires rd < 32 && words < 0x1_0000 && opc < 32
    ensures var w := 10 * 0x400_0000 + rd * 0x20_0000 + words * 0x20 + opc;
      0 <= w < TWO32 && Class(w) == 10 && FieldRd(w) == rd && Field(w, 32, 0x1_0000) == words && w % 32 == opc
  {
    hide Class, Field, FieldRd, FieldR0, FieldR1;
    var low := words % 0x40 * 0x20 + opc;
    Fields(10, rd, words / 0x800, words / 0x40 % 32, low);
    assert words == words / 0x800 * 0x800 + words / 0x40 % 32 * 0x40 + words % 0x40;
    assert low % 32 == opc && low / 32 == words % 0x40;
  }

  lemma MemoryFields(rd: nat, base: nat, index: nat, scale: nat, opc: nat)
    requires rd < 32 && base < 32 && index < 32 && scale < 4 && opc < 32
    ensures var w := Assemble(8, rd, base, index, scale * 0x40 + opc);
      && Class(w) == 8 && FieldRd(w) == rd && FieldR0(w) == base && FieldR1(w) == index && Field(w, 0x40, 4) == scale && w % 32 == opc
  {
    hide Class, Field, FieldRd, FieldR0, FieldR1, Assemble;
    Fields(8, rd, base, index, scale * 0x40 + opc);
  }

  lemma CodeFields(rd: nat, r0: nat, code: nat, sub: nat)
    requires rd < 32 && r0 < 32 && code < 0x100 && sub < 0x100
    ensures var w := 12 * 0x400_0000 + rd * 0x20_0000 + r0 * 0x1_0000 + code * 0x100 + sub;
      0 <= w < TWO32 && Class(w) == 12 && FieldRd(w) == rd && FieldR0(w) == r0 && Field(w, 0x100, 0x100) == code && w % 0x100 == sub
  {
    hide Class, Field, FieldRd, FieldR0, FieldR1;
    Fields(12, rd, r0, code / 8, code % 8 * 0x100 + sub);
  }

  lemma SimpleTrip(pc: Word, i: Instr, word: Word)
    requires Encodable(pc, i) && (i.Words() == 2 ==> word == OperandOf(pc, i)) && (i.Gen? || i.Set? || i.JumpRegLink?)
    ensures Decode(pc, EncodeInstr(i), word) == Ok(i)
  {
    hide Class, Field, FieldRd, FieldR0, FieldR1, Assemble, Wrap, DecodeJump, DecodeRegMem, DecodeStack, DecodeTrap, DecodeBeyond;
    match i
    case Gen(op, rd, r0, r1) => Fields(0, rd, r0, r1, OpNumber(op));
    case JumpRegLink(rd, r0, _) => Fields(6, rd, r0, 0, 0);
    case Set(rel, rd, r0) => Fields(11, rd, r0, 0, RelationNumber(rel));
  }

  lemma JumpTrip(pc: Word, i: Instr, word: Word)
    requires Encodable(pc, i) && (i.Words() == 2 ==> word == OperandOf(pc, i)) && (i.Branch? || i.Jump? || i.JumpLink?)
    ensures Decode(pc, EncodeInstr(i), word) == Ok(i)
  {
    hide Class, Field, FieldRd, FieldR0, FieldR1, Assemble, Wrap, DecodeGen, DecodeRegMem, DecodeStack, DecodeTrap, DecodeBeyond;
    match i
    case Branch(rel, r0, dest) => Fields(7, 0, r0, 0, RelationNumber(rel)); ThereAndBack(pc, dest);
    case Jump(dest) => Fields(7, 0, 0, 0, 10); ThereAndBack(pc, dest);
    case JumpLink(_, _) => Fields(7, 31, 0, 0, 11);
  }

  lemma MemoryTrip(pc: Word, i: Instr, word: Word)
    requires Encodable(pc, i) && (i.Words() == 2 ==> word == OperandOf(pc, i)) && (i.LoadImm? || i.LoadInt? || i.StoreInt? || i.LoadAddr?)
    ensures Decode(pc, EncodeInstr(i), word) == Ok(i)
  {
    hide Class, Field, FieldRd, FieldR0, FieldR1, Assemble, Wrap, DecodeGen, DecodeJump, DecodeStack, DecodeTrap, DecodeBeyond;
    match i
    case LoadImm(rd, base, _) => MemoryFields(rd, base, 0, 0, 9);
    case LoadInt(size, signed, rd, base, index, scale, _) => MemoryFields(rd, base, index, scale, LoadNumber(size, signed));
    case StoreInt(size, rd, base, index, scale, _) => MemoryFields(rd, base, index, scale, StoreNumber(size));
    case LoadAddr(rd, base, index, scale, _) => MemoryFields(rd, base, index, scale, 15);
  }

  lemma StackTrip(pc: Word, i: Instr, word: Word)
    requires Encodable(pc, i) && (i.Words() == 2 ==> word == OperandOf(pc, i)) && (i.Push? || i.Pop? || i.Enter? || i.Leave?)
    ensures Decode(pc, EncodeInstr(i), word) == Ok(i)
  {
    hide Class, Field, FieldRd, FieldR0, FieldR1, Assemble, Wrap, DecodeGen, DecodeJump, DecodeRegMem, DecodeTrap, DecodeBeyond;
    match i
    case Enter(rd, words) => WordsFields(rd, words, 0);
    case Leave(rd, words) => WordsFields(rd, words, 1);
    case Push(rd) => Fields(10, rd, 0, 0, 2);
    case Pop(rd) => Fields(10, rd, 0, 0, 5);
  }

  lemma TrapTrip(pc: Word, i: Instr, word: Word)
    requires Encodable(pc, i) && (i.Words() == 2 ==> word == OperandOf(pc, i)) && (i.TrapNil? || i.TrapRange? || i.TrapArray?)
    ensures Decode(pc, EncodeInstr(i), word) == Ok(i)
  {
    hide Class, Field, FieldRd, FieldR0, FieldR1, Assemble, Wrap, DecodeGen, DecodeJump, DecodeRegMem, DecodeStack, DecodeBeyond;
    match i
    case TrapRange(lo, _, r0) => CodeFields(0, r0, 12, RangeNumber(lo));
    case TrapArray(rd, r0) => CodeFields(rd, r0, 13, 0);
    case TrapNil(code, r0) => CodeFields(0, r0, code, 0);
  }

  // Decoding what was encoded gives the instruction.
  lemma RoundTrip(pc: Word, i: Instr, word: Word)
    requires Encodable(pc, i) && (i.Words() == 2 ==> word == OperandOf(pc, i))
    ensures Decode(pc, EncodeInstr(i), word) == Ok(i)
  {
    hide Decode, EncodeInstr, OperandOf;
    if i.Gen? || i.Set? || i.JumpRegLink? {
      SimpleTrip(pc, i, word);
    } else if i.Branch? || i.Jump? || i.JumpLink? {
      JumpTrip(pc, i, word);
    } else if i.LoadImm? || i.LoadInt? || i.StoreInt? || i.LoadAddr? {
      MemoryTrip(pc, i, word);
    } else if i.Push? || i.Pop? || i.Enter? || i.Leave? {
      StackTrip(pc, i, word);
    } else {
      TrapTrip(pc, i, word);
    }
  }

  // And whatever is decoded, but for those whose data is beyond the model, has an encoding.
  lemma Complete(pc: Word, inst: Word, word: Word)
    requires Decode(pc, inst, word).Ok? && !Decode(pc, inst, word).i.Beyond?
    ensures var i := Decode(pc, inst, word).i;
      Encodable(pc, i) && (i.Words() == 2 ==> word == OperandOf(pc, i)) && Decode(pc, EncodeInstr(i), word) == Ok(i)
  {
    hide Class, Field, FieldRd, FieldR0, FieldR1, Wrap;
    ThereAndBack(pc, word);
    RoundTrip(pc, Decode(pc, inst, word).i, word);
  }

  // ---- Beyond the model --------------------------------------------------------------------

  // The accesses of LD, LF, SD and SF, of LDI and LFI, of PUSHF, PUSHD, POPF and POPD, of the bit
  // tests and of VMSVC.
  lemma OtherAccesses(pc: Word, rd: nat, r0: nat, r1: nat, low: nat, word: Word)
    requires rd < 32 && r0 < 32 && r1 < 32 && low < 0x800
    ensures var w, opc, scale := Assemble(8, rd, r0, r1, low), low % 32, low / 0x40 % 4;
      && (opc == 2 ==> Decode(pc, w, word) == Ok(Beyond(w, 2, Indexed(r0, r1, scale, word, 8, false))))
      && (opc == 4 ==> Decode(pc, w, word) == Ok(Beyond(w, 2, Indexed(r0, r1, scale, word, 4, false))))
      && (opc == 11 ==> Decode(pc, w, word) == Ok(Beyond(w, 2, Indexed(r0, r1, scale, word, 8, true))))
      && (opc == 12 ==> Decode(pc, w, word) == Ok(Beyond(w, 2, Indexed(r0, r1, scale, word, 4, true))))
      && (opc == 3 ==> Decode(pc, w, word) == Ok(Beyond(w, 3, Nowhere)))
      && (opc == 5 ==> Decode(pc, w, word) == Ok(Beyond(w, 2, Nowhere)))
    ensures var w, opc := Assemble(10, rd, r0, r1, low), low % 32;
      && (opc == 3 ==> Decode(pc, w, word) == Ok(Beyond(w, 1, Pushed(1)))) && (opc == 4 ==> Decode(pc, w, word) == Ok(Beyond(w, 1, Pushed(2))))
      && (opc == 6 ==> Decode(pc, w, word) == Ok(Beyond(w, 1, Popped(1)))) && (opc == 7 ==> Decode(pc, w, word) == Ok(Beyond(w, 1, Popped(2))))
    ensures var w, opc := Assemble(9, rd, r0, r1, low), low % 32;
      && (opc < 2 ==> Decode(pc, w, word) == Ok(Beyond(w, 1, Nowhere))) && (2 <= opc < 8 ==> Decode(pc, w, word) == Ok(Beyond(w, 1, PointedAt(r1))))
    ensures var w := Assemble(5, rd, r0, r1, low); low % 32 == 3 ==> Decode(pc, w, word) == Ok(Beyond(w, 1, PointedAt(r0)))
  {
    hide Class, Field, FieldRd, FieldR0, FieldR1, Assemble, Wrap, DecodeGen, DecodeJump, DecodeTrap;
    Fields(8, rd, r0, r1, low);
    Fields(10, rd, r0, r1, low);
    Fields(9, rd, r0, r1, low);
    Fields(5, rd, r0, r1, low);
  }

  // Classes from 14 up are no instructions, and no others are invalid.
  lemma NoInstruction(pc: Word, inst: Word, word: Word)
    ensures Decode(pc, inst, word).Invalid? <==> inst / 0x400_0000 >= 14
  {
    assert Class(inst) == inst / 0x400_0000;
    hide Class, Field;
  }
}
