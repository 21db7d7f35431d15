// What the instructions are for, said of the machine's registers and memory alone.
module SklLaws {
  import opened Words
  import opened SklFlags
  import O3
  import opened SklCpu
  import opened SklEncode
  import opened SklRun
  import opened SklMachine

  // Nothing but register `rd` has changed, and the pc has gone on by `bytes`.
  predicate Only(s: Cpu, t: Cpu, rd: nat, bytes: nat) {
    && |s.r| == |t.r| && t == s.(r := t.r, pc := t.pc) && t.pc == (s.pc + bytes) % 0x1_0000_0000
    && forall i :: 0 <= i < |s.r| && i != rd ==> t.r[i] == s.r[i]
  }

  // A hardware trap, after which the pc went on by `bytes`. The emulator gives up if it happens
  // while another is being handled.
  predicate Trapped(s: Cpu, t: Cpu, cause: nat, bytes: nat)
    requires |s.cr| == 6
  {
    if s.cr[2] / 32 % 4 != 0 then t.status == Fatal else
    && |t.cr| == 6 && t == s.(pc := t.pc, cr := t.cr, exc := true) && t.pc == (s.cr[1] + bytes) % 0x1_0000_0000
    && t.cr[0] == s.pc && t.cr[2] == 33 + 4 * cause && forall i :: 0 <= i < 6 && i != 0 && i != 2 ==> t.cr[i] == s.cr[i]
  }

  // A software trap: code in R1, the pc in R31, on at CR5.
  predicate Called(s: Cpu, t: Cpu, code: nat)
    requires |s.cr| == 6 && |s.r| == 32
  {
    && |t.r| == 32 && t == s.(r := t.r, pc := s.cr[5], exc := true)
    && t.r[1] == code && t.r[31] == s.pc && forall i :: 0 <= i < 31 && i != 1 ==> t.r[i] == s.r[i]
  }

  // The same but for a multiple of 2^32.
  predicate Alike(a: int, b: int) {
    (a - b) % 0x1_0000_0000 == 0
  }

  lemma WrapsAlike(x: int)
    ensures Alike(Wrap(x), x)
  {
    assert x == x / 0x1_0000_0000 * 0x1_0000_0000 + Wrap(x);
  }

  // ---- Arithmetic ----------------------------------------------------------------------------

  predicate Computes(op: GenOp, l: int, r: int, x: int) {
    (op.ADD? ==> Alike(x, l + r)) && (op.SUB? ==> Alike(x, l - r)) && (op.MUL? ==> Alike(x, l * r))
  }

  lemma ArithmeticEffect(s: Cpu, op: GenOp, rd: nat, r0: nat, r1: nat)
    requires s.Valid() && op in {ADD, SUB, MUL} && rd < 32 && r0 < 32 && r1 < 32
    ensures var t := Exec(s, Gen(op, rd, r0, r1)); Only(s, t, rd, 4) && Computes(op, s.r[r0], s.r[r1], t.r[rd])
  {
    hide Alike, Flags, O3.Div, O3.Mod, HardwareTrap;
    var l: int, r: int := s.r[r0], s.r[r1];
    var x := if op.ADD? then l + r else if op.SUB? then l - r else l * r;
    WrapsAlike(x);
  }

  method Arithmetic(m: Machine, op: GenOp, rd: nat, r0: nat, r1: nat)
    requires m.Valid() && op in {ADD, SUB, MUL} && rd < 32 && r0 < 32 && r1 < 32
    modifies m`pc, m`exc, m`status, m.R, m.CR, m.mem
    ensures m.Valid() && Only(old(m.State()), m.State(), rd, 4)
    ensures Computes(op, old(m.R[r0]), old(m.R[r1]), m.R[rd])
  {
    hide Exec, Computes;
    ArithmeticEffect(m.State(), op, rd, r0, r1);
    m.Interpret(Gen(op, rd, r0, r1));
  }

  // Quotient and remainder of a division that rounds down.
  predicate Divides(x: int, y: int, q: int, k: int) {
    x == y * q + k && if y > 0 then 0 <= k < y else y < k <= 0
  }

  lemma DivideEffect(s: Cpu, op: GenOp, rd: nat, r0: nat, r1: nat) returns (q: int, k: int)
    requires s.Valid() && op in {DIV, MOD} && rd < 32 && r0 < 32 && r1 < 32
    ensures var t := Exec(s, Gen(op, rd, r0, r1));
      if s.r[r1] == 0 then Trapped(s, t, 5, 4)
      else Only(s, t, rd, 4) && Divides(Signed(s.r[r0]), Signed(s.r[r1]), q, k) && Alike(t.r[rd], if op.DIV? then q else k)
  {
    hide Alike, O3.Div, O3.Mod;
    var x, y := Signed(s.r[r0]), Signed(s.r[r1]);
    q, k := 0, 0;
    if s.r[r1] != 0 {
      q, k := O3.Div(x, y), O3.Mod(x, y);
      O3.FloorDivision(x, y);
      WrapsAlike(q);
      WrapsAlike(k);
    }
  }

  // By zero it traps, and goes on at the word after the handler's first.
  method Divide(m: Machine, op: GenOp, rd: nat, r0: nat, r1: nat) returns (ghost q: int, ghost k: int)
    requires m.Valid() && op in {DIV, MOD} && rd < 32 && r0 < 32 && r1 < 32
    modifies m`pc, m`exc, m`status, m.R, m.CR, m.mem
    ensures m.Valid() && (old(m.R[r1]) == 0 ==> Trapped(old(m.State()), m.State(), 5, 4))
    ensures old(m.R[r1]) != 0 ==>
      && Only(old(m.State()), m.State(), rd, 4) && Divides(Signed(old(m.R[r0])), Signed(old(m.R[r1])), q, k)
      && Alike(m.R[rd], if op.DIV? then q else k)
  {
    hide Exec, Alike, Divides, Trapped, Signed;
    q, k := DivideEffect(m.State(), op, rd, r0, r1);
    m.Interpret(Gen(op, rd, r0, r1));
  }

  // The magnitude, which the least number alone does not have.
  predicate IsMagnitude(x: Word, w: Word) {
    if w == TWO31 then x == TWO31 else 0 <= Signed(x) && Signed(x) in {Signed(w), -Signed(w)}
  }

  lemma MagnitudeEffect(s: Cpu, rd: nat, r0: nat, r1: nat)
    requires s.Valid() && rd < 32 && r0 < 32 && r1 < 32
    ensures var t := Exec(s, Gen(ABS, rd, r0, r1)); Only(s, t, rd, 4) && IsMagnitude(t.r[rd], s.r[r1])
  {
  }

  method Magnitude(m: Machine, rd: nat, r0: nat, r1: nat)
    requires m.Valid() && rd < 32 && r0 < 32 && r1 < 32
    modifies m`pc, m`exc, m`status, m.R, m.CR, m.mem
    ensures m.Valid() && Only(old(m.State()), m.State(), rd, 4) && IsMagnitude(m.R[rd], old(m.R[r1]))
  {
    hide Exec, IsMagnitude;
    MagnitudeEffect(m.State(), rd, r0, r1);
    m.Interpret(Gen(ABS, rd, r0, r1));
  }

  // ---- Comparisons ---------------------------------------------------------------------------

  // The flags: equal, the difference negative, borrow, signed overflow.
  function FlagsOf(l: int, r: int): int {
    (if l == r then 1 else 0) + (if (l - r) % 0x1_0000_0000 >= 0x8000_0000 then 2 else 0) + (if l < r then 4 else 0)
    + (if -TWO31 <= (if l >= TWO31 then l - TWO32 else l) - (if r >= TWO31 then r - TWO32 else r) < TWO31 then 0 else 8)
  }

  lemma CompareEffect(s: Cpu, rd: nat, r0: nat, r1: nat)
    requires s.Valid() && rd < 32 && r0 < 32 && r1 < 32
    ensures var t := Exec(s, Gen(CMP, rd, r0, r1)); Only(s, t, rd, 4) && t.r[rd] == FlagsOf(s.r[r0], s.r[r1])
    ensures forall rel :: Relates(rel, FlagsOf(s.r[r0], s.r[r1])) <==> Compares(rel, s.r[r0], s.r[r1])
  {
    hide Flags, Relates, Compares;
    FlagsWord(s.r[r0], s.r[r1]);
    FlagsMean(s.r[r0], s.r[r1]);
  }

  method Compare(m: Machine, rd: nat, r0: nat, r1: nat)
    requires m.Valid() && rd < 32 && r0 < 32 && r1 < 32
    modifies m`pc, m`exc, m`status, m.R, m.CR, m.mem
    ensures m.Valid() && Only(old(m.State()), m.State(), rd, 4) && m.R[rd] == FlagsOf(old(m.R[r0]), old(m.R[r1]))
    ensures forall rel :: Relates(rel, m.R[rd]) <==> Compares(rel, old(m.R[r0]), old(m.R[r1]))
  {
    hide Exec, FlagsOf, Relates, Compares;
    CompareEffect(m.State(), rd, r0, r1);
    m.Interpret(Gen(CMP, rd, r0, r1));
  }

  lemma FlagsMean(l: Word, r: Word)
    ensures forall rel :: Relates(rel, Flags(l, r)) <==> Compares(rel, l, r)
  {
    hide Flags, Relates, Compares;
    forall rel ensures Relates(rel, Flags(l, r)) <==> Compares(rel, l, r) {
      Relations(rel, l, r);
    }
  }

  // A comparison and a jump on it: it is taken exactly when the relation held of the operands.
  method CompareAndBranch(m: Machine, rd: nat, r0: nat, r1: nat, rel: Relation, dest: Word)
    requires m.Valid() && rd < 32 && r0 < 32 && r1 < 32
    modifies m`pc, m`exc, m`status, m.R, m.CR, m.mem
    ensures m.Valid() && forall i :: 0 <= i < 32 && i != rd ==> m.R[i] == old(m.R[i])
    ensures m.pc as int == if Compares(rel, old(m.R[r0]), old(m.R[r1])) then dest else (old(m.pc) as int + 12) % 0x1_0000_0000
  {
    hide Flags, Relates, Compares;
    Compare(m, rd, r0, r1);
    m.Interpret(Branch(rel, rd, dest));
  }

  // A comparison and its outcome as a number.
  method CompareAndSet(m: Machine, rd: nat, r0: nat, r1: nat, rel: Relation, to: nat)
    requires m.Valid() && rd < 32 && r0 < 32 && r1 < 32 && to < 32
    modifies m`pc, m`exc, m`status, m.R, m.CR, m.mem
    ensures m.Valid() && forall i :: 0 <= i < 32 && i != rd && i != to ==> m.R[i] == old(m.R[i])
    ensures m.R[to] == if Compares(rel, old(m.R[r0]), old(m.R[r1])) then 1 else 0
    ensures m.pc as int == (old(m.pc) as int + 8) % 0x1_0000_0000
  {
    hide Flags, Relates, Compares;
    Compare(m, rd, r0, r1);
    m.Interpret(Set(rel, to, rd));
  }

  // ---- Memory --------------------------------------------------------------------------------

  // `ea` is base + index * 2^scale + offset, modulo 2^32.
  predicate Points(r: seq<Word>, base: nat, index: nat, scale: nat, offset: Word, ea: Word)
    requires |r| == 32 && base < 32 && index < 32 && scale < 4
  {
    Alike(ea, r[base] as int + r[index] as int * [1, 2, 4, 8][scale] + offset as int)
  }

  lemma PointsIs(r: seq<Word>, base: nat, index: nat, scale: nat, offset: Word, ea: Word)
    requires |r| == 32 && base < 32 && index < 32 && scale < 4 && Points(r, base, index, scale, offset, ea)
    ensures EffectiveAddress(r[base], r[index], scale, offset) == ea
  {
    var b: int, shifted, o: int := r[base], r[index] as int * [1, 2, 4, 8][scale], offset;
    assert Power2(scale) == [1, 2, 4, 8][scale];
    WrapsAlike(shifted);
    WrapsAlike(b + Wrap(shifted) + o);
    SameWord(Wrap(b + Wrap(shifted) + o), b + Wrap(shifted) + o, b + shifted + o, ea);
  }

  lemma SameWord(x: Word, a: int, b: int, y: Word)
    requires Alike(x, a) && Alike(a, b) && Alike(y, b)
    ensures x == y
  {
  }

  // All of it lies before the last byte of memory.
  predicate Within(s: Cpu, ea: int, size: nat) {
    s.beg <= ea && ea + size < s.beg + |s.mem|
  }

  // What the bounds check does not let pass.
  predicate Refused(s: Cpu, ea: int, size: nat) {
    !(s.beg <= ea && (ea + size) % 0x1_0000_0000 < s.beg + |s.mem|)
  }

  predicate PutApart(v: Word, mem: seq<Byte>, at: nat, size: nat)
    requires size in {1, 2, 4} && at + size <= |mem|
  {
    && mem[at] == v % 0x100 && (size > 1 ==> mem[at + 1] == v / 0x100 % 0x100)
    && (size > 2 ==> mem[at + 2] == v / 0x1_0000 % 0x100 && mem[at + 3] == v / 0x100_0000)
  }

  // The low `size` bytes of `v` are at `ea`, the lowest first, and nothing else has changed.
  predicate Stored(s: Cpu, t: Cpu, ea: int, size: nat, v: Word)
    requires size in {1, 2, 4} && Within(s, ea, size)
  {
    && |t.mem| == |s.mem| && t == s.(mem := t.mem, pc := t.pc) && t.pc == (s.pc + 8) % 0x1_0000_0000
    && PutApart(v, t.mem, ea - s.beg, size)
    && forall i :: 0 <= i < |s.mem| && !(ea - s.beg <= i < ea - s.beg + size) ==> t.mem[i] == s.mem[i]
  }

  // The bytes at `at` put together, the lowest first, with their sign extended.
  predicate PutTogether(x: int, mem: seq<Byte>, at: nat, size: nat, signed: bool)
    requires size in {1, 2, 4} && at + size <= |mem|
  {
    var b: int := mem[at];
    if size == 1 then x == b + (if signed && b >= 0x80 then 0xFFFF_FF00 else 0) else
    var c: int := mem[at + 1];
    if size == 2 then x == b + 0x100 * c + (if signed && c >= 0x80 then 0xFFFF_0000 else 0) else
    var d: int, e: int := mem[at + 2], mem[at + 3];
    x == b + 0x100 * c + 0x1_0000 * d + 0x100_0000 * e
  }

  lemma StoreEffect(s: Cpu, size: nat, rd: nat, base: nat, index: nat, scale: nat, offset: Word, ea: Word)
    requires s.Valid() && size in {1, 2, 4} && rd < 32 && base < 32 && index < 32 && scale < 4
    requires Points(s.r, base, index, scale, offset, ea)
    ensures var t := Exec(s, StoreInt(size, rd, base, index, scale, offset));
      (Refused(s, ea, size) ==> Trapped(s, t, 4, 0)) && (Within(s, ea, size) ==> Stored(s, t, ea, size, s.r[rd]))
  {
    hide EffectiveAddress, Points, Store, Bytes, HardwareTrap, Trapped, PutApart;
    PointsIs(s.r, base, index, scale, offset, ea);
    TrapEffect(s, OutOfBoundsWrite);
    if Within(s, ea, size) {
      BytesAre(s.mem, ea - s.beg, s.r[rd], size);
    }
  }

  lemma BytesAre(mem: seq<Byte>, at: nat, v: Word, size: nat)
    requires size in {1, 2, 4} && at + size <= |mem|
    ensures PutApart(v, Store(mem, at, Bytes(v, size)), at, size)
    ensures |Bytes(v, size)| == size
  {
    hide Store;
    var b, m := Bytes(v, size), Store(mem, at, Bytes(v, size));
    assert m[at] == b[0] && (size > 1 ==> m[at + 1] == b[1]) && (size > 2 ==> m[at + 2] == b[2] && m[at + 3] == b[3]);
  }

  lemma LoadIs(mem: seq<Byte>, at: nat, size: nat, signed: bool)
    requires size in {1, 2, 4} && at + size <= |mem|
    ensures PutTogether(Extend(Load(mem, at, size), size, signed), mem, at, size, signed)
  {
  }

  function CauseNumber(c: Cause): nat {
    match c
    case InvalidOpcode => 0
    case OutOfBoundsRead => 3
    case OutOfBoundsWrite => 4
    case DivideByZero => 5
  }

  lemma TrapEffect(s: Cpu, c: Cause)
    requires s.Valid()
    ensures Trapped(s, HardwareTrap(s, c), CauseNumber(c), 0)
  {
  }

  lemma LoadEffect(s: Cpu, size: nat, signed: bool, rd: nat, base: nat, index: nat, scale: nat, offset: Word, ea: Word)
    requires s.Valid() && size in {1, 2, 4} && rd < 32 && base < 32 && index < 32 && scale < 4
    requires Points(s.r, base, index, scale, offset, ea)
    ensures var t := Exec(s, LoadInt(size, signed, rd, base, index, scale, offset));
      && (Refused(s, ea, size) ==> Trapped(s, t, 3, 0))
      && (Within(s, ea, size) ==> Only(s, t, rd, 8) && PutTogether(t.r[rd], s.mem, ea - s.beg, size, signed))
  {
    hide EffectiveAddress, Points, Load, Extend, HardwareTrap, Trapped, PutTogether;
    PointsIs(s.r, base, index, scale, offset, ea);
    TrapEffect(s, OutOfBoundsRead);
    if Within(s, ea, size) {
      LoadIs(s.mem, ea - s.beg, size, signed);
    }
  }

  method Stores(m: Machine, size: nat, rd: nat, base: nat, index: nat, scale: nat, offset: Word, ghost ea: Word)
    requires m.Valid() && size in {1, 2, 4} && rd < 32 && base < 32 && index < 32 && scale < 4
    requires Points(m.R[..], base, index, scale, offset, ea)
    modifies m`pc, m`exc, m`status, m.R, m.CR, m.mem
    ensures m.Valid() && (Refused(old(m.State()), ea, size) ==> Trapped(old(m.State()), m.State(), 4, 0))
    ensures Within(old(m.State()), ea, size) ==> Stored(old(m.State()), m.State(), ea, size, old(m.R[rd]))
  {
    hide EffectiveAddress, Points, Exec, Stored, Trapped, Refused;
    StoreEffect(m.State(), size, rd, base, index, scale, offset, ea);
    m.Interpret(StoreInt(size, rd, base, index, scale, offset));
  }

  method Loads(m: Machine, size: nat, signed: bool, rd: nat, base: nat, index: nat, scale: nat, offset: Word, ghost ea: Word)
    requires m.Valid() && size in {1, 2, 4} && rd < 32 && base < 32 && index < 32 && scale < 4
    requires Points(m.R[..], base, index, scale, offset, ea)
    modifies m`pc, m`exc, m`status, m.R, m.CR, m.mem
    ensures m.Valid() && (Refused(old(m.State()), ea, size) ==> Trapped(old(m.State()), m.State(), 3, 0))
    ensures Within(old(m.State()), ea, size) ==>
      Only(old(m.State()), m.State(), rd, 8) && PutTogether(m.R[rd], old(m.mem[..]), ea - m.beg, size, signed)
  {
    hide EffectiveAddress, Points, Exec, Trapped, Refused, PutTogether;
    LoadEffect(m.State(), size, signed, rd, base, index, scale, offset, ea);
    m.Interpret(LoadInt(size, signed, rd, base, index, scale, offset));
  }

  // What is read of `size` bytes of `v`.
  function Extended(v: Word, size: nat, signed: bool): int
    requires size in {1, 2, 4}
  {
    var x := v % (if size == 1 then 0x100 else if size == 2 then 0x1_0000 else 0x1_0000_0000);
    if !signed || size == 4 then x
    else if size == 1 then (if x >= 0x80 then x + 0xFFFF_FF00 else x)
    else if x >= 0x8000 then x + 0xFFFF_0000 else x
  }

  lemma ReadsBack(s: Cpu, t: Cpu, ea: int, size: nat, v: Word, x: int, signed: bool)
    requires size in {1, 2, 4} && Within(s, ea, size) && Stored(s, t, ea, size, v) && PutTogether(x, t.mem, ea - s.beg, size, signed)
    ensures x == Extended(v, size, signed)
  {
    BytesTogether(v);
  }

  lemma BytesTogether(v: Word)
    ensures v % 0x100 + 0x100 * (v / 0x100 % 0x100) == v % 0x1_0000
    ensures v % 0x100 + 0x100 * (v / 0x100 % 0x100) + 0x1_0000 * (v / 0x1_0000 % 0x100) + 0x100_0000 * (v / 0x100_0000) == v
    ensures v % 0x1_0000_0000 == v
  {
  }

  // A load of what has been stored gives its low bytes, with or without their sign.
  method StoreAndLoad(m: Machine, size: nat, signed: bool, rs: nat, rd: nat, base: nat, index: nat, scale: nat, offset: Word, ghost ea: Word)
    requires m.Valid() && size in {1, 2, 4} && rs < 32 && rd < 32 && base < 32 && index < 32 && scale < 4
    requires Points(m.R[..], base, index, scale, offset, ea) && Within(m.State(), ea, size)
    modifies m`pc, m`exc, m`status, m.R, m.CR, m.mem
    ensures m.Valid() && m.R[rd] == Extended(old(m.R[rs]), size, signed)
    ensures forall i :: 0 <= i < 32 && i != rd ==> m.R[i] == old(m.R[i])
  {
    hide Points, PutTogether, Extended, Trapped, Refused;
    ghost var s := m.State();
    Stores(m, size, rs, base, index, scale, offset, ea);
    ghost var t := m.State();
    assert t.r == s.r;
    Loads(m, size, signed, rd, base, index, scale, offset, ea);
    ReadsBack(s, t, ea, size, s.r[rs], m.R[rd], signed);
  }

  // ---- Addresses and jumps -------------------------------------------------------------------

  lemma AddressEffect(s: Cpu, rd: nat, base: nat, index: nat, scale: nat, offset: Word, ea: Word)
    requires s.Valid() && rd < 32 && base < 32 && index < 32 && scale < 4 && Points(s.r, base, index, scale, offset, ea)
    ensures var t := Exec(s, LoadAddr(rd, base, index, scale, offset)); Only(s, t, rd, 8) && t.r[rd] == ea
  {
    hide EffectiveAddress, Points;
    PointsIs(s.r, base, index, scale, offset, ea);
  }

  lemma ImmediateEffect(s: Cpu, rd: nat, base: nat, cdata: Word)
    requires s.Valid() && rd < 32 && base < 32
    ensures var t := Exec(s, LoadImm(rd, base, cdata)); Only(s, t, rd, 8) && Alike(t.r[rd], s.r[base] as int + cdata)
  {
    hide Alike;
    WrapsAlike(s.r[base] as int + cdata);
  }

  method Addresses(m: Machine, rd: nat, base: nat, index: nat, scale: nat, offset: Word, ghost ea: Word)
    requires m.Valid() && rd < 32 && base < 32 && index < 32 && scale < 4 && Points(m.R[..], base, index, scale, offset, ea)
    modifies m`pc, m`exc, m`status, m.R, m.CR, m.mem
    ensures m.Valid() && Only(old(m.State()), m.State(), rd, 8) && m.R[rd] == ea
  {
    hide Exec, Points;
    AddressEffect(m.State(), rd, base, index, scale, offset, ea);
    m.Interpret(LoadAddr(rd, base, index, scale, offset));
  }

  method Immediate(m: Machine, rd: nat, base: nat, cdata: Word)
    requires m.Valid() && rd < 32 && base < 32
    modifies m`pc, m`exc, m`status, m.R, m.CR, m.mem
    ensures m.Valid() && Only(old(m.State()), m.State(), rd, 8) && Alike(m.R[rd], old(m.R[base]) as int + cdata)
  {
    hide Exec, Alike;
    ImmediateEffect(m.State(), rd, base, cdata);
    m.Interpret(LoadImm(rd, base, cdata));
  }

  // A call leaves its return address in R31, or in the register named, and a jump to what is there
  // returns; a plain jump changes the pc alone.
  method CallAndReturn(m: Machine, dest: Word, ret: Word, link: nat, ret': Word)
    requires m.Valid() && link < 32
    modifies m`pc, m`exc, m`status, m.R, m.CR, m.mem
    ensures m.Valid() && m.pc == ret && m.R[link] == ret' && (link != 31 ==> m.R[31] == ret)
    ensures forall i :: 0 <= i < 31 && i != link ==> m.R[i] == old(m.R[i])
  {
    m.Interpret(Jump(ret));
    assert m.pc == ret && m.State() == old(m.State()).(pc := ret);
    m.Interpret(JumpLink(dest, ret));
    assert m.pc == dest;
    m.Interpret(JumpRegLink(link, 31, ret'));
  }

  // ---- The stack -----------------------------------------------------------------------------

  // Four bytes at `ea`, the lowest first.
  predicate WordIs(s: Cpu, ea: int, w: Word)
    requires Within(s, ea, 4)
  {
    PutApart(w, s.mem, ea - s.beg, 4)
  }

  predicate SameElsewhere(s: Cpu, t: Cpu, from: int, size: nat) {
    |t.mem| == |s.mem| && forall i :: 0 <= i < |s.mem| && !(from - s.beg <= i < from - s.beg + size) ==> t.mem[i] == s.mem[i]
  }

  // Pushing goes down by a word and stores there.
  lemma PushEffect(s: Cpu, rd: nat)
    requires s.Valid() && rd < 32 && !s.exc && s.status == Running
    ensures var t, sp: int := Exec(s, Push(rd)), s.r[30] as int - 4;
      && (Refused(s, sp % 0x1_0000_0000, 4) ==> Trapped(s, t, 4, 0))
      && (Within(s, sp, 4) ==>
            && t == s.(mem := t.mem, r := t.r, pc := t.pc) && |t.r| == 32 && t.pc == (s.pc + 4) % 0x1_0000_0000
            && SameElsewhere(s, t, sp, 4) && WordIs(t, sp, s.r[rd]) && t.r == s.r[30 := sp])
  {
    hide Bytes, Store, HardwareTrap, Trapped, PutApart;
    var sp := s.r[30] as int - 4;
    TrapEffect(s, OutOfBoundsWrite);
    if Within(s, sp, 4) {
      BytesAre(s.mem, sp - s.beg, s.r[rd], 4);
    }
  }

  lemma WordRead(s: Cpu, ea: int, w: Word)
    requires Within(s, ea, 4) && WordIs(s, ea, w)
    ensures Load(s.mem, ea - s.beg, 4) == w
  {
    BytesTogether(w);
  }

  // Popping reads the word there and goes up.
  lemma PopEffect(s: Cpu, rd: nat, w: Word)
    requires s.Valid() && rd < 32 && !s.exc && s.status == Running
    ensures var t, sp: int := Exec(s, Pop(rd)), s.r[30];
      && (Refused(s, sp, 4) ==> Trapped(s, t, 3, 0))
      && (Within(s, sp, 4) && WordIs(s, sp, w) ==>
            t == s.(r := t.r, pc := t.pc) && t.pc == (s.pc + 4) % 0x1_0000_0000 && t.r == s.r[30 := sp + 4][rd := w])
  {
    hide Load, HardwareTrap, Trapped, WordIs;
    var sp: int := s.r[30];
    TrapEffect(s, OutOfBoundsRead);
    if Within(s, sp, 4) && WordIs(s, sp, w) {
      WordRead(s, sp, w);
    }
  }

  // What is pushed is popped, and the stack pointer is where it was.
  method PushAndPop(m: Machine, rs: nat, rd: nat)
    requires m.Valid() && rs < 32 && rd < 32 && rd != 30 && !m.exc && m.status == Running && Within(m.State(), m.R[30] as int - 4, 4)
    modifies m`pc, m`exc, m`status, m.R, m.CR, m.mem
    ensures m.Valid() && m.R[rd] == old(m.R[rs]) && forall i :: 0 <= i < 32 && i != rd ==> m.R[i] == old(m.R[i])
  {
    hide Exec, WordIs, Trapped, Refused;
    ghost var w := m.R[rs];
    PushEffect(m.State(), rs);
    m.Interpret(Push(rs));
    PopEffect(m.State(), rd, w);
    m.Interpret(Pop(rd));
  }

  // ENTER saves the return address and the frame register in two words, points the register at
  // them, and makes room for `words` more.
  lemma EnterEffect(s: Cpu, rd: nat, words: nat)
    requires s.Valid() && rd < 30 && words < 0x1_0000 && !s.exc && s.status == Running && Within(s, s.r[30] as int - 8, 8)
    ensures var t, sp: int := Exec(s, Enter(rd, words)), s.r[30];
      && t == s.(mem := t.mem, r := t.r, pc := t.pc) && t.pc == (s.pc + 4) % 0x1_0000_0000
      && SameElsewhere(s, t, sp - 8, 8) && WordIs(t, sp - 4, s.r[31]) && WordIs(t, sp - 8, s.r[rd])
      && |t.r| == 32 && t.r[rd] == sp - 8 && t.r[30] as int == (sp - 8 - 4 * words) % 0x1_0000_0000
      && forall i :: 0 <= i < 32 && i != rd && i != 30 ==> t.r[i] == s.r[i]
  {
    hide Exec, Write, PutApart;
    var sp: int := s.r[30];
    var t := Write(s, sp - 4, s.r[31], 4);
    WriteEffect(s, sp - 4, s.r[31]);
    var u := Write(t, sp - 8, s.r[rd], 4);
    WriteEffect(t, sp - 8, s.r[rd]);
    Elsewhere(s, t, u, sp);
    EnterIs(s, t, u, rd, words);
    ApartStays(t.mem, u.mem, sp - 4 - s.beg, s.r[31]);
  }

  // Once the two words are written.
  lemma EnterIs(s: Cpu, t: Cpu, u: Cpu, rd: nat, words: nat)
    requires s.Valid() && rd < 30 && words < 0x1_0000 && !s.exc && s.status == Running && Within(s, s.r[30] as int - 8, 8)
    requires t == Write(s, s.r[30] as int - 4, s.r[31], 4) && t == s.(mem := t.mem)
    requires t.Valid() && u == Write(t, s.r[30] as int - 8, s.r[rd], 4) && u == t.(mem := u.mem)
    ensures var sp: int := s.r[30];
      var below: int := sp - 8 - 4 * words;
      Exec(s, Enter(rd, words)) == u.(r := s.r[30 := below % 0x1_0000_0000][rd := sp - 8], pc := (s.pc + 4) % 0x1_0000_0000)
  {
    hide Write;
  }

  lemma WriteEffect(s: Cpu, ea: Word, w: Word)
    requires s.Valid() && Within(s, ea, 4)
    ensures var t := Write(s, ea, w, 4);
      |t.mem| == |s.mem| && t == s.(mem := t.mem) && SameElsewhere(s, t, ea, 4) && WordIs(t, ea, w)
  {
    hide Bytes, Store, PutApart;
    BytesAre(s.mem, ea - s.beg, w, 4);
  }

  lemma Elsewhere(s: Cpu, t: Cpu, u: Cpu, sp: int)
    requires s.beg == t.beg && SameElsewhere(s, t, sp - 4, 4) && SameElsewhere(t, u, sp - 8, 4) && s.beg <= sp - 8 && sp < s.beg + |s.mem|
    ensures SameElsewhere(s, u, sp - 8, 8) && forall i :: sp - 4 - s.beg <= i < sp - s.beg ==> u.mem[i] == t.mem[i]
  {
  }

  lemma ApartStays(mem: seq<Byte>, mem': seq<Byte>, at: nat, w: Word)
    requires |mem| == |mem'| && at + 4 <= |mem| && PutApart(w, mem, at, 4)
    requires forall i :: at <= i < at + 4 ==> mem'[i] == mem[i]
    ensures PutApart(w, mem', at, 4)
  {
  }

  // LEAVE takes them back, and `words` arguments off the stack.
  lemma LeaveEffect(s: Cpu, rd: nat, words: nat, saved: Word, ret: Word)
    requires s.Valid() && rd < 30 && words < 0x1_0000 && !s.exc && s.status == Running && Within(s, s.r[rd], 8)
    requires WordIs(s, s.r[rd], saved) && WordIs(s, s.r[rd] as int + 4, ret)
    ensures var t, fp: int := Exec(s, Leave(rd, words)), s.r[rd];
      && t == s.(r := t.r, pc := t.pc) && t.pc == (s.pc + 4) % 0x1_0000_0000 && |t.r| == 32
      && t.r[31] == ret && t.r[rd] == saved && t.r[30] as int == (fp + 8 + 4 * words) % 0x1_0000_0000
      && forall i :: 0 <= i < 30 && i != rd ==> t.r[i] == s.r[i]
  {
    hide Load, WordIs;
    WordRead(s, s.r[rd], saved);
    WordRead(s, s.r[rd] as int + 4, ret);
  }

  // A frame entered and left: the frame register, the return address and the stack pointer are
  // what they were, with the arguments off the stack.
  method EnterAndLeave(m: Machine, rd: nat, words: nat, args: nat)
    requires m.Valid() && rd < 30 && words < 0x1_0000 && args < 0x1_0000 && !m.exc && m.status == Running
    requires Within(m.State(), m.R[30] as int - 8, 8)
    modifies m`pc, m`exc, m`status, m.R, m.CR, m.mem
    ensures m.Valid() && (forall i :: 0 <= i < 32 && i != 30 ==> m.R[i] == old(m.R[i]))
    ensures m.R[30] as int == (old(m.R[30]) as int + 4 * args) % 0x1_0000_0000
  {
    hide Exec, WordIs, SameElsewhere;
    ghost var s := m.State();
    EnterEffect(s, rd, words);
    m.Interpret(Enter(rd, words));
    LeaveEffect(m.State(), rd, args, s.r[rd], s.r[31]);
    m.Interpret(Leave(rd, args));
  }

  // ---- Software traps ------------------------------------------------------------------------

  // A pointer may not be NIL, a value must be in its range, an index below the length.
  predicate Allowed(s: Cpu, d: Instr)
    requires s.Valid() && d.Valid() && (d.TrapNil? || d.TrapRange? || d.TrapArray?)
  {
    match d
    case TrapNil(_, r0) => s.r[r0] != 0
    case TrapRange(lo, hi, r0) => lo <= (if s.r[r0] >= TWO31 then s.r[r0] as int - TWO32 else s.r[r0]) <= hi
    case TrapArray(rd, r0) => s.r[r0] < TWO31 && s.r[r0] < s.r[rd]
  }

  lemma TrapLaw(s: Cpu, d: Instr)
    requires s.Valid() && d.Valid() && (d.TrapNil? || d.TrapRange? || d.TrapArray?) && (d.TrapNil? ==> d.code < 0x100)
    ensures var t := Exec(s, d);
      if Allowed(s, d) then t == s.(pc := t.pc) && t.pc == (s.pc + 4) % 0x1_0000_0000
      else Called(s, t, if d.TrapNil? then d.code else if d.TrapRange? then 12 else 13)
  {
  }

  method Checks(m: Machine, d: Instr)
    requires m.Valid() && d.Valid() && (d.TrapNil? || d.TrapRange? || d.TrapArray?) && (d.TrapNil? ==> d.code < 0x100)
    modifies m`pc, m`exc, m`status, m.R, m.CR, m.mem
    ensures m.Valid() && if Allowed(old(m.State()), d) then
        m.State() == old(m.State()).(pc := m.pc) && m.pc as int == (old(m.pc) as int + 4) % 0x1_0000_0000
      else Called(old(m.State()), m.State(), if d.TrapNil? then d.code else if d.TrapRange? then 12 else 13)
  {
    hide Exec, Allowed, Called;
    TrapLaw(m.State(), d);
    m.Interpret(d);
  }

  // ---- Beyond the model ----------------------------------------------------------------------

  // The address of the first access.
  predicate Accesses(s: Cpu, a: Access, ea: Word)
    requires s.Valid() && a.Valid()
  {
    match a
    case Nowhere => true
    case PointedAt(reg) => ea == s.r[reg]
    case Indexed(base, index, scale, offset, _, _) => Points(s.r, base, index, scale, offset, ea)
    case Pushed(_) => ea == (s.r[30] as int - 4) % 0x1_0000_0000
    case Popped(_) => ea == s.r[30]
  }

  predicate Gone(s: Cpu, t: Cpu, bytes: nat) {
    t == s.(pc := t.pc, status := Outside) && t.pc == (s.pc + bytes) % 0x1_0000_0000
  }

  // They trap if the access is refused; with the flag up they stop there; else they go on.
  lemma AccessEffect(s: Cpu, inst: Word, words: nat, a: Access, ea: Word)
    requires s.Valid() && Beyond(inst, words, a).Valid() && s.status == Running && Accesses(s, a, ea)
    ensures var t, writes := Exec(s, Beyond(inst, words, a)), a.Pushed? || (a.Indexed? && a.write);
      var size := if a.Indexed? then a.size else 4;
      if a.Nowhere? then Gone(s, t, 4 * words)
      else
        && (Refused(s, ea, size) ==> Trapped(s, t, if writes then 4 else 3, 0))
        && (Within(s, ea, size) && s.exc ==> t == if writes then s.(status := Outside) else s)
        && (Within(s, ea, size) && !s.exc && (a.PointedAt? || a.Indexed?) ==> Gone(s, t, 4 * words))
  {
    hide HardwareTrap, Trapped, EffectiveAddress, Points, ExecWords;
    if a.Indexed? {
      PointsIs(s.r, a.base, a.index, a.scale, a.offset, ea);
    }
    TrapEffect(s, OutOfBoundsRead);
    TrapEffect(s, OutOfBoundsWrite);
  }

  // PUSHF, PUSHD, POPF and POPD move the stack pointer by one word or two.
  lemma StackEffect(s: Cpu, inst: Word, a: Access)
    requires s.Valid() && Beyond(inst, 1, a).Valid() && s.status == Running && !s.exc && (a.Pushed? || a.Popped?)
    requires var bytes := 4 * a.count; Within(s, if a.Pushed? then s.r[30] as int - bytes else s.r[30], bytes)
    ensures var t, bytes := Exec(s, Beyond(inst, 1, a)), 4 * a.count;
      && t == s.(r := t.r, pc := t.pc, status := Outside) && t.pc == (s.pc + 4) % 0x1_0000_0000
      && t.r == s.r[30 := if a.Pushed? then s.r[30] as int - bytes else s.r[30] as int + bytes]
  {
    hide HardwareTrap, SecondPush, SecondPop, Cpu.Valid;
    RangeOf(s);
    if a.count == 2 {
      if a.Pushed? {
        SecondPushEffect(SetReg(s, SP, s.r[30] as int - 4));
      } else {
        SecondPopEffect(SetReg(s, SP, s.r[30] as int + 4));
      }
    }
  }

  lemma RangeOf(s: Cpu)
    requires s.Valid()
    ensures 4096 <= s.beg && s.beg + |s.mem| < 0x4000_0000 && |s.r| == 32
  {
  }

  lemma SecondPushEffect(s: Cpu)
    requires s.Valid() && s.status == Running && Within(s, s.r[30] as int - 4, 4)
    ensures SecondPush(s) == s.(r := s.r[30 := s.r[30] as int - 4], pc := Wrap(s.pc + 4), status := Outside)
  {
  }

  lemma SecondPopEffect(s: Cpu)
    requires s.Valid() && s.status == Running && Within(s, s.r[30], 4)
    ensures SecondPop(s) == s.(r := s.r[30 := s.r[30] as int + 4], pc := Wrap(s.pc + 4), status := Outside)
  {
  }

  // ---- Fetching ------------------------------------------------------------------------------

  // The words of an instruction in memory are that instruction.
  lemma FetchEffect(s: Cpu, i: Instr)
    requires s.Valid() && s.status == Running && Encodable(s.pc, i) && Within(s, s.pc, 4 * i.Words())
    requires WordIs(s, s.pc, EncodeInstr(i)) && (i.Words() == 2 ==> WordIs(s, s.pc as int + 4, OperandOf(s.pc, i)))
    ensures Fetch(s) == (Some(i), s.(exc := false))
  {
    hide Decode, Load, WordIs, HardwareTrap, EncodeInstr, Operands, OperandOf, Encodable;
    OneOrTwo(s.pc, i);
    WordRead(s, s.pc, EncodeInstr(i));
    if i.Words() == 2 {
      WordRead(s, s.pc as int + 4, OperandOf(s.pc, i));
    }
    RoundTrip(s.pc, i, if i.Words() == 2 then OperandOf(s.pc, i) else 0);
  }

  lemma OneOrTwo(pc: Word, i: Instr)
    requires Encodable(pc, i)
    ensures i.Words() in {1, 2} && !i.Beyond?
  {
  }

  // A word that is no instruction traps.
  lemma InvalidEffect(s: Cpu, w: Word)
    requires s.Valid() && s.status == Running && Within(s, s.pc, 4) && WordIs(s, s.pc, w) && w / 0x400_0000 >= 14
    ensures Fetch(s).0.None? && Trapped(s.(exc := false), Fetch(s).1, 0, 0)
  {
    hide Decode, Load, WordIs, HardwareTrap, Trapped, Operands;
    WordRead(s, s.pc, w);
    NoInstruction(s.pc, w, 0);
    NoOperands(w);
    TrapEffect(s.(exc := false), InvalidOpcode);
  }

  lemma NoOperands(w: Word)
    requires w / 0x400_0000 >= 14
    ensures Operands(w) == 0
  {
    assert Class(w) == w / 0x400_0000;
    hide Class;
  }

  // So what the machine caches is what was encoded.
  method Fetches(m: Machine, i: Instr) returns (e: Instruction?)
    requires m.Valid() && m.Linked() && m.status == Running && Cacheable(m.State(), m.pc) && m.cache[m.Index(m.pc)] == null
    requires Encodable(m.pc, i) && Within(m.State(), m.pc, 4 * i.Words()) && WordIs(m.State(), m.pc, EncodeInstr(i))
    requires i.Words() == 2 ==> WordIs(m.State(), m.pc as int + 4, OperandOf(m.pc, i))
    modifies m`pc, m`exc, m`status, m`made, m.CR, m.cache
    ensures m.Valid() && m.Linked() && e != null && e.op == i && e.pc == old(m.pc) && m.State() == old(m.State()).(exc := false)
    ensures m.cache[..] == old(m.cache[..])[if e.pc == 0 then 0 else e.pc as int - (m.beg as int - 12) := e]
  {
    hide Fetch, WordIs, Machine.Linked, EncodeInstr, OperandOf, Encodable;
    FetchEffect(m.State(), i);
    e := m.FetchAndCache();
  }
}
