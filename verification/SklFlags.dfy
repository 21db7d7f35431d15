// Compare-flag synthesis and the ten relations read off the flags.
module SklFlags {
  import opened Words

  datatype Relation = EQ | NE | LT | GE | LE | GT | LTU | GEU | LEU | GTU

  // ---- Bit operations ----------------------------------------------------------------

  datatype Op = AND | OR | XOR

  predicate Apply(op: Op, a: bool, b: bool) {
    match op
    case AND => a && b
    case OR => a || b
    case XOR => a != b
  }

  lemma {:induction false} PowSum(a: nat, b: nat)
    ensures Pow2(a + b) == Pow2(a) * Pow2(b)
  {
    if a > 0 {
      PowSum(a - 1, b);
    }
  }

  lemma WordSize()
    ensures Pow2(31) == TWO31 && Pow2(32) == TWO32
  {
    PowSum(2, 2);
    PowSum(4, 4);
    PowSum(8, 8);
    PowSum(16, 16);
  }

  // Bit `k` of `x`.
  predicate BitAt(x: nat, k: nat) {
    if k == 0 then x % 2 == 1 else BitAt(x / 2, k - 1)
  }

  // The lower `n` bits of `x` and `y` put together one by one.
  function Bitwise(op: Op, x: nat, y: nat, n: nat): (r: nat)
    ensures r < Pow2(n)
  {
    if n == 0 then 0 else
      2 * Bitwise(op, x / 2, y / 2, n - 1) + (if Apply(op, x % 2 == 1, y % 2 == 1) then 1 else 0)
  }

  function Word32(op: Op, x: Word, y: Word): Word {
    WordSize();
    Bitwise(op, x, y, 32)
  }

  lemma {:induction false} BitOf(op: Op, x: nat, y: nat, n: nat, k: nat)
    requires k < n
    ensures BitAt(Bitwise(op, x, y, n), k) == Apply(op, BitAt(x, k), BitAt(y, k))
  {
    var low := if Apply(op, x % 2 == 1, y % 2 == 1) then 1 else 0;
    var high := Bitwise(op, x / 2, y / 2, n - 1);
    assert (2 * high + low) % 2 == low && (2 * high + low) / 2 == high;
    if k > 0 {
      BitOf(op, x / 2, y / 2, n - 1, k - 1);
    }
  }

  lemma {:induction false} NoBits(x: nat, n: nat)
    requires x < Pow2(n) && forall k: nat :: k < n ==> !BitAt(x, k)
    ensures x == 0
  {
    if n > 0 {
      assert !BitAt(x, 0);
      forall k: nat | k < n - 1 ensures !BitAt(x / 2, k) {
        assert !BitAt(x, k + 1);
      }
      NoBits(x / 2, n - 1);
    }
  }

  lemma {:induction false} ZeroBit(k: nat)
    ensures !BitAt(0, k)
  {
    if k > 0 {
      ZeroBit(k - 1);
    }
  }

  lemma {:induction false} PowBit(k: nat, j: nat)
    ensures BitAt(Pow2(k), j) <==> j == k
  {
    if k == 0 {
      if j > 0 {
        ZeroBit(j - 1);
      }
    } else {
      assert Pow2(k) % 2 == 0 && Pow2(k) / 2 == Pow2(k - 1);
      if j > 0 {
        PowBit(k - 1, j - 1);
      }
    }
  }

  lemma {:induction false} TopBit(x: nat, k: nat)
    requires x < 2 * Pow2(k)
    ensures BitAt(x, k) <==> x >= Pow2(k)
  {
    if k > 0 {
      TopBit(x / 2, k - 1);
    }
  }

  // Masking with a power of two tests a bit.
  lemma MaskTests(w: Word, k: nat)
    requires k < 32
    ensures Pow2(k) < TWO32 && (Word32(AND, w, Pow2(k)) != 0 <==> BitAt(w, k))
  {
    PowLess(k);
    var m := Word32(AND, w, Pow2(k));
    if BitAt(w, k) {
      BitOf(AND, w, Pow2(k), 32, k);
      PowBit(k, k);
      ZeroBit(k);
    } else {
      forall j: nat | j < 32 ensures !BitAt(m, j) {
        BitOf(AND, w, Pow2(k), 32, j);
        PowBit(k, j);
      }
      NoBits(m, 32);
    }
  }

  lemma {:induction false} PowLess(k: nat)
    requires k < 32
    ensures Pow2(k) < TWO32
  {
    PowMonotone(k, 31);
    WordSize();
  }

  lemma {:induction false} PowMonotone(k: nat, n: nat)
    requires k <= n
    ensures Pow2(k) <= Pow2(n)
    decreases n
  {
    if k < n {
      PowMonotone(k, n - 1);
    }
  }

  // ---- Flags -------------------------------------------------------------------------

  function ZF(l: Word, r: Word): Word {
    if Wrap(l - r) == 0 then 1 else 0
  }

  function SF(l: Word, r: Word): Word {
    if Word32(AND, Wrap(l - r), TWO31) != 0 then 1 else 0
  }

  function CF(l: Word, r: Word): Word {
    if l < r then 1 else 0
  }

  function OF(l: Word, r: Word): Word {
    var res := Wrap(l - r);
    var notEqual, signDiff := Word32(XOR, l, r), Word32(XOR, l, res);
    if Word32(AND, Word32(AND, notEqual, signDiff), TWO31) != 0 then 1 else 0
  }

  // The flags of a comparison, put together in one word.
  function Flags(l: Word, r: Word): Word {
    var zf: int, sf: int, cf: int, of: int := ZF(l, r), SF(l, r), CF(l, r), OF(l, r);
    Word32(OR, Word32(OR, Word32(OR, 8 * of, 4 * cf), 2 * sf), zf)
  }

  predicate Flag(flags: Word, bit: nat)
    requires bit < 32
  {
    PowLess(bit);
    Word32(AND, flags, Pow2(bit)) != 0
  }

  predicate Relates(rel: Relation, flags: Word) {
    var z, s, c, o := Flag(flags, 0), Flag(flags, 1), Flag(flags, 2), Flag(flags, 3);
    match rel
    case EQ => z
    case NE => !z
    case LTU => c
    case GEU => !c
    case LEU => c || z
    case GTU => !c && !z
    case LT => s != o
    case GE => s == o
    case LE => z || s != o
    case GT => !z && s == o
  }

  predicate Compares(rel: Relation, l: Word, r: Word) {
    match rel
    case EQ => l == r
    case NE => l != r
    case LTU => l < r
    case GEU => l >= r
    case LEU => l <= r
    case GTU => l > r
    case LT => Signed(l) < Signed(r)
    case GE => Signed(l) >= Signed(r)
    case LE => Signed(l) <= Signed(r)
    case GT => Signed(l) > Signed(r)
  }

  // The sign bit decides.
  lemma SignTest(w: Word)
    ensures Word32(AND, w, TWO31) != 0 <==> Negative(w)
    ensures BitAt(w, 31) <==> Negative(w)
  {
    WordSize();
    MaskTests(w, 31);
    TopBit(w, 31);
  }

  lemma Overflows(l: Word, r: Word)
    ensures var res := Wrap(l - r);
      OF(l, r) == 1 <==> Negative(l) != Negative(r) && Negative(l) != Negative(res)
  {
    hide Bitwise, BitAt;
    var res := Wrap(l - r);
    var notEqual, signDiff := Word32(XOR, l, r), Word32(XOR, l, res);
    BitOf(XOR, l, r, 32, 31);
    BitOf(XOR, l, res, 32, 31);
    BitOf(AND, notEqual, signDiff, 32, 31);
    SignTest(Word32(AND, notEqual, signDiff));
    SignTest(l);
    SignTest(r);
    SignTest(res);
  }

  // Each flag is in its place.
  lemma FlagsAre(l: Word, r: Word)
    ensures Flag(Flags(l, r), 0) <==> ZF(l, r) == 1
    ensures Flag(Flags(l, r), 1) <==> SF(l, r) == 1
    ensures Flag(Flags(l, r), 2) <==> CF(l, r) == 1
    ensures Flag(Flags(l, r), 3) <==> OF(l, r) == 1
  {
    forall k: nat | k < 4
      ensures Flag(Flags(l, r), k) <==>
        (OF(l, r) == 1 && k == 3) || (CF(l, r) == 1 && k == 2) || (SF(l, r) == 1 && k == 1) || (ZF(l, r) == 1 && k == 0)
    {
      Placed(ZF(l, r), SF(l, r), CF(l, r), OF(l, r), k);
    }
    hide *;
  }

  lemma Placed(zf: Word, sf: Word, cf: Word, of: Word, k: nat)
    requires zf < 2 && sf < 2 && cf < 2 && of < 2 && k < 4
    ensures Flag(Word32(OR, Word32(OR, Word32(OR, 8 * of, 4 * cf), 2 * sf), zf), k) <==>
      (of == 1 && k == 3) || (cf == 1 && k == 2) || (sf == 1 && k == 1) || (zf == 1 && k == 0)
  {
    hide Bitwise;
    var a := Word32(OR, 8 * of, 4 * cf);
    var b := Word32(OR, a, 2 * sf);
    MaskTests(Word32(OR, b, zf), k);
    BitOf(OR, 8 * of, 4 * cf, 32, k);
    BitOf(OR, a, 2 * sf, 32, k);
    BitOf(OR, b, zf, 32, k);
    OneBit(of, 3, k);
    OneBit(cf, 2, k);
    OneBit(sf, 1, k);
    OneBit(zf, 0, k);
  }

  lemma OneBit(f: nat, i: nat, k: nat)
    requires f < 2
    ensures BitAt(Pow2(i) * f, k) <==> f == 1 && k == i
  {
    ZeroBit(k);
    PowBit(i, k);
  }

  // Each relation read off the flags is the comparison it is named for.
  lemma Relations(rel: Relation, l: Word, r: Word)
    ensures Relates(rel, Flags(l, r)) <==> Compares(rel, l, r)
  {
    FlagsAre(l, r);
    Overflows(l, r);
    SignTest(Wrap(l - r));
    hide Flag, Flags, OF, Word32;
    Difference(l, r);
  }

  lemma Difference(l: Word, r: Word)
    ensures var res := Wrap(l - r);
      && (res == 0 <==> l == r)
      && (Negative(res) != (Negative(l) != Negative(r) && Negative(l) != Negative(res)) <==> Signed(l) < Signed(r))
  {
  }

  lemma {:induction false} OrNothing(x: nat, n: nat)
    requires x < Pow2(n)
    ensures Bitwise(OR, x, 0, n) == x
  {
    if n > 0 {
      OrNothing(x / 2, n - 1);
    }
  }

  // A digit joins what lies above it.
  lemma OrDigit(x: nat, d: nat, n: nat)
    requires n > 0 && x < Pow2(n - 1) && d < 2
    ensures Bitwise(OR, 2 * x, d, n) == 2 * x + d
  {
    BitwiseStep(OR, x, 0, 0, d, n);
    OrNothing(x, n - 1);
  }

  lemma OrDouble(x: nat, y: nat, n: nat)
    requires n > 0
    ensures Bitwise(OR, 2 * x, 2 * y, n) == 2 * Bitwise(OR, x, y, n - 1)
  {
    BitwiseStep(OR, x, 0, y, 0, n);
  }

  lemma BitwiseStep(op: Op, x: nat, a: nat, y: nat, b: nat, n: nat)
    requires n > 0 && a < 2 && b < 2
    ensures Bitwise(op, 2 * x + a, 2 * y + b, n) == 2 * Bitwise(op, x, y, n - 1) + (if Apply(op, a == 1, b == 1) then 1 else 0)
  {
    assert (2 * x + a) / 2 == x && (2 * x + a) % 2 == a && (2 * y + b) / 2 == y && (2 * y + b) % 2 == b;
  }

  lemma Joined(zf: Word, sf: Word, cf: Word, of: Word)
    requires zf < 2 && sf < 2 && cf < 2 && of < 2
    ensures Word32(OR, Word32(OR, Word32(OR, 8 * of, 4 * cf), 2 * sf), zf) == 8 * of + 4 * cf + 2 * sf + zf
  {
    hide Bitwise, Pow2;
    PowSmall(29);
    OrDigit(of, cf, 30);
    OrDouble(2 * of, cf, 31);
    OrDouble(4 * of, 2 * cf, 32);
    OrDigit(2 * of + cf, sf, 31);
    OrDouble(4 * of + 2 * cf, sf, 32);
    OrDigit(4 * of + 2 * cf + sf, zf, 32);
  }

  lemma PowSmall(k: nat)
    requires k >= 4
    ensures Pow2(k) >= 16 && Pow2(k + 1) >= 16 && Pow2(k + 2) >= 16
  {
    PowMonotone(4, k);
    assert Pow2(4) == 16;
  }

  lemma OfIsFlag(l: Word, r: Word)
    ensures OF(l, r) < 2
  {
    hide Word32;
  }

  lemma OutOfRange(l: Word, r: Word)
    ensures var res := Wrap(l - r);
      Negative(l) != Negative(r) && Negative(l) != Negative(res) <==> !(-TWO31 <= Signed(l) - Signed(r) < TWO31)
  {
  }

  // The flags word, by what each flag is for.
  lemma FlagsWord(l: Word, r: Word)
    ensures Flags(l, r) == (if l == r then 1 else 0) + (if (l - r) % 0x1_0000_0000 >= 0x8000_0000 then 2 else 0)
                         + (if l < r then 4 else 0) + (if -TWO31 <= Signed(l) - Signed(r) < TWO31 then 0 else 8)
  {
    hide Word32, OF;
    OfIsFlag(l, r);
    Joined(ZF(l, r), SF(l, r), CF(l, r), OF(l, r));
    Overflows(l, r);
    SignTest(Wrap(l - r));
    Difference(l, r);
    OutOfRange(l, r);
  }
}
