// Numbers in seven-bit digits, low digit first: the code and its readers.
// The format is signed LEB128, section 7.6 of DWARF Version 5.
module NumCodec {
  import opened Words

  predicate Int32(x: int) {
    -TWO31 <= x < TWO31
  }

  // Bytes from 80H up continue a code, others end it.
  predicate IsCode(c: seq<Byte>) {
    c != [] && c[|c| - 1] < 0x80 && forall i :: 0 <= i < |c| - 1 ==> c[i] >= 0x80
  }

  // The last digit of a code carries its sign.
  function Last(b: int): int {
    if b < 64 then b else b - 128
  }

  function Value(c: seq<Byte>): int
    requires IsCode(c)
  {
    if |c| == 1 then Last(c[0]) else c[0] - 128 + 128 * Value(c[1..])
  }

  function Encode(x: int): seq<Byte>
    decreases if x < 0 then -x else x
  {
    if -64 <= x <= 63 then [x % 128] else [x % 128 + 128] + Encode(x / 128)
  }

  lemma {:induction false} EncodeIsCode(x: int)
    ensures IsCode(Encode(x)) && Value(Encode(x)) == x
    decreases if x < 0 then -x else x
  {
    if !(-64 <= x <= 63) {
      EncodeIsCode(x / 128);
      assert Encode(x)[1..] == Encode(x / 128);
    }
  }

  function Pow128(k: nat): nat {
    if k == 0 then 1 else 128 * Pow128(k - 1)
  }

  // A code of k digits holds the numbers of 7k bits.
  lemma {:induction false} EncodeLength(x: int, k: nat)
    requires k > 0 && -64 * Pow128(k - 1) <= x < 64 * Pow128(k - 1)
    ensures |Encode(x)| <= k
    decreases k
  {
    if !(-64 <= x <= 63) {
      assert Pow128(k - 1) == 128 * Pow128(k - 2);
      EncodeLength(x / 128, k - 1);
    }
  }

  lemma FiveBytes(x: int)
    requires Int32(x)
    ensures 1 <= |Encode(x)| <= 5
  {
    assert Pow128(4) == 0x1000_0000;
    EncodeLength(x, 5);
  }

  // No code begins another.
  lemma PrefixFree(c: seq<Byte>, d: seq<Byte>)
    requires IsCode(c) && IsCode(d) && c <= d
    ensures c == d
  {
    assert d[|c| - 1] == c[|c| - 1] < 0x80;
  }

  // What the digits before the last amount to.
  function Low(c: seq<Byte>, k: nat): int
    requires k <= |c|
  {
    if k == 0 then 0 else Low(c, k - 1) + (c[k - 1] - 128) * Pow128(k - 1)
  }

  lemma {:induction false} ValueSplits(c: seq<Byte>, k: nat)
    requires IsCode(c) && k < |c|
    ensures Value(c) == Low(c, k) + Pow128(k) * Value(c[k..])
  {
    if k == 0 {
      assert c[0..] == c;
    } else {
      ValueSplits(c, k - 1);
      assert c[k - 1..][1..] == c[k..];
      Distribute(Pow128(k - 1), c[k - 1] - 128, Value(c[k..]));
    }
  }

  lemma Distribute(p: int, a: int, b: int)
    ensures p * (a + 128 * b) == a * p + 128 * p * b
  {
  }

  lemma Scaled(p: nat, d: nat)
    requires d <= 127
    ensures 0 <= d * p <= 127 * p
  {
  }

  lemma {:induction false} LowRange(c: seq<Byte>, k: nat)
    requires k <= |c| && forall i :: 0 <= i < k ==> c[i] >= 0x80
    ensures 0 <= Low(c, k) < Pow128(k)
  {
    if k > 0 {
      LowRange(c, k - 1);
      Scaled(Pow128(k - 1), c[k - 1] - 128);
    }
  }

  // Shifts of 32-bit words.

  // The 32-bit integer that `x` wraps to.
  function Int(x: int): int {
    Signed(Wrap(x))
  }

  function Lsh(x: int, n: nat): int {
    Int(x * Pow2(n))
  }

  function Ash(x: int, n: int): int {
    if n >= 0 then Int(x * Pow2(n)) else x / Pow2(-n)
  }

  lemma Pow2Table()
    ensures Pow2(0) == Pow128(0) == 1 && Pow2(7) == Pow128(1) == 128 && Pow2(14) == Pow128(2) == 0x4000
    ensures Pow2(21) == Pow128(3) == 0x20_0000 && Pow2(28) == Pow128(4) == 0x1000_0000
    ensures Pow2(3) == 8 && Pow2(4) == 16 && Pow2(11) == 0x800 && Pow2(18) == 0x4_0000 && Pow2(25) == 0x200_0000
  {
    assert Pow2(3) == 8 && Pow2(4) == 16 && Pow2(7) == 128;
    assert Pow2(11) == 0x800;
    assert Pow2(14) == 0x4000;
    assert Pow2(18) == 0x4_0000;
    assert Pow2(21) == 0x20_0000;
    assert Pow2(25) == 0x200_0000;
    assert Pow2(28) == 0x1000_0000;
  }

  lemma WrapOf(x: int, q: int, r: int)
    requires x == q * TWO32 + r && 0 <= r < TWO32
    ensures Wrap(x) == r
  {
  }

  lemma IntAdd(a: int, b: int)
    ensures Int(Int(a) + b) == Int(a + b)
  {
    var q := a / TWO32;
    var s := Int(a) + b;
    assert a == q * TWO32 + Wrap(a);
    WrapOf(s, s / TWO32, Wrap(s));
    var carry := if Wrap(a) < TWO31 then 0 else 1;
    assert a + b == (q + carry + s / TWO32) * TWO32 + Wrap(s);
    WrapOf(a + b, q + carry + s / TWO32, Wrap(s));
  }

  lemma ShiftedBack(d: int)
    ensures d * 0x200_0000 / 0x200_0000 == d && d * 0x200_0000 / 0x4_0000 == d * 0x80
    ensures d * 0x200_0000 / 0x800 == d * 0x4000 && d * 0x200_0000 / 16 == d * 0x20_0000
  {
  }

  lemma Top(b: Byte)
    requires b < 0x80
    ensures Lsh(b, 25) == Last(b) * 0x200_0000
  {
    Pow2Table();
  }

  // The sign of the last digit, brought to the top of the word and back down to its place.
  lemma LastDigit(b: Byte, k: nat)
    requires b < 0x80 && k <= 4
    ensures Ash(Lsh(b, 25), 7 * k - 25) == if k < 4 then Last(b) * Pow128(k) else Int(Last(b) * 0x1000_0000)
  {
    Pow2Table();
    Top(b);
    hide Lsh, Last, Int;
    ShiftedBack(Last(b));
    assert Last(b) * 0x200_0000 * 8 == Last(b) * 0x1000_0000;
  }

  lemma TopNibble(d: int)
    requires -64 <= d < 64
    ensures -TWO31 <= Int(d * 0x1000_0000) <= TWO31 - 0x1000_0000
  {
    WrapOf(d * 0x1000_0000, d / 16, d % 16 * 0x1000_0000);
  }

  // Digits before the last, added one by one, and the last, added to them, give the value.
  lemma ValueOfDigits(c: seq<Byte>)
    requires IsCode(c) && |c| <= 5
    ensures var k := |c| - 1;
      var sum := Ash(Lsh(c[k], 25), 7 * k - 25) + Low(c, k);
      sum == Int(Value(c)) && Int32(sum)
  {
    var k := |c| - 1;
    var d := Last(c[k]);
    LowRange(c, k);
    ValueSplits(c, k);
    LastDigit(c[k], k);
    Pow2Table();
    hide Ash, Lsh, Last, Int, Value;
    assert Value(c) == Low(c, k) + Pow128(k) * d by { assert Value(c[k..]) == d by { ValueOfOne(c[k..]); } }
    if k < 4 {
      Small(k, d, Low(c, k));
    } else {
      IntAdd(d * 0x1000_0000, Low(c, k));
      TopNibble(d);
      Fits(Int(d * 0x1000_0000) + Low(c, k));
    }
  }

  lemma ValueOfOne(c: seq<Byte>)
    requires IsCode(c) && |c| == 1
    ensures Value(c) == Last(c[0]) && -64 <= Last(c[0]) < 64
  {
  }

  lemma Fits(x: int)
    requires Int32(x)
    ensures Int(x) == x
  {
  }

  lemma Small(k: nat, d: int, low: int)
    requires k < 4 && -64 <= d < 64 && 0 <= low < Pow128(k)
    ensures Int32(d * Pow128(k) + low) && Int(d * Pow128(k) + low) == d * Pow128(k) + low
  {
    Pow2Table();
    assert Pow128(k) in {1, 128, 0x4000, 0x20_0000};
    assert -64 * Pow128(k) <= d * Pow128(k) <= 63 * Pow128(k);
    Fits(d * Pow128(k) + low);
  }

  // Length of the code that the input starts with; 0 if the input ends before the code does.
  function Length(s: seq<Byte>): (n: nat)
    ensures n <= |s| && (n > 0 ==> IsCode(s[..n]))
  {
    if s == [] then 0 else if s[0] < 0x80 then 1 else
      var n := Length(s[1..]);
      assert n > 0 ==> s[..n + 1][1..] == s[1..][..n];
      if n == 0 then 0 else n + 1
  }

  lemma {:induction false} LengthOf(c: seq<Byte>, rest: seq<Byte>)
    requires IsCode(c)
    ensures Length(c + rest) == |c|
  {
    if |c| > 1 {
      assert (c + rest)[1..] == c[1..] + rest;
      LengthOf(c[1..], rest);
    }
  }

  // A whole code is there, and none of its digits is shifted out of the word.
  predicate Readable(s: seq<Byte>) {
    1 <= Length(s) <= 5
  }

  function Code(s: seq<Byte>): (c: seq<Byte>)
    requires Readable(s)
    ensures IsCode(c) && |c| <= 5
  {
    s[..Length(s)]
  }

  lemma DigitFits(c: seq<Byte>, k: nat)
    requires IsCode(c) && |c| <= 5 && k < |c| - 1
    ensures Lsh(c[k] - 128, 7 * k) == (c[k] - 128) * Pow128(k) && Low(c, k + 1) == Int(Low(c, k + 1))
  {
    Pow2Table();
    LowRange(c, k + 1);
    Fits(Low(c, k + 1));
    Scaled(Pow128(k), c[k] - 128);
    Fits((c[k] - 128) * Pow128(k));
  }

  // The code that a reader finds: if the input ends inside it, the 0X that is read there ends it.
  function Coded(s: seq<Byte>): (c: seq<Byte>)
    ensures IsCode(c) && (Readable(s) ==> c == Code(s))
    ensures |c| == if Length(s) > 0 then Length(s) else |s| + 1
    ensures forall i :: 0 <= i < |c| ==> c[i] == if i < |s| then s[i] else 0
  {
    if Length(s) == 0 then
      Unended(s);
      s + [0]
    else s[..Length(s)]
  }

  lemma {:induction false} Unended(s: seq<Byte>)
    requires Length(s) == 0
    ensures forall i :: 0 <= i < |s| ==> s[i] >= 0x80
  {
    if s != [] {
      Unended(s[1..]);
      assert forall i :: 1 <= i < |s| ==> s[i] == s[1..][i - 1];
    }
  }

  // Left shifts of 32-bit integers in C++: by 32 and more they are undefined, and so may be
  // anything here.
  ghost predicate Shl(shl: (int, nat) -> int) {
    forall x, n: nat :: n < 32 ==> shl(x, n) == Lsh(x, n)
  }

  // The sum of the digits so far and the last, brought to its place as the C++ readers do it.
  function Sum(shl: (int, nat) -> int, ch: Byte, n: nat, y: int): int {
    (if n - 25 < 0 then shl(ch, 25) / Pow2(25 - n) else shl(shl(ch, 25), n - 25)) + y
  }

  lemma SumIsValue(shl: (int, nat) -> int, c: seq<Byte>)
    requires Shl(shl) && IsCode(c)
    ensures |c| <= 5 ==> var k := |c| - 1;
      Sum(shl, c[k], 7 * k, Low(c, k)) == Int(Value(c)) && Int(Int(Value(c))) == Int(Value(c))
  {
    if |c| <= 5 {
      ValueOfDigits(c);
      hide Value, Pow2, Low, Int;
      Fits(Int(Value(c)));
    }
  }

  lemma NextDigit(shl: (int, nat) -> int, c: seq<Byte>, k: nat)
    requires Shl(shl) && IsCode(c) && k < |c| - 1
    ensures |c| <= 5 ==> Low(c, k + 1) == Low(c, k) + shl(c[k] - 128, 7 * k)
  {
    if |c| <= 5 {
      DigitFits(c, k);
    }
  }

  // The loader's reader: digits are shifted as 32-bit integers, the sum is wider and is cut
  // to 32 bits at the end. Input that ends too early is fatal.
  method LoaderReadNum(s: seq<Byte>, pos: nat, shl: (int, nat) -> int) returns (res: Option<int>, next: nat)
    requires pos <= |s| && Shl(shl)
    ensures res.Some? <==> Length(s[pos..]) > 0
    ensures res.Some? ==> next == pos + Length(s[pos..]) && Int32(res.value)
    ensures Readable(s[pos..]) ==> res == Some(Int(Value(Code(s[pos..]))))
  {
    hide Value, Pow2, Pow128, Int, Low, Length, Shl;
    ghost var c := Coded(s[pos..]);
    var n, y := 0, 0;
    next := pos;
    if next == |s| { return None, next; }
    var ch := s[next];
    next := next + 1;
    LowNone(c);
    while ch >= 0x80
      invariant pos < next <= |s| && next <= pos + |c| && n == 7 * (next - pos - 1)
      invariant ch == s[next - 1] && (|c| <= 5 ==> y == Low(c, next - pos - 1))
      decreases |s| - next
    {
      NextDigit(shl, c, next - pos - 1);
      y := y + shl(ch - 128, n);
      n := n + 7;
      if next == |s| { return None, next; }
      ch := s[next];
      next := next + 1;
    }
    SumIsValue(shl, c);
    var x: int;
    if n - 25 < 0 {
      x := shl(ch, 25) / Pow2(25 - n);
    } else {
      x := shl(shl(ch, 25), n - 25);
    }
    x := x + y;
    res := Some(Int(x));
    IntIs32(x);
  }

  lemma LowNone(c: seq<Byte>)
    ensures Low(c, 0) == 0
  {
  }

  lemma IntIs32(x: int)
    ensures Int32(Int(x))
  {
  }

  // The disassembler's reader also asserts that nothing is lost in the cut, and reads 0X where
  // the input ends.
  method DisasmReadNum(s: seq<Byte>, pos: nat, shl: (int, nat) -> int) returns (res: int, next: nat, holds: bool)
    requires pos <= |s| && Shl(shl)
    ensures Int32(res) && next == if Length(s[pos..]) > 0 then pos + Length(s[pos..]) else |s|
    ensures |Coded(s[pos..])| <= 5 ==> holds && res == Int(Value(Coded(s[pos..])))
  {
    hide Value, Pow2, Pow128, Int, Low, Length, Shl;
    ghost var c := Coded(s[pos..]);
    ghost var k := 0;
    var n, y := 0, 0;
    var ch;
    next := pos;
    ch, next := ReadChar(s, next);
    LowNone(c);
    while ch >= 0x80
      invariant k < |c| && n == 7 * k && ch == c[k] && next == if pos + k < |s| then pos + k + 1 else |s|
      invariant |c| <= 5 ==> y == Low(c, k)
      decreases |c| - k
    {
      NextDigit(shl, c, k);
      y := y + shl(ch - 128, n);
      n := n + 7;
      ch, next := ReadChar(s, next);
      k := k + 1;
    }
    SumIsValue(shl, c);
    var x: int;
    if n - 25 < 0 {
      x := shl(ch, 25) / Pow2(25 - n);
    } else {
      x := shl(shl(ch, 25), n - 25);
    }
    x := x + y;
    res := Int(x);
    IntIs32(x);
    holds := res == x;
  }

  method ReadChar(s: seq<Byte>, pos: nat) returns (ch: Byte, next: nat)
    requires pos <= |s|
    ensures if pos < |s| then ch == s[pos] && next == pos + 1 else ch == 0 && next == pos
  {
    if pos < |s| {
      ch, next := s[pos], pos + 1;
    } else {
      ch, next := 0, pos;
    }
  }

  // ---- Oberon's reader, of codes of any length -------------------------------------------

  // The processor shifts by the low byte of the count, taken as signed, modulo 32.
  function Count(n: int): int {
    if n % 256 < 128 then n % 256 else n % 256 - 256
  }

  function Halved(w: Word, n: nat): Word {
    if n == 0 then w else Halved(w / 2, n - 1)
  }

  function MachineLsh(x: int, n: int): int {
    if Count(n) >= 0 then Lsh(x, Count(n) % 32) else Signed(Halved(Wrap(x), -Count(n) % 32))
  }

  function MachineAsh(x: int, n: int): int {
    if Count(n) >= 0 then Lsh(x, Count(n) % 32) else x / Pow2(-Count(n) % 32)
  }

  // A digit that is not the last, in its place.
  function Placed(b: int, n: nat): int {
    MachineLsh(b - 128, n)
  }

  // What the reader makes of the first `k` digits of a code.
  function Digits(c: seq<Byte>, k: nat): int
    requires k <= |c|
  {
    if k == 0 then 0 else Int(Digits(c, k - 1) + Placed(c[k - 1], 7 * (k - 1)))
  }

  // And of all of it.
  function Machine(c: seq<Byte>): int
    requires IsCode(c)
  {
    var k := |c| - 1;
    Int(MachineAsh(MachineLsh(c[k], 25), 7 * k - 25) + Digits(c, k))
  }

  lemma SmallCount(x: int, n: int)
    requires -32 < n < 32
    ensures n >= 0 ==> MachineLsh(x, n) == Lsh(x, n)
    ensures MachineAsh(x, n) == Ash(x, n)
  {
  }

  lemma {:induction false} DigitsAreLow(c: seq<Byte>, k: nat)
    requires IsCode(c) && |c| <= 5 && k < |c|
    ensures Digits(c, k) == Low(c, k)
  {
    hide Lsh, MachineLsh, Int;
    if k > 0 {
      DigitsAreLow(c, k - 1);
      DigitFits(c, k - 1);
      SmallCount(c[k - 1] - 128, 7 * (k - 1));
    }
  }

  // A code of at most five bytes is read as its value.
  lemma MachineReads(c: seq<Byte>)
    requires IsCode(c) && |c| <= 5
    ensures Machine(c) == Int(Value(c))
  {
    hide Value, Low, Digits, Int, Lsh, Ash, MachineLsh, MachineAsh;
    var k := |c| - 1;
    DigitsAreLow(c, k);
    SmallCount(c[k], 25);
    SmallCount(Lsh(c[k], 25), 7 * k - 25);
    ValueOfDigits(c);
    Fits(Int(Value(c)));
  }

  // A longer one may not be: the shift count has come round to 3.
  lemma LongCode()
    ensures var c: seq<Byte> := [0x80, 0x80, 0x80, 0x80, 0x80, 0x81, 0];
      IsCode(c) && Int(Value(c)) == 0 && Machine(c) == 8
  {
    var c: seq<Byte> := [0x80, 0x80, 0x80, 0x80, 0x80, 0x81, 0];
    LongValue(c);
    hide Value, MachineLsh, MachineAsh;
    Zeros(c, 5);
    LongDigit();
  }

  lemma LongValue(c: seq<Byte>)
    requires c == [0x80, 0x80, 0x80, 0x80, 0x80, 0x81, 0]
    ensures IsCode(c) && Value(c) == 0x8_0000_0000
  {
    assert Value(c[6..]) == 0;
    assert Value(c[5..]) == 1 by { assert c[5..][1..] == c[6..]; }
    assert Value(c[4..]) == 0x80 by { assert c[4..][1..] == c[5..]; }
    assert Value(c[3..]) == 0x4000 by { assert c[3..][1..] == c[4..]; }
    assert Value(c[2..]) == 0x20_0000 by { assert c[2..][1..] == c[3..]; }
    assert Value(c[1..]) == 0x1000_0000 by { assert c[1..][1..] == c[2..]; }
  }

  lemma LongDigit()
    ensures MachineLsh(1, 35) == 8 && MachineLsh(0, 25) == 0 && MachineAsh(0, 17) == 0
  {
    Pow2Table();
  }

  lemma {:induction false} Zeros(c: seq<Byte>, k: nat)
    requires k <= |c| && forall i :: 0 <= i < k ==> c[i] == 0x80
    ensures Digits(c, k) == 0
  {
    hide MachineLsh;
    if k > 0 {
      Zeros(c, k - 1);
      NoDigit(7 * (k - 1));
    }
  }

  lemma NoDigit(n: nat)
    ensures MachineLsh(0, n) == 0
  {
    hide Pow2;
    NoBits(-Count(n) % 32);
  }

  lemma {:induction false} NoBits(n: nat)
    ensures Halved(0, n) == 0
  {
    if n > 0 {
      NoBits(n - 1);
    }
  }

  function EncodeAll(xs: seq<int>): seq<Byte> {
    if xs == [] then [] else Encode(xs[0]) + EncodeAll(xs[1..])
  }

  // What any of the readers, called `n` times, makes of the input, and what it leaves of it.
  function DecodeAll(s: seq<Byte>, n: nat): (r: (seq<int>, seq<Byte>)) {
    if n == 0 || !Readable(s) then ([], s) else
      var (xs, rest) := DecodeAll(s[Length(s)..], n - 1);
      ([Int(Value(Code(s)))] + xs, rest)
  }

  lemma EncodedReads(x: int, rest: seq<Byte>)
    requires Int32(x)
    ensures Readable(Encode(x) + rest) && Length(Encode(x) + rest) == |Encode(x)|
    ensures Code(Encode(x) + rest) == Encode(x) && Int(Value(Encode(x))) == x
  {
    FiveBytes(x);
    EncodeIsCode(x);
    LengthOf(Encode(x), rest);
    Fits(x);
  }

  // Lists of numbers come back, and nothing is left over.
  lemma {:induction false} RoundTrip(xs: seq<int>, rest: seq<Byte>)
    requires forall x :: x in xs ==> Int32(x)
    ensures DecodeAll(EncodeAll(xs) + rest, |xs|) == (xs, rest)
  {
    hide Encode, Value, Readable, Int, Code, IsCode;
    if xs == [] {
      assert EncodeAll(xs) + rest == rest;
    } else {
      var c, tail := Encode(xs[0]), EncodeAll(xs[1..]) + rest;
      EncodedReads(xs[0], tail);
      assert EncodeAll(xs) + rest == c + tail;
      assert (c + tail)[|c|..] == tail;
      RoundTrip(xs[1..], rest);
      assert [xs[0]] + xs[1..] == xs;
    }
  }
}
