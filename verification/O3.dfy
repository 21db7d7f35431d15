// The loader's Oberon division: toward minus infinity, written with truncating operators.
module O3 {
  import opened Words

  // C++ division and remainder truncate toward zero.
  function TDiv(x: int, y: int): int
    requires y != 0
  {
    var q := (if x < 0 then -x else x) / (if y < 0 then -y else y);
    if (x < 0) == (y < 0) then q else -q
  }

  function TMod(x: int, y: int): int
    requires y != 0
  {
    x - y * TDiv(x, y)
  }

  function Div(x: int, y: int): int
    requires y != 0
  {
    if x >= 0 then
      if y > 0 then TDiv(x, y) else -TDiv(x - 1 - y, -y)
    else
      if y > 0 then -TDiv(-x - 1 + y, y) else TDiv(-x, -y)
  }

  function Mod(x: int, y: int): int
    requires y != 0
  {
    if x >= 0 then
      if y > 0 then TMod(x, y)
      else if TMod(x, -y) == 0 then 0 else y + TMod(x, -y)
    else
      if y > 0 then if TMod(-x, y) == 0 then 0 else y - TMod(-x, y)
      else -TMod(-x, -y)
  }

  // Together they are floor division: the remainder has the divisor's sign.
  lemma FloorDivision(x: int, y: int)
    requires y != 0
    ensures x == y * Div(x, y) + Mod(x, y)
    ensures if y > 0 then 0 <= Mod(x, y) < y else y < Mod(x, y) <= 0
  {
    hide TDiv, TMod;
    var a, b := if x < 0 then -x else x, if y < 0 then -y else y;
    var n := if x != 0 && (x < 0) != (y < 0) then (a - 1 + b) / b else a / b;
    Truncated(a, b);
    if x == 0 {
      Truncated(b - 1, b);
    } else if (x < 0) != (y < 0) {
      Truncated(a - 1 + b, b);
      Ceiling(a, b);
    }
    Signs(b, n);
    assert Div(x, y) == if (x < 0) != (y < 0) then -n else n;
  }

  lemma Signs(b: int, n: int)
    ensures (-b) * (-n) == b * n && b * (-n) == -(b * n) && (-b) * n == -(b * n)
  {
  }

  lemma Truncated(a: nat, b: nat)
    requires b > 0
    ensures TDiv(a, b) == a / b && TMod(a, b) == a % b
    ensures a == b * (a / b) + a % b && 0 <= a % b < b
    ensures a < b ==> a / b == 0 && a % b == a
  {
  }

  // (a - 1 + b) / b rounds a / b up.
  lemma Ceiling(a: nat, b: nat)
    requires b > 0
    ensures (a - 1 + b) / b == if a % b == 0 then a / b else a / b + 1
    ensures b * (a / b + 1) == b * (a / b) + b
  {
    var q, n := a / b, (a - 1 + b) / b;
    var m := if a % b == 0 then q else q + 1;
    assert b * (q + 1) == b * q + b;
    Unique(b, n, m, a - 1 + b);
  }

  // One multiple of `b` only lies within `b` below `x`.
  lemma Unique(b: nat, n: int, m: int, x: int)
    requires b > 0 && b * n <= x < b * n + b && b * m <= x < b * m + b
    ensures n == m
  {
    if n < m { Monotone(b, n + 1, m); }
    if m < n { Monotone(b, m + 1, n); }
  }

  lemma Monotone(b: nat, n: int, m: int)
    requires n <= m
    ensures b * n <= b * m
  {
  }

  // ---- In 32 bits ----------------------------------------------------------------------

  // The result of one C++ operation on `int`: none if it overflows.
  function Int(v: int): Option<int> {
    if -TWO31 <= v < TWO31 then Some(v) else None
  }

  // -(n / d) and -(n % d), each operand once computed.
  function NegQuotient(n: Option<int>, d: Option<int>): Option<int>
    requires d != Some(0)
  {
    if n.None? || d.None? then None else Int(-TDiv(n.value, d.value))
  }

  function Remainder(n: Option<int>, d: Option<int>): Option<int>
    requires d != Some(0)
  {
    if n.None? || d.None? then None else Int(TMod(n.value, d.value))
  }

  function Plus(a: Option<int>, b: Option<int>): Option<int> {
    if a.None? || b.None? then None else Int(a.value + b.value)
  }

  function Minus(a: Option<int>, b: Option<int>): Option<int> {
    if a.None? || b.None? then None else Int(a.value - b.value)
  }

  predicate Operand(v: int) {
    -TWO31 <= v < TWO31
  }

  // The two functions, operation by operation.
  function Div32(x: int, y: int): Option<int>
    requires y != 0
  {
    if x >= 0 then
      if y > 0 then Int(TDiv(x, y)) else NegQuotient(Minus(Minus(Some(x), Some(1)), Some(y)), Int(-y))
    else if y > 0 then NegQuotient(Plus(Minus(Int(-x), Some(1)), Some(y)), Some(y))
    else if Int(-x).None? || Int(-y).None? then None
    else Int(TDiv(-x, -y))
  }

  function Mod32(x: int, y: int): Option<int>
    requires y != 0
  {
    if x >= 0 then
      if y > 0 then Int(TMod(x, y))
      else
        var m := Remainder(Some(x), Int(-y));
        if m == Some(0) then Some(0) else Plus(Some(y), m)
    else if y > 0 then
      var m := Remainder(Int(-x), Some(y));
      if m == Some(0) then Some(0) else Minus(Some(y), m)
    else
      var m := Remainder(Int(-x), Int(-y));
      if m.None? then None else Int(-m.value)
  }

  function Abs(x: int): nat {
    if x < 0 then -x else x
  }

  // Whichever of the operands is negative can be negated.
  predicate Negatable(x: int, y: int) {
    (x < 0 ==> x > -TWO31) && (y < 0 ==> y > -TWO31)
  }

  lemma AtMost(a: nat, b: nat, q: nat, r: nat)
    requires b > 0 && a == b * q + r
    ensures q <= a
  {
    Monotone(q, 1, b);
  }

  lemma Shorter(a: nat, b: nat)
    requires b > 0
    ensures 0 <= TDiv(a, b) <= a && 0 <= TMod(a, b) < b
  {
    Truncated(a, b);
    hide TDiv, TMod;
    AtMost(a, b, a / b, a % b);
  }

  // DIV overflows exactly for operands it cannot negate, and for operands of different signs
  // whose magnitudes add up to more than 2^31; otherwise it is floor division.
  lemma DivFits(x: int, y: int)
    requires Operand(x) && Operand(y) && y != 0
    ensures Div32(x, y) ==
      if Negatable(x, y) && ((x < 0) != (y < 0) ==> Abs(x) + Abs(y) <= TWO31) then Some(Div(x, y)) else None
  {
    hide TDiv, TMod;
    if x >= 0 && y > 0 {
      Shorter(x, y);
    } else if x > 0 && y < 0 {
      Shorter(x - 1 - y, -y);
    } else if x == 0 {
      if y < 0 {
        Truncated(-1 - y, -y);
        Shorter(-1 - y, -y);
      }
    } else if y > 0 {
      Shorter(-x - 1 + y, y);
    } else {
      Shorter(-x, -y);
    }
  }

  // MOD overflows exactly for operands it cannot negate.
  lemma ModFits(x: int, y: int)
    requires Operand(x) && Operand(y) && y != 0
    ensures Mod32(x, y) == if Negatable(x, y) then Some(Mod(x, y)) else None
  {
    hide TDiv, TMod;
    Shorter(Abs(x), Abs(y));
  }

  // The largest number cannot be divided by -2 this way.
  lemma DivOverflows()
    ensures Operand(0x7FFF_FFFF) && Div32(0x7FFF_FFFF, -2) == None && Div(0x7FFF_FFFF, -2) == -0x4000_0000
  {
    DivFits(0x7FFF_FFFF, -2);
  }

  // The least number has no remainder by 3, nor has 5 by the least number.
  lemma ModOverflows()
    ensures Operand(-TWO31) && Mod32(-TWO31, 3) == None && Mod(-TWO31, 3) == 1
    ensures Mod32(5, -TWO31) == None && Mod(5, -TWO31) == 5 - TWO31
  {
    ModFits(-TWO31, 3);
    ModFits(5, -TWO31);
  }
}
