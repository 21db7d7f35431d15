// The random number generator: Schrage's way of multiplying modulo 2^31 - 1 in 32 bits.
module RandomNumbers {

  // LONGINT.
  newtype Long = x: int | -0x8000_0000 <= x < 0x8000_0000

  // The machine's arithmetic does not leave it: it wraps.
  function Wrapped(x: int): Long {
    ((x + 0x8000_0000) % 0x1_0000_0000 - 0x8000_0000) as Long
  }

  const A := 16807
  const MODULUS := 0x7fff_ffff
  const INVERSE := 1407677000

  function Next(z: int): int {
    A * z % MODULUS
  }

  // 16807 is the fifth power of 7, and 2836 leaves remainder 1 when divided by 7.
  lemma SevenDivides(k: int, u: int, v: int)
    requires 7 * k * u == 2836 * v
    ensures v % 7 == 0 && k * u == 2836 * (v / 7)
  {
    var w := k * u;
    assert 7 * w == 2836 * v;
  }

  // The two products differ, except for the numbers 0 and the modulus.
  lemma NeverZero(u: int, v: int)
    requires 0 <= v <= A && A * u == 2836 * v
    ensures (v == 0 && u == 0) || (v == A && u == 2836)
  {
    SevenDivides(2401, u, v);
    SevenDivides(343, u, v / 7);
    SevenDivides(49, u, v / 7 / 7);
    SevenDivides(7, u, v / 7 / 7 / 7);
    SevenDivides(1, u, v / 7 / 7 / 7 / 7);
  }

  class Generator {
    var Z: Long

    // Module initialisation, and InitSeed.
    constructor (seed: Long)
      ensures Z == seed
    {
      Z := seed;
    }

    // The next number. Negative seeds are not kept out, and for some the difference of the two
    // products does not fit in 32 bits.
    method Uniform() returns (x: real)
      modifies this
      ensures Z as int == Drawn(old(Z) as int) && x == Z as real * (1.0 / 2147483647.0)
      ensures (Z as int - A * old(Z) as int) % MODULUS == 0 <==> Difference(old(Z) as int) < 0x8000_0000
      ensures 1 <= old(Z) < 0x7fff_ffff ==> Z as int == Next(old(Z) as int) && 1 <= Z < 0x7fff_ffff && 0.0 < x < 1.0
      ensures old(Z) in {0, 0x7fff_ffff} ==> Z == 0x7fff_ffff && x == 1.0
    {
      ghost var z := Z as int;
      Drawing(z);
      Fraction(Drawn(z));
      hide Next, Drawn, Wrapped;
      var a: Long, m: Long := 16807, 2147483647;
      var q, r := m / a, m % a;
      assert q == 127773 && r == 2836;
      var g := Wrapped((a * (Z % q)) as int - (r * (Z / q)) as int);
      if g > 0 {
        Z := g;
      } else {
        Z := Wrapped(g as int + m as int);
      }
      x := Z as real * (1.0 / m as real);
    }
  }

  lemma Drawing(z: int)
    requires -0x8000_0000 <= z < 0x8000_0000
    ensures 0 <= z % 127773 <= 127772 && -16808 <= z / 127773 <= 16807
    ensures var g := Wrapped(Difference(z)) as int;
      Drawn(z) == if g > 0 then g else Wrapped(g + MODULUS) as int
    ensures (Drawn(z) - A * z) % MODULUS == 0 <==> Difference(z) < 0x8000_0000
    ensures 1 <= z < MODULUS ==> Drawn(z) == Next(z) && 1 <= Drawn(z) < MODULUS
    ensures z in {0, MODULUS} ==> Drawn(z) == MODULUS
  {
    Products(z);
    Congruent(z);
    if z >= 0 {
      Schrage(z);
    }
    hide Next;
    Wraps(Difference(z));
  }

  lemma Wraps(g: int)
    requires -MODULUS <= g < 0x8300_0000
    ensures Wrapped(g) as int == if g < 0x8000_0000 then g else g - 0x1_0000_0000
    ensures var w := Wrapped(g) as int; w <= 0 ==> Wrapped(w + MODULUS) as int == w + MODULUS
  {
  }

  lemma Fraction(z: int)
    ensures 1 <= z < MODULUS ==> 0.0 < z as real * (1.0 / 2147483647.0) < 1.0
    ensures z == MODULUS ==> z as real * (1.0 / 2147483647.0) == 1.0
  {
  }

  // The difference of the two products.
  function Difference(z: int): int {
    A * (z % 127773) - 2836 * (z / 127773)
  }

  // The next state, as 32 bits leave it.
  function Drawn(z: int): int {
    var g := Difference(z);
    if g >= 0x8000_0000 then g - 0x8000_0001 else if g > 0 then g else g + MODULUS
  }

  lemma Products(z: int)
    requires -0x8000_0000 <= z < 0x8000_0000
    ensures 0 <= z % 127773 <= 127772 && -16808 <= z / 127773 <= 16807
    ensures A * z == MODULUS * (z / 127773) + Difference(z)
    ensures z < 0 ==> 0 < Difference(z) < 0x8300_0000
  {
    var u, v := z % 127773, z / 127773;
    assert z == 127773 * v + u;
  }

  // It is 16807 times the state before, modulo 2^31 - 1, exactly if the difference fits.
  lemma Congruent(z: int)
    requires -0x8000_0000 <= z < 0x8000_0000
    ensures (Drawn(z) - A * z) % MODULUS == 0 <==> Difference(z) < 0x8000_0000
  {
    Products(z);
    var v, g := z / 127773, Difference(z);
    if g >= 0x8000_0000 {
      Remainder(Drawn(z) - A * z, -v - 2, MODULUS - 2);
    } else if g > 0 {
      Remainder(Drawn(z) - A * z, -v, 0);
    } else {
      Remainder(Drawn(z) - A * z, 1 - v, 0);
    }
  }

  // For some negative seeds it does not.
  lemma SeedExample()
    ensures Difference(-894412) == 2147486692 && Drawn(-894412) == 3043
  {
    assert -894412 == 127773 * -8 + 127772;
    assert -894412 / 127773 == -8 && -894412 % 127773 == 127772;
  }

  lemma Schrage(z: int)
    requires 0 <= z <= MODULUS
    ensures var g := A * (z % 127773) - 2836 * (z / 127773);
      && -MODULUS < g < MODULUS && A * z == MODULUS * (z / 127773) + g
      && (g == 0 <==> z == 0 || z == MODULUS)
      && (1 <= z < MODULUS ==> Next(z) == if g > 0 then g else g + MODULUS)
  {
    var u, v := z % 127773, z / 127773;
    var g := A * u - 2836 * v;
    assert z == 127773 * v + u;
    if g == 0 {
      NeverZero(u, v);
    } else if g > 0 {
      Remainder(A * z, v, g);
    } else {
      Remainder(A * z, v - 1, g + MODULUS);
    }
  }

  lemma Remainder(x: int, k: int, g: int)
    requires x == MODULUS * k + g && 0 <= g < MODULUS
    ensures x % MODULUS == g
  {
  }

  function Run(z: int, n: nat): int {
    if n == 0 then z else Next(Run(z, n - 1))
  }

  function Power(n: nat): nat {
    if n == 0 then 1 else A * Power(n - 1)
  }

  // However many numbers are drawn, the state stays in range, and is the seed times a power.
  lemma {:induction false} Runs(z: int, n: nat)
    requires 1 <= z < MODULUS
    ensures 1 <= Run(z, n) < MODULUS && Run(z, n) == Power(n) * z % MODULUS
  {
    if n > 0 {
      Runs(z, n - 1);
      Schrage(Run(z, n - 1));
      var p := Power(n - 1) * z;
      assert Power(n) * z == A * p;
      assert A * p == MODULUS * (A * (p / MODULUS)) + A * (p % MODULUS);
      var y := A * (p % MODULUS);
      Remainder(A * p, A * (p / MODULUS) + y / MODULUS, y % MODULUS);
    }
  }

  // No two states have the same successor: the numbers come round to the seed again.
  lemma Reversible(z: int)
    requires 1 <= z < MODULUS
    ensures INVERSE * Next(z) % MODULUS == z
  {
    var k := A * z / MODULUS;
    assert Next(z) == A * z - MODULUS * k;
    hide Next;
    Remainder(INVERSE * Next(z), 11017 * z - INVERSE * k, z);
  }
}
