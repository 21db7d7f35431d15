// The machine's 32-bit words, as integers, and what several modules share.
module Words {

  datatype Option<T> = None | Some(value: T)

  type Byte = b: int | 0 <= b < 0x100
  type Word = w: int | 0 <= w < 0x1_0000_0000

  const TWO32 := 0x1_0000_0000
  const TWO31 := 0x8000_0000

  // Unsigned arithmetic wraps modulo 2^32.
  function Wrap(x: int): Word {
    x % 0x1_0000_0000
  }

  // A word read as a two's complement integer.
  function Signed(w: Word): int {
    if w < TWO31 then w else w - TWO32
  }

  predicate Negative(w: Word) {
    w >= TWO31
  }

  function Pow2(n: nat): (p: nat)
    ensures p > 0
  {
    if n == 0 then 1 else 2 * Pow2(n - 1)
  }

  lemma Regroup<T>(a: seq<T>, b: seq<T>, c: seq<T>)
    ensures a + b + c == a + (b + c)
  {
  }
}
