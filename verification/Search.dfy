// The editor's text search, Horspool's: compare from the right, and move on by the distance
// that the last character of the window allows.
module Search {
  import opened Words

  const MAXLEN := 32

  // Texts read as 0X past their end.
  function CharAt(text: seq<Byte>, i: nat): Byte {
    if i < |text| then text[i] else 0
  }

  ghost predicate Occurs(text: seq<Byte>, p: seq<Byte>, at: nat) {
    forall k :: 0 <= k < |p| ==> CharAt(text, at + k) == p[k]
  }

  // Unless the pattern itself has a 0X, it occurs only inside the text.
  lemma OccursInside(text: seq<Byte>, p: seq<Byte>, at: nat)
    requires Occurs(text, p, at) && p != [] && 0 !in p
    ensures at + |p| <= |text|
  {
    var last := |p| - 1;
    assert CharAt(text, at + last) == p[last] != 0;
  }

  // How far the window may move when it ends in `c`: to the last `c` of the pattern that is
  // not its final character, among the first `upto`; else past the window.
  ghost predicate IsShift(p: seq<Byte>, c: int, n: int, upto: nat) {
    && 1 <= n <= |p|
    && (n < |p| ==> |p| - 1 - n < upto && p[|p| - 1 - n] == c)
    && forall j :: 0 <= j && |p| - 1 - n < j < upto && j < |p| - 1 ==> p[j] != c
  }

  // No occurrence lies between a window and the next.
  lemma NothingSkipped(text: seq<Byte>, p: seq<Byte>, at: nat, n: int)
    requires p != [] && IsShift(p, CharAt(text, at + |p| - 1), n, |p|)
    ensures forall q :: at < q < at + n ==> !Occurs(text, p, q)
  {
    forall q | at < q < at + n ensures !Occurs(text, p, q) {
      var j := at + |p| - 1 - q;
      assert p[j] != CharAt(text, q + j);
    }
  }

  ghost predicate NoneBetween(text: seq<Byte>, p: seq<Byte>, from: int, to: int) {
    forall q: nat :: from <= q < to ==> !Occurs(text, p, q)
  }

  lemma NoneYet(text: seq<Byte>, p: seq<Byte>, from: int)
    ensures NoneBetween(text, p, from, from)
  {
  }

  // A window that does not match, and the stretch after it.
  lemma Joined(text: seq<Byte>, p: seq<Byte>, from: int, at: nat, n: nat)
    requires n > 0 && NoneBetween(text, p, from, at) && !Occurs(text, p, at)
    requires n > 1 ==> NoneBetween(text, p, at + 1, at + n)
    ensures NoneBetween(text, p, from, at + n)
  {
  }

  lemma Fewer(text: seq<Byte>, p: seq<Byte>, from: int, less: int, to: int)
    requires NoneBetween(text, p, from, to) && less <= to
    ensures NoneBetween(text, p, from, less)
  {
  }

  class Editor {
    const pat: array<Byte>
    const d: array<int>
    const buf: array<Byte>
    var M: nat
    // The reader.
    var text: seq<Byte>
    var next: nat

    ghost predicate Arrays() {
      pat.Length == MAXLEN && d.Length == 256 && buf.Length == MAXLEN && pat != buf
    }

    ghost predicate Valid()
      reads this, pat, d
    {
      && Arrays() && 1 <= M <= MAXLEN
      && forall c :: 0 <= c < 256 ==> IsShift(pat[..M], c, d[c], M)
    }

    ghost function Pattern(): seq<Byte>
      requires Arrays() && M <= MAXLEN
      reads this, pat
    {
      pat[..M]
    }

    // The window shows the `M` characters before the reader.
    ghost predicate Window()
      requires Arrays() && M <= MAXLEN
      reads this, buf
    {
      M <= next && forall k :: 0 <= k < M ==> buf[k] == CharAt(text, next - M + k)
    }

    constructor ()
      ensures Arrays() && M == 0 && fresh(pat) && fresh(d) && fresh(buf)
    {
      pat, d, buf := new Byte[MAXLEN](i => 0), new int[256](i => 0), new Byte[MAXLEN](i => 0);
      M, text, next := 0, [], 0;
      new;
    }

    // Copy the pattern and build the shift table.
    method SetPattern(s: seq<Byte>)
      requires Arrays() && s != []
      modifies `M, pat, d
      ensures Valid() && Pattern() == if |s| <= MAXLEN then s else s[..MAXLEN]
    {
      M := 0;
      while M != MAXLEN && M != |s|
        invariant M <= MAXLEN && M <= |s| && pat[..M] == s[..M]
        decreases MAXLEN - M
      {
        pat[M] := s[M];
        M := M + 1;
      }
      BuildTable();
    }

    method BuildTable()
      requires Arrays() && 1 <= M <= MAXLEN
      modifies d
      ensures Valid()
    {
      var j := 0;
      while j != 256
        invariant 0 <= j <= 256 && forall c :: 0 <= c < j ==> d[c] == M
        decreases 256 - j
      {
        d[j] := M;
        j := j + 1;
      }
      j := 0;
      while j != M - 1
        invariant 0 <= j <= M - 1 && forall c :: 0 <= c < 256 ==> IsShift(pat[..M], c, d[c], j)
        decreases M - j
      {
        d[pat[j]] := M - 1 - j;
        j := j + 1;
      }
    }

    method Read() returns (ch: Byte)
      modifies `next
      ensures ch == CharAt(text, old(next)) && next == old(next) + 1
    {
      ch := if next < |text| then text[next] else 0;
      next := next + 1;
    }

    // Move the window on by `n` characters.
    method Forward(n: nat)
      requires Arrays() && n <= M <= MAXLEN && (n < M ==> Window())
      modifies `next, buf
      ensures next == old(next) + n && (old(next) + n >= M ==> Window())
    {
      var m := M - n;
      var j := 0;
      while j != m
        invariant 0 <= j <= m && next == old(next)
        invariant forall k :: 0 <= k < j ==> buf[k] == old(buf[n + k])
        invariant forall k :: j <= k < M ==> buf[k] == old(buf[k])
        decreases m - j
      {
        buf[j] := buf[n + j];
        j := j + 1;
      }
      while j != M
        invariant m <= j <= M && next == old(next) + j - m
        invariant forall k :: 0 <= k < m ==> buf[k] == old(buf[n + k])
        invariant forall k :: m <= k < j ==> buf[k] == CharAt(text, old(next) + k - m)
        decreases M - j
      {
        var ch := Read();
        buf[j] := ch;
        j := j + 1;
      }
    }

    // Compare the window with the pattern from the right; -1 means equal.
    method Compare() returns (j: int)
      requires Valid() && Window()
      ensures j < 0 <==> Occurs(text, Pattern(), next - M)
    {
      j := M;
      j := j - 1;
      while !(j < 0 || buf[j] != pat[j])
        invariant -1 <= j < M && forall k :: j < k < M ==> buf[k] == pat[k]
        decreases j
      {
        j := j - 1;
      }
      if j >= 0 {
        assert CharAt(text, next - M + j) != Pattern()[j];
      }
    }

    // How far to move on.
    method Step() returns (n: nat)
      requires Valid() && Window()
      ensures 1 <= n <= M && NoneBetween(text, Pattern(), next - M + 1, next - M + n)
    {
      n := d[buf[M - 1]];
      NothingSkipped(text, Pattern(), next - M, n);
    }

    // Search `t` from `start`: `pos` is where the first occurrence ends.
    method Find(t: seq<Byte>, start: nat) returns (found: bool, pos: nat)
      requires Valid()
      modifies `text, `next, buf
      ensures found ==> start + M <= pos && Occurs(t, Pattern(), pos - M)
      ensures found ==> NoneBetween(t, Pattern(), start, pos - M)
      ensures !found ==> NoneBetween(t, Pattern(), start, |t| - M + 1)
    {
      hide Occurs, NoneBetween;
      text, next := t, start;
      pos := start;
      Forward(M);
      pos := pos + M;
      NoneYet(t, Pattern(), start);
      var j := Compare();
      while !(j < 0 || pos >= |t|)
        invariant Valid() && text == t && Pattern() == old(Pattern()) && Window() && start + M <= pos == next
        invariant NoneBetween(t, Pattern(), start, pos - M)
        invariant j < 0 <==> Occurs(t, Pattern(), pos - M)
        decreases |t| - pos
      {
        var n := Step();
        Joined(t, Pattern(), start, pos - M, n);
        Forward(n);
        pos := pos + n;
        j := Compare();
      }
      found := j < 0;
      if !found {
        Joined(t, Pattern(), start, pos - M, 1);
        Fewer(t, Pattern(), start, |t| - M + 1, pos - M + 1);
      }
    }
  }
}
