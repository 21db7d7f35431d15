// Numbers written to a file through one rider and read back through another.
module NumFiles {
  import opened Words
  import opened FileImage
  import opened Files
  import opened NumCodec

  lemma FlatPutAppend(s: seq<Byte>, pos: nat, a: seq<Byte>, b: seq<Byte>)
    requires pos <= |s|
    ensures pos + |a| <= |FlatPut(s, pos, a)|
    ensures FlatPut(FlatPut(s, pos, a), pos + |a|, b) == FlatPut(s, pos, a + b)
  {
    FlatPutMore(s, pos, a + b, |a|, |a + b|);
    assert (a + b)[..|a|] == a && (a + b)[|a|..|a + b|] == b && (a + b)[..|a + b|] == a + b;
  }

  lemma FlatPutAt(s: seq<Byte>, pos: nat, x: seq<Byte>)
    requires pos <= |s|
    ensures pos + |x| <= |FlatPut(s, pos, x)| && FlatPut(s, pos, x)[pos..pos + |x|] == x
  {
  }

  // Rider `r` has written `x` from position `at` of the file `c`.
  ghost predicate Wrote(f: File, r: Rider, c: seq<Byte>, at: nat, x: seq<Byte>)
    reads f, f.Repr, r
  {
    && f.Valid() && f.Rides(r) && at <= |c| && f.contents == FlatPut(c, at, x) && r.Pos() == at + |x|
    && (x != [] ==> r.pageofs > 0)
  }

  method WriteByte(f: File, r: Rider, b: Byte, ghost c: seq<Byte>, ghost at: nat, ghost x: seq<Byte>)
    requires Wrote(f, r, c, at, x) && !f.Stale(r.page)
    modifies f.Repr, r
    ensures Wrote(f, r, c, at, x + [b]) && !f.Stale(r.page) && fresh(f.Repr - old(f.Repr))
  {
    hide FlatPut, PageSet, Good, File.Shape;
    FlatPutAppend(c, at, x, [b]);
    FlatPutSize(f.contents, r.Pos(), [b]);
    f.Write(r, b);
  }

  // The number's code is put into the file, byte by byte.
  method WriteNum(f: File, r: Rider, x: int, ghost c: seq<Byte>, ghost at: nat, ghost before: seq<Byte>)
    requires Wrote(f, r, c, at, before) && !f.Stale(r.page)
    modifies f.Repr, r
    ensures Wrote(f, r, c, at, before + Encode(x)) && !f.Stale(r.page) && fresh(f.Repr - old(f.Repr))
  {
    hide Wrote, File.Stale;
    var rest := x;
    ghost var out: seq<Byte> := [];
    assert before + [] == before;
    while rest < -64 || rest > 63
      invariant Encode(x) == out + Encode(rest)
      invariant Wrote(f, r, c, at, before + out) && !f.Stale(r.page) && fresh(f.Repr - old(f.Repr))
      decreases if rest < 0 then -rest else rest
    {
      WriteByte(f, r, rest % 128 + 128, c, at, before + out);
      assert before + out + [rest % 128 + 128] == before + (out + [rest % 128 + 128]);
      out := out + [rest % 128 + 128];
      rest := rest / 128;
    }
    WriteByte(f, r, rest % 128, c, at, before + out);
    assert before + out + [rest % 128] == before + (out + [rest % 128]);
  }

  method WriteNums(f: File, r: Rider, xs: seq<int>)
    requires f.Valid() && f.Rides(r) && !f.Stale(r.page)
    modifies f.Repr, r
    ensures Wrote(f, r, old(f.contents), old(r.Pos()), EncodeAll(xs)) && fresh(f.Repr - old(f.Repr))
  {
    ghost var c, at := f.contents, r.Pos();
    assert FlatPut(c, at, []) == c;
    assert Wrote(f, r, c, at, EncodeAll(xs[..0]));
    hide Wrote, File.Stale, Encode, FlatPut;
    for i := 0 to |xs|
      invariant Wrote(f, r, c, at, EncodeAll(xs[..i])) && !f.Stale(r.page) && fresh(f.Repr - old(f.Repr))
    {
      WriteNum(f, r, xs[i], c, at, EncodeAll(xs[..i]));
      EncodeMore(xs[..i], xs[i]);
      assert xs[..i + 1] == xs[..i] + [xs[i]];
    }
    assert xs[..|xs|] == xs;
  }

  lemma {:induction false} EncodeMore(xs: seq<int>, x: int)
    ensures EncodeAll(xs + [x]) == EncodeAll(xs) + Encode(x)
  {
    hide Encode;
    if xs == [] {
      assert [x][1..] == [] && [] + [x] == [x];
      assert Encode(x) + [] == Encode(x) == [] + Encode(x);
    } else {
      assert (xs + [x])[1..] == xs[1..] + [x];
      EncodeMore(xs[1..], x);
      assert Encode(xs[0]) + (EncodeAll(xs[1..]) + Encode(x)) == Encode(xs[0]) + EncodeAll(xs[1..]) + Encode(x);
    }
  }

  // A Read is plain inside the file, and at its end unless that is the end of a page.
  method ReadByte(f: File, r: Rider) returns (b: Byte)
    requires f.Valid() && f.Rides(r) && (r.Pos() < |f.contents| || |f.contents| % PAGE_SIZE != 0)
    modifies f.Repr, r
    ensures f.Valid() && f.Rides(r) && f.contents == old(f.contents) && fresh(f.Repr - old(f.Repr))
    ensures old(r.Pos()) < |f.contents| ==> b == f.contents[old(r.Pos())] && r.Pos() == old(r.Pos()) + 1
    ensures old(r.Pos()) == |f.contents| ==> b == 0 && r.Pos() == old(r.Pos()) && r.eof
  {
    hide PageSet, Good, File.Shape;
    var nil;
    b, nil := f.Read(r);
  }

  // Every step in 32 bits. Where the file ends, 0X is read.
  method ReadNum(f: File, r: Rider) returns (x: int)
    requires f.Valid() && f.Rides(r)
    requires Length(f.contents[r.Pos()..]) > 0 || |f.contents| % PAGE_SIZE != 0
    modifies f.Repr, r
    ensures f.Valid() && f.Rides(r) && f.contents == old(f.contents) && fresh(f.Repr - old(f.Repr))
    ensures var s := f.contents[old(r.Pos())..];
      x == Machine(Coded(s)) && r.Pos() == old(r.Pos()) + (if Length(s) > 0 then Length(s) else |s|)
  {
    hide Placed, MachineLsh, MachineAsh, Int, Length, File.Valid;
    ghost var s, pos := f.contents, r.Pos();
    ghost var c, k := Coded(s[pos..]), 0;
    var n, y := 0, 0;
    var ch := ReadByte(f, r);
    while ch >= 0x80
      invariant f.Valid() && f.Rides(r) && f.contents == s && fresh(f.Repr - old(f.Repr))
      invariant k < |c| && n == 7 * k && ch == c[k] && y == Digits(c, k)
      invariant r.Pos() == if pos + k < |s| then pos + k + 1 else |s|
      decreases |c| - k
    {
      y := Int(y + Placed(ch, n));
      n := n + 7;
      ch := ReadByte(f, r);
      k := k + 1;
    }
    x := Int(MachineAsh(MachineLsh(ch, 25), n - 25) + y);
  }

  // Each of `n` codes is there in turn.
  predicate AllReadable(s: seq<Byte>, n: nat) {
    n == 0 || (Readable(s) && AllReadable(s[Length(s)..], n - 1))
  }

  lemma OneRead(s: seq<Byte>, n: nat)
    requires n > 0 && AllReadable(s, n)
    ensures 0 < Length(s) <= |s| && AllReadable(s[Length(s)..], n - 1)
    ensures var (xs, rest) := DecodeAll(s[Length(s)..], n - 1); DecodeAll(s, n) == ([Machine(Coded(s))] + xs, rest)
  {
    hide Machine;
    MachineReads(Code(s));
  }

  lemma NoneRead(s: seq<Byte>)
    ensures DecodeAll(s, 0) == ([], s)
  {
  }

  method ReadNums(f: File, r: Rider, n: nat) returns (xs: seq<int>)
    requires f.Valid() && f.Rides(r) && AllReadable(f.contents[r.Pos()..], n)
    modifies f.Repr, r
    ensures f.Valid() && f.Rides(r) && f.contents == old(f.contents) && fresh(f.Repr - old(f.Repr))
    ensures (xs, f.contents[r.Pos()..]) == DecodeAll(f.contents[old(r.Pos())..], n)
  {
    hide File.Valid, Machine, Coded, Length, AllReadable, DecodeAll;
    xs := [];
    ghost var s, at := f.contents, r.Pos();
    assert [] + DecodeAll(s[at..], n).0 == DecodeAll(s[at..], n).0;
    for i := 0 to n
      invariant f.Valid() && f.Rides(r) && f.contents == s && fresh(f.Repr - old(f.Repr)) && at <= r.Pos()
      invariant AllReadable(s[r.Pos()..], n - i)
      invariant var (ys, rest) := DecodeAll(s[r.Pos()..], n - i); DecodeAll(s[at..], n) == (xs + ys, rest)
    {
      ghost var p := r.Pos();
      OneRead(s[p..], n - i);
      var x := ReadNum(f, r);
      assert s[p..][Length(s[p..])..] == s[r.Pos()..];
      ghost var (ys, rest) := DecodeAll(s[r.Pos()..], n - i - 1);
      assert xs + ([x] + ys) == xs + [x] + ys;
      xs := xs + [x];
    }
    NoneRead(s[r.Pos()..]);
    assert xs + [] == xs;
  }

  lemma {:induction false} CodesReadable(xs: seq<int>, rest: seq<Byte>)
    requires forall x :: x in xs ==> Int32(x)
    ensures AllReadable(EncodeAll(xs) + rest, |xs|)
  {
    hide Encode, Value, Readable, Int, Code, IsCode;
    if xs != [] {
      var c, tail := Encode(xs[0]), EncodeAll(xs[1..]) + rest;
      EncodedReads(xs[0], tail);
      assert EncodeAll(xs) + rest == c + tail;
      assert (c + tail)[|c|..] == tail;
      CodesReadable(xs[1..], rest);
    }
  }

  // The codes of `xs` at `pos` are read as `xs`.
  method ReadBack(f: File, r: Rider, pos: nat, ghost xs: seq<int>, n: nat) returns (ys: seq<int>)
    requires f.Valid() && r !in f.Repr && n == |xs| && forall x :: x in xs ==> Int32(x)
    requires pos + |EncodeAll(xs)| <= |f.contents| && f.contents[pos..pos + |EncodeAll(xs)|] == EncodeAll(xs)
    modifies f.Repr, r
    ensures ys == xs && f.Valid() && f.Rides(r) && r.Pos() == pos + |EncodeAll(xs)| && f.contents == old(f.contents)
    ensures fresh(f.Repr - old(f.Repr))
  {
    hide File.Valid, EncodeAll, DecodeAll, AllReadable, Int32;
    ghost var out := EncodeAll(xs);
    ghost var rest := f.contents[pos + |out|..];
    assert f.contents[pos..] == out + rest by { Pieces(f.contents, pos, pos + |out|); }
    CodesReadable(xs, rest);
    RoundTrip(xs, rest);
    r.Set(f, pos);
    ys := ReadNums(f, r, n);
    assert |f.contents[r.Pos()..]| == |rest|;
  }

  lemma Pieces(s: seq<Byte>, i: nat, j: nat)
    requires i <= j <= |s|
    ensures s[i..] == s[i..j] + s[j..]
  {
  }

  // What one rider writes into a file, wherever it is, any rider set to the same place reads back.
  method WriteAndRead(f: File, w: Rider, r: Rider, xs: seq<int>) returns (ys: seq<int>)
    requires f.Valid() && f.Rides(w) && !f.Stale(w.page) && r !in f.Repr && r != w
    requires forall x :: x in xs ==> Int32(x)
    modifies f.Repr, w, r
    ensures ys == xs && f.Valid() && f.Rides(r) && r.Pos() == old(w.Pos()) + |EncodeAll(xs)|
    ensures f.contents == FlatPut(old(f.contents), old(w.Pos()), EncodeAll(xs))
  {
    hide FlatPut, PageSet, Good, File.Shape, EncodeAll, File.Stale;
    var pos := w.page + w.pageofs;
    FlatPutAt(f.contents, pos, EncodeAll(xs));
    WriteNums(f, w, xs);
    ys := ReadBack(f, r, pos, xs, |xs|);
  }
}
