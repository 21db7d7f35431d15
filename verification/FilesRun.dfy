// Any interleaving of Set, Write and Read, by any number of riders on one file,
// behaves as on a flat byte array.
module FilesRun {
  import opened Words
  import opened FileDir
  import opened FileImage
  import opened Files

  datatype Op = Seek(i: nat, pos: int) | Put(i: nat, x: Byte) | Get(i: nat)

  // The flat array, the riders' positions, and the bytes read so far.
  datatype Flat = Flat(c: seq<Byte>, pos: seq<nat>, out: seq<Byte>) {
    ghost predicate Valid() {
      forall i :: 0 <= i < |pos| ==> pos[i] <= |c|
    }
  }

  function FlatStep(s: Flat, op: Op): (t: Flat)
    requires s.Valid() && op.i < |s.pos|
    ensures t.Valid() && |t.pos| == |s.pos|
  {
    match op
    case Seek(i, p) => s.(pos := s.pos[i := if p <= 0 then 0 else if p < |s.c| then p else |s.c|])
    case Put(i, x) => s.(c := FlatPut(s.c, s.pos[i], [x]), pos := s.pos[i := s.pos[i] + 1])
    case Get(i) =>
      if s.pos[i] < |s.c| then s.(pos := s.pos[i := s.pos[i] + 1], out := s.out + [s.c[s.pos[i]]])
      else s.(out := s.out + [0])
  }

  function FlatRun(s: Flat, ops: seq<Op>): (t: Flat)
    requires s.Valid() && forall k :: 0 <= k < |ops| ==> ops[k].i < |s.pos|
    ensures t.Valid() && |t.pos| == |s.pos|
  {
    if ops == [] then s else FlatStep(FlatRun(s, ops[..|ops| - 1]), ops[|ops| - 1])
  }

  // The file and its riders show the flat state `s`.
  ghost predicate Shows(f: File, rs: seq<Rider>, s: Flat)
    reads f, f.Repr, rs
  {
    && f.Valid() && f.contents == s.c && |rs| == |s.pos|
    && forall i :: 0 <= i < |rs| ==> f.Rides(rs[i]) && rs[i].Pos() == s.pos[i]
  }

  // Where a read or write departs from the flat array.
  ghost predicate Departs(f: File, r: Rider, op: Op)
    reads f, f.Repr, r
  {
    !op.Seek? && (f.Stale(r.page) || (op.Get? && f.Spent(r)))
  }

  method Departing(f: File, r: Rider, op: Op) returns (d: bool)
    requires f.Valid() && f.Rides(r)
    ensures d <==> Departs(f, r, op)
  {
    hide Good, PageSet, File.Shape;
    f.Ring();
    var b, _ := f.Buf(r.page);
    d := !op.Seek? && ((f.nofbufs == MAX_BUFS && r.page >= f.length && b == null)
                       || (op.Get? && r.page + r.pageofs == f.length && r.pageofs == PAGE_SIZE));
  }

  method Step(f: File, rs: seq<Rider>, op: Op, ghost s: Flat) returns (x: Byte)
    requires Shows(f, rs, s) && op.i < |rs| && !Departs(f, rs[op.i], op)
    requires forall i, j :: 0 <= i < j < |rs| ==> rs[i] != rs[j]
    modifies f.Repr, rs
    ensures fresh(f.Repr - old(f.Repr)) && s.Valid()
    ensures op.Get? ==> Shows(f, rs, FlatStep(s, op)) && FlatStep(s, op).out == s.out + [x]
    ensures !op.Get? ==> Shows(f, rs, FlatStep(s, op)) && FlatStep(s, op).out == s.out
  {
    hide Good, PageSet, File.Shape, FlatPut;
    f.Ring();
    x := 0;
    match op
    case Seek(i, p) =>
      rs[i].Set(f, p);
    case Put(i, b) =>
      FlatPutSize(s.c, s.pos[i], [b]);
      f.Write(rs[i], b);
    case Get(i) =>
      var nil;
      x, nil := f.Read(rs[i]);
  }

  // Replay a list of operations, up to the first that departs from the flat array.
  method Replay(f: File, rs: seq<Rider>, ops: seq<Op>, ghost s: Flat) returns (out: seq<Byte>, k: nat)
    requires Shows(f, rs, s) && s.out == []
    requires forall i, j :: 0 <= i < j < |rs| ==> rs[i] != rs[j]
    requires forall i :: 0 <= i < |ops| ==> ops[i].i < |rs|
    modifies f.Repr, rs
    ensures k <= |ops| && s.Valid() && Shows(f, rs, FlatRun(s, ops[..k])) && out == FlatRun(s, ops[..k]).out
    ensures k < |ops| ==> Departs(f, rs[ops[k].i], ops[k])
  {
    hide Good, PageSet, File.Shape, FlatPut, FlatStep;
    out, k := [], 0;
    while k < |ops|
      invariant k <= |ops| && s.Valid() && fresh(f.Repr - old(f.Repr))
      invariant Shows(f, rs, FlatRun(s, ops[..k])) && out == FlatRun(s, ops[..k]).out
    {
      var d := Departing(f, rs[ops[k].i], ops[k]);
      if d {
        return;
      }
      assert ops[..k + 1][..k] == ops[..k];
      var x := Step(f, rs, ops[k], FlatRun(s, ops[..k]));
      if ops[k].Get? {
        out := out + [x];
      }
      k := k + 1;
    }
  }

  // Writing `x` byte by byte through rider `i`.
  function Puts(i: nat, x: seq<Byte>): seq<Op> {
    seq(|x|, j requires 0 <= j < |x| => Put(i, x[j]))
  }

  // One WriteBytes leaves the same bytes and position as a Write for each byte ...
  lemma {:induction false} BytesAreWrites(s: Flat, i: nat, x: seq<Byte>)
    requires s.Valid() && i < |s.pos|
    ensures var t := FlatRun(s, Puts(i, x));
            t.c == FlatPut(s.c, s.pos[i], x) && t.pos == s.pos[i := s.pos[i] + |x|] && t.out == s.out
  {
    if x != [] {
      var n := |x| - 1;
      assert Puts(i, x)[..n] == Puts(i, x[..n]);
      BytesAreWrites(s, i, x[..n]);
      FlatPutMore(s.c, s.pos[i], x, n, |x|);
      assert x[n..|x|] == [x[n]] && x[..|x|] == x;
    }
  }

  // ... and the same length exactly when it does not straddle a part-filled last page, and does
  // not begin at a stale one.
  lemma LengthIsRight(len: nat, at: nat, n: nat, late: bool)
    requires at <= len && (late ==> at == len)
    ensures Excess(len, at, n) == Missing(late, n) <==> !(at < len < at + n && len % PAGE_SIZE != 0) && !(late && n > 0)
    ensures Excess(len, at, n) <= len - at
  {
  }

  // A file not yet on disk buffers its first four pages and no others.
  lemma NewHeld(f: File, q: nat)
    requires f.Valid() && f.handle == null && q % PAGE_SIZE == 0
    ensures |f.ring| == MAX_BUFS && (Held(f.now.pages, q) <==> q < MAX_BUFS * PAGE_SIZE)
  {
    var ps := f.now.pages;
    assert forall i :: 0 <= i < |ps| ==> ps[i].at == i * PAGE_SIZE;
    if q < MAX_BUFS * PAGE_SIZE {
      assert ps[q / PAGE_SIZE].at == q;
    }
  }

  // A new file with `n` bytes written to it, which never leave its buffers.
  method Fill(n: nat, x: Byte) returns (f: File, r: Rider)
    requires n <= MAX_BUFS * PAGE_SIZE
    ensures f.Valid() && f.Rides(r) && fresh(f.Repr) && fresh(r)
    ensures |f.contents| == r.Pos() == n && f.handle == null && (n > 0 ==> r.pageofs > 0)
  {
    hide Good, PageSet, File.Shape, FlatPut;
    f := new File.New();
    r := new Rider();
    r.Set(f, 0);
    for i := 0 to n
      invariant f.Valid() && f.Rides(r) && fresh(f.Repr) && fresh(r)
      invariant |f.contents| == r.Pos() == i && f.handle == null && (i > 0 ==> r.pageofs > 0)
    {
      NewHeld(f, r.page);
      NewHeld(f, r.page + PAGE_SIZE);
      FlatPutSize(f.contents, r.Pos(), [x]);
      f.Write(r, x);
    }
  }

  // After one full page is written the rider has used it up, and a Read takes it past the end.
  method SpentExample(x: Byte) returns (f: File, r: Rider, y: Byte)
    ensures |f.contents| == PAGE_SIZE && r.Pos() == PAGE_SIZE + 1
  {
    hide Good, PageSet, File.Shape;
    f, r := Fill(PAGE_SIZE, x);
    assert f.Spent(r);
    NewHeld(f, 0);
    NewHeld(f, PAGE_SIZE);
    var nil;
    y, nil := f.Read(r);
  }

  // With four full pages written and the rider set to the end, the page there is stale, and the
  // length does not count a byte written to it.
  method StaleExample(x: Byte) returns (f: File, r: Rider)
    ensures |f.contents| == MAX_BUFS * PAGE_SIZE + 1 && f.length == MAX_BUFS * PAGE_SIZE
  {
    hide Good, PageSet, File.Shape, FlatPut;
    f, r := Fill(MAX_BUFS * PAGE_SIZE, x);
    r.Set(f, MAX_BUFS * PAGE_SIZE);
    NewHeld(f, r.page);
    assert f.Stale(r.page);
    FlatPutSize(f.contents, r.Pos(), [x]);
    f.Write(r, x);
  }

  // A file on disk with the bytes of `data`.
  method Stored(data: array<Byte>) returns (h: Handle)
    ensures fresh(h) && h.bytes == data[..]
  {
    h := new Handle.Create();
    h.Write(data.Length, data);
    assert data[..data.Length] == data[..];
  }

  // Two bytes written over the last byte of a three-byte file: it has four, and the length says
  // five.
  method StraddleExample() returns (f: File, r: Rider)
    ensures f.contents == [1, 2, 4, 5] && f.length == 5
  {
    hide Good, PageSet, File.Shape, FlatPut, Excess;
    var data, x := new Byte[3][1, 2, 3], new Byte[2][4, 5];
    Straddles(data[..], x[..2]);
    var h := Stored(data);
    f := new File.Old(h);
    r := new Rider();
    r.Set(f, 2);
    f.WriteBytes(r, x, 2);
  }

  lemma Straddles(c: seq<Byte>, x: seq<Byte>)
    requires c == [1, 2, 3] && x == [4, 5]
    ensures FlatPut(c, 2, x) == [1, 2, 4, 5] && Excess(3, 2, 2) == 1
  {
    assert 3 % PAGE_SIZE == 3;
  }
}
