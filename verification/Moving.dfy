// What each step of loading leaves in two heaps that lie `d` bytes apart, tags included.
module Moving {
  import opened Words
  import opened Heap
  import opened Loader
  import opened Relocation
  import opened Bootstrap

  // ---- The same bootstrap, `d` bytes further up ------------------------------------------

  function MovedAlloc(a: Alloc, d: int): Alloc {
    match a
    case SystemBlock(_) => a
    case ModuleBlock(size, td) => ModuleBlock(size, Shift(td, d))
    case ArrayBlock(bytes, bound, header, td, others) => ArrayBlock(bytes, bound, header, Shift(td, d), others)
  }

  function MovedAllocs(news: seq<Alloc>, d: int): seq<Alloc> {
    seq(|news|, i requires 0 <= i < |news| => MovedAlloc(news[i], d))
  }

  function MovedFill(f: Fill, d: int): Fill {
    if f.address then f.(v := Carried(f.v, d, 1)) else f
  }

  function MovedFills(fills: seq<Fill>, d: int): seq<Fill> {
    seq(|fills|, i requires 0 <= i < |fills| => MovedFill(fills[i], d))
  }

  function MovedPart(p: Part, d: int): Part {
    Part(MovedAllocs(p.allocs, d), MovedFills(p.fills, d), Moved(p.m, d), MovedAll(p.fs, d))
  }

  function MovedParts(ps: seq<Part>, d: int): seq<Part> {
    seq(|ps|, i requires 0 <= i < |ps| => MovedPart(ps[i], d))
  }

  // Both heaps are where heaps can be, and so are the descriptors named.
  predicate Apart(base: int, total: nat, d: int) {
    Dims(base, total) && Dims(base + d, total)
  }

  predicate Inside(base: int, total: nat, a: Alloc) {
    a.Fine() && (!a.SystemBlock? && a.td != 0 ==> base <= a.td < base + total)
  }

  // ---- How often each word counts where the heap is ----------------------------------------

  function NilWeight(adr: int): int {
    if adr == 0 then 0 else 1
  }

  function ZeroAll(w: seq<int>, at: nat, n: nat): (r: seq<int>)
    requires at + 4 * n <= |w|
    ensures |r| == |w|
  {
    if n == 0 then w else ZeroAll(w, at, n - 1)[at + 4 * (n - 1) := 0]
  }

  function AllocWeights(w: seq<int>, total: nat, curr: nat, a: Alloc): (r: seq<int>)
    requires a.Fine() && curr + a.Size() <= total && |w| == total + 8
    ensures |r| == |w|
  {
    var cut := w[curr + a.Size() := 0][curr + a.Size() + 4 := 0];
    match a
    case SystemBlock(_) => cut[curr := 0]
    case ModuleBlock(_, td) => cut[curr := 0][curr := NilWeight(td)]
    case ArrayBlock(_, _, header, td, others) =>
      var tagged := cut[curr := 1][curr + 4 := 0];
      ZeroAll(tagged, curr + 8, |others|)[curr + header - 4 := 0][curr + header := NilWeight(td)]
  }

  lemma Updated(mem0: seq<Word>, mem1: seq<Word>, w: seq<int>, d: int, i: nat, x: Word, y: Word, k: int)
    requires Relocated(mem0, mem1, w, d) && i < |w| && y == Carried(x, d, k)
    ensures Relocated(mem0[i := x], mem1[i := y], w[i := k], d)
  {
    hide Carried;
  }

  lemma Still(x: Word, d: int)
    ensures Carried(x, d, 0) == x
  {
    assert d * 0 == 0;
  }

  lemma Once(x: Word, y: Word, d: int)
    requires x + d == y as int
    ensures Carried(x, d, 1) == y
  {
    assert d * 1 == d;
  }

  lemma {:induction false} PutsMove(mem0: seq<Word>, mem1: seq<Word>, w: seq<int>, d: int, at: nat, ws: seq<Word>)
    requires Relocated(mem0, mem1, w, d) && at + 4 * |ws| <= |w|
    ensures Relocated(PutAll(mem0, at, ws), PutAll(mem1, at, ws), ZeroAll(w, at, |ws|), d)
    decreases |ws|
  {
    hide Relocated, Carried;
    if ws != [] {
      var n := |ws| - 1;
      PutsMove(mem0, mem1, w, d, at, ws[..n]);
      Still(ws[n], d);
      RelocatedSize(mem0, mem1, w, d);
      Updated(PutAll(mem0, at, ws[..n]), PutAll(mem1, at, ws[..n]), ZeroAll(w, at, n), d, at + 4 * n, ws[n], ws[n], 0);
    }
  }

  lemma RelocatedSize(mem0: seq<Word>, mem1: seq<Word>, w: seq<int>, d: int)
    requires Relocated(mem0, mem1, w, d)
    ensures |mem0| == |mem1| == |w|
  {
  }

  // ---- Allocations move --------------------------------------------------------------------

  lemma MovedFine(base: int, total: nat, a: Alloc, d: int)
    requires Apart(base, total, d) && Inside(base, total, a)
    ensures MovedAlloc(a, d).Fine() && MovedAlloc(a, d).Size() == a.Size() && Inside(base + d, total, MovedAlloc(a, d))
  {
    hide AlignBlockSize;
    if !a.SystemBlock? && a.td != 0 {
      Sixteen(base, d, a.td);
    }
  }

  lemma Sixteen(base: int, d: int, td: int)
    requires base % 16 == 12 && (base + d) % 16 == 12 && td % 16 == 0
    ensures (td + d) % 16 == 0
  {
    var q, r, s := base / 16, (base + d) / 16, td / 16;
    assert td + d == 16 * (s + r - q);
  }

  lemma CutMoves(mem0: seq<Word>, mem1: seq<Word>, w: seq<int>, d: int, total: nat, curr: nat, size: nat)
    requires Relocated(mem0, mem1, w, d) && curr + size <= total < TWO31 && |w| == total + 8
    ensures |mem0| == |mem1| == |w|
    ensures Relocated(Cut(mem0, total, curr, size), Cut(mem1, total, curr, size), w[curr + size := 0][curr + size + 4 := 0], d)
  {
    RelocatedSize(mem0, mem1, w, d);
    hide Relocated, Carried;
    var free: Word := total - curr - size + FREE;
    Still(free, d);
    Still(0, d);
    Updated(mem0, mem1, w, d, curr + size, free, free, 0);
    Updated(mem0[curr + size := free], mem1[curr + size := free], w[curr + size := 0], d, curr + size + 4, 0, 0, 0);
  }

  lemma TdMoves(td: int, d: int, flags: int)
    requires 0 <= td < TWO31 && 0 <= Shift(td, d) < TWO31 && 0 <= flags < 16
    ensures Carried(td + flags, d, NilWeight(td)) == Shift(td, d) + flags
  {
    if td == 0 {
      Still(flags, d);
    } else {
      Once(td + flags, td + d + flags, d);
    }
  }

  lemma HeaderMoves(mem0: seq<Word>, mem1: seq<Word>, w: seq<int>, d: int, off: nat, a: Alloc)
    requires Relocated(mem0, mem1, w, d) && a.ArrayBlock? && a.Fine() && MovedAlloc(a, d).Fine()
    requires off + a.Size() <= |w| < TWO31 + 8 && MovedAlloc(a, d).Size() == a.Size()
    ensures |mem0| == |mem1| == |w|
    ensures Relocated(Header(mem0, off, a), Header(mem1, off, MovedAlloc(a, d)),
              ZeroAll(w[off + 4 := 0], off + 8, |a.others|)[off + a.header - 4 := 0][off + a.header := NilWeight(a.td)], d)
  {
    RelocatedSize(mem0, mem1, w, d);
    TdMoves(a.td, d, MARK + ARAY);
    Still(a.Size(), d);
    Still(a.bound, d);
    hide Relocated, Carried;
    var m0, m1, v := mem0[off + 4 := a.Size()], mem1[off + 4 := a.Size()], w[off + 4 := 0];
    Updated(mem0, mem1, w, d, off + 4, a.Size(), a.Size(), 0);
    PutsMove(m0, m1, v, d, off + 8, a.others);
    var n0, n1, u := PutAll(m0, off + 8, a.others), PutAll(m1, off + 8, a.others), ZeroAll(v, off + 8, |a.others|);
    Updated(n0, n1, u, d, off + a.header - 4, a.bound, a.bound, 0);
    Updated(n0[off + a.header - 4 := a.bound], n1[off + a.header - 4 := a.bound], u[off + a.header - 4 := 0], d, off + a.header,
            a.td + MARK + ARAY, Shift(a.td, d) + MARK + ARAY, NilWeight(a.td));
  }

  lemma ApartRanges(base: int, total: nat, d: int)
    requires Apart(base, total, d)
    ensures 0 < base && 0 < base + d && base + total + 8 < TWO31 && base + d + total + 8 < TWO31
  {
  }

  // One allocation, in both heaps.
  lemma AllocMoves(mem0: seq<Word>, mem1: seq<Word>, w: seq<int>, d: int, base: int, total: nat, curr: nat, a: Alloc)
    requires Relocated(mem0, mem1, w, d) && |w| == total + 8 && Apart(base, total, d) && Inside(base, total, a) && curr + a.Size() <= total
    ensures |mem0| == |mem1| == |w| && MovedAlloc(a, d).Fine() && MovedAlloc(a, d).Size() == a.Size()
    ensures Relocated(Allocated(mem0, base, total, curr, a), Allocated(mem1, base + d, total, curr, MovedAlloc(a, d)),
                      AllocWeights(w, total, curr, a), d)
  {
    hide Relocated, Carried, AlignBlockSize, Cut, Header, ZeroAll, Apart;
    ApartRanges(base, total, d);
    RelocatedSize(mem0, mem1, w, d);
    MovedFine(base, total, a, d);
    CutMoves(mem0, mem1, w, d, total, curr, a.Size());
    var c0, c1 := Cut(mem0, total, curr, a.Size()), Cut(mem1, total, curr, a.Size());
    var v := w[curr + a.Size() := 0][curr + a.Size() + 4 := 0];
    match a {
      case SystemBlock(_) =>
        Still(a.Size() + MARK + SYST, d);
        Updated(c0, c1, v, d, curr, a.Size() + MARK + SYST, a.Size() + MARK + SYST, 0);
      case ModuleBlock(_, td) =>
        var tag: Word := a.Size() + MARK + SYST;
        Still(tag, d);
        TdMoves(td, d, MARK);
        Updated(c0, c1, v, d, curr, tag, tag, 0);
        Updated(c0[curr := tag], c1[curr := tag], v[curr := 0], d, curr, td + MARK, Shift(td, d) + MARK, NilWeight(td));
      case ArrayBlock(_, _, header, _, _) =>
        var tag: Word, tag': Word := base + curr + 4 + header + MARK + ARAY, base + d + curr + 4 + header + MARK + ARAY;
        Once(tag, tag', d);
        Updated(c0, c1, v, d, curr, tag, tag', 1);
        HeaderMoves(c0[curr := tag], c1[curr := tag'], v[curr := 1], d, curr, a);
    }
  }

  // ---- A module moves ----------------------------------------------------------------------

  ghost predicate AllInside(base: int, total: nat, news: seq<Alloc>) {
    forall a :: a in news ==> Inside(base, total, a)
  }

  function AllAllocWeights(w: seq<int>, total: nat, curr: nat, news: seq<Alloc>): (r: seq<int>)
    requires |w| == total + 8 && Room(total, curr, news)
    ensures |r| == |w|
    decreases |news|
  {
    if news == [] then w else
      var init := news[..|news| - 1];
      AllocWeights(AllAllocWeights(w, total, curr, init), total, CurrAfter(curr, init), news[|news| - 1])
  }

  lemma {:induction false} MovedRoom(base: int, total: nat, curr: nat, news: seq<Alloc>, d: int)
    requires Apart(base, total, d) && AllInside(base, total, news) && Room(total, curr, news)
    ensures CurrAfter(curr, MovedAllocs(news, d)) == CurrAfter(curr, news) && Room(total, curr, MovedAllocs(news, d))
    decreases |news|
  {
    hide Inside, Apart, MovedAlloc, AlignBlockSize;
    if news != [] {
      var init, a := news[..|news| - 1], news[|news| - 1];
      assert a in news;
      MovedRoom(base, total, curr, init, d);
      MovedFine(base, total, a, d);
      assert MovedAllocs(news, d)[..|news| - 1] == MovedAllocs(init, d);
    }
  }

  lemma {:induction false} AllocsMove(mem0: seq<Word>, mem1: seq<Word>, w: seq<int>, d: int, base: int, total: nat, curr: nat, news: seq<Alloc>)
    requires Relocated(mem0, mem1, w, d) && |w| == |mem0| == |mem1| == total + 8
    requires Apart(base, total, d) && AllInside(base, total, news) && Room(total, curr, news) && Room(total, curr, MovedAllocs(news, d))
    ensures Relocated(AllocAll(mem0, base, total, curr, news), AllocAll(mem1, base + d, total, curr, MovedAllocs(news, d)),
                      AllAllocWeights(w, total, curr, news), d)
    decreases |news|
  {
    hide Relocated, Inside, MovedAlloc, AlignBlockSize, Allocated, AllocWeights, Dims;
    if news != [] {
      var init, a := news[..|news| - 1], news[|news| - 1];
      assert a in news;
      MovedRoom(base, total, curr, init, d);
      AllocsMove(mem0, mem1, w, d, base, total, curr, init);
      assert MovedAllocs(news, d)[..|news| - 1] == MovedAllocs(init, d);
      AllocMoves(AllocAll(mem0, base, total, curr, init), AllocAll(mem1, base + d, total, curr, MovedAllocs(init, d)),
                 AllAllocWeights(w, total, curr, init), d, base, total, CurrAfter(curr, init), a);
    }
  }

  function FillWeights(w: seq<int>, fills: seq<Fill>): (r: seq<int>)
    requires forall f :: f in fills ==> f.off < |w|
    ensures |r| == |w|
    decreases |fills|
  {
    if fills == [] then w else
      var f := fills[|fills| - 1];
      assert f in fills;
      FillWeights(w, fills[..|fills| - 1])[f.off := if f.address then 1 else 0]
  }

  lemma {:induction false} FillsMove(mem0: seq<Word>, mem1: seq<Word>, w: seq<int>, d: int, fills: seq<Fill>)
    requires Relocated(mem0, mem1, w, d) && |w| == |mem0| == |mem1| && forall f :: f in fills ==> f.off < |w|
    ensures forall f :: f in MovedFills(fills, d) ==> f.off < |w|
    ensures Relocated(FillAll(mem0, fills), FillAll(mem1, MovedFills(fills, d)), FillWeights(w, fills), d)
    decreases |fills|
  {
    hide Relocated, Carried;
    FillsFit(|w|, d, fills);
    if fills != [] {
      var init, f := fills[..|fills| - 1], fills[|fills| - 1];
      assert f in fills;
      FillsMove(mem0, mem1, w, d, init);
      assert MovedFills(fills, d)[..|fills| - 1] == MovedFills(init, d);
      Still(f.v, d);
      Updated(FillAll(mem0, init), FillAll(mem1, MovedFills(init, d)), FillWeights(w, init), d, f.off, f.v, MovedFill(f, d).v,
              if f.address then 1 else 0);
    }
  }

  lemma FillsFit(len: nat, d: int, fills: seq<Fill>)
    requires forall f :: f in fills ==> f.off < len
    ensures forall f :: f in MovedFills(fills, d) ==> f.off < len
  {
    forall f | f in MovedFills(fills, d) ensures f.off < len {
      var i :| 0 <= i < |fills| && f == MovedFill(fills[i], d);
      assert fills[i] in fills;
    }
  }

  // The blocks of the two heaps, but for the descriptors named.
  ghost predicate SameShape(bs: seq<Block>, cs: seq<Block>) {
    |bs| == |cs| && forall i :: 0 <= i < |bs| ==> SameBlock(bs[i], cs[i])
  }

  predicate SameBlock(b: Block, c: Block) {
    && b.off == c.off && b.size == c.size && DataAt(b) == DataAt(c)
    && b.kind.Array? == c.kind.Array? && b.kind.Module? == c.kind.Module?
  }

  lemma SameData(bs: seq<Block>, cs: seq<Block>, w: nat)
    requires SameShape(bs, cs) && InData(bs, w)
    ensures InData(cs, w)
  {
    var k :| 0 <= k < |bs| && DataAt(bs[k]) <= w < End(bs[k]);
    assert DataAt(cs[k]) <= w < End(cs[k]);
  }

  lemma {:induction false} ShapesAfter(bs: seq<Block>, cs: seq<Block>, base: int, total: nat, curr: nat, news: seq<Alloc>, d: int)
    requires SameShape(bs, cs) && Apart(base, total, d) && AllInside(base, total, news) && Room(total, curr, news)
    ensures SameShape(BlocksAfter(bs, curr, news), BlocksAfter(cs, curr, MovedAllocs(news, d)))
    decreases |news|
  {
    hide Inside, AlignBlockSize, Apart;
    if news != [] {
      var init, a := news[..|news| - 1], news[|news| - 1];
      assert a in news;
      ShapesAfter(bs, cs, base, total, curr, init, d);
      MovedRoom(base, total, curr, init, d);
      MovedFine(base, total, a, d);
      assert MovedAllocs(news, d)[..|news| - 1] == MovedAllocs(init, d);
    }
  }

  ghost predicate Movable(base: int, total: nat, p: Part) {
    AllInside(base, total, p.allocs) && forall f :: f in p.fs ==> Complete(p.m, f)
  }

  lemma MovedLoadable(bs: seq<Block>, cs: seq<Block>, curr: nat, base: int, total: nat, p: Part, d: int)
    requires SameShape(bs, cs) && Apart(base, total, d) && Loadable(bs, curr, base, total, p) && Movable(base, total, p)
    ensures Loadable(cs, curr, base + d, total, MovedPart(p, d))
  {
    var q := MovedPart(p, d);
    var bs', cs' := BlocksAfter(bs, curr, p.allocs), BlocksAfter(cs, curr, q.allocs);
    MovedRoom(base, total, curr, p.allocs, d);
    ShapesAfter(bs, cs, base, total, curr, p.allocs, d);
    assert Ranges(total + 8, base, d);
    hide InData, SameShape, Fits, Complete, Room, BlocksAfter, Dims, AllInside, At, Ranges, Moved, MovedFixup;
    forall f | f in q.fills ensures f.off < total + 8 && InData(cs', f.off) {
      var i :| 0 <= i < |p.fills| && f == MovedFill(p.fills[i], d);
      assert p.fills[i] in p.fills;
      SameData(bs', cs', f.off);
    }
    forall f | f in q.fs
      ensures Fits(total + 8, base + d, q.m, f) && At(base + d, q.m, f) >= 0 && InData(cs', At(base + d, q.m, f))
    {
      var i :| 0 <= i < |p.fs| && f == MovedFixup(p.fs[i], d);
      assert p.fs[i] in p.fs;
      FixupMoves(total + 8, base, p.m, p.fs[i], d);
      AtInside(total + 8, base, p.m, p.fs[i]);
      SameData(bs', cs', At(base, p.m, p.fs[i]));
    }
  }

  lemma AtInside(len: nat, base: int, m: Image, f: Fixup)
    requires Fits(len, base, m, f)
    ensures 0 <= At(base, m, f) < len
  {
  }

  ghost function PartWeights(w: seq<int>, base: int, total: nat, curr: nat, bs: seq<Block>, p: Part): (r: seq<int>)
    requires |w| == total + 8 && Loadable(bs, curr, base, total, p)
    ensures |r| == |w|
  {
    Weights(FillWeights(AllAllocWeights(w, total, curr, p.allocs), p.fills), base, p.m, p.fs)
  }

  lemma PartMoves(mem0: seq<Word>, mem1: seq<Word>, w: seq<int>, d: int, base: int, total: nat, curr: nat,
                  bs: seq<Block>, cs: seq<Block>, p: Part)
    requires Relocated(mem0, mem1, w, d) && |w| == |mem0| == |mem1| == total + 8 && SameShape(bs, cs)
    requires Apart(base, total, d) && Loadable(bs, curr, base, total, p) && Movable(base, total, p)
    requires Loadable(cs, curr, base + d, total, MovedPart(p, d))
    ensures Relocated(PartMem(mem0, base, total, curr, bs, p), PartMem(mem1, base + d, total, curr, cs, MovedPart(p, d)),
                      PartWeights(w, base, total, curr, bs, p), d)
  {
    var q := MovedPart(p, d);
    assert Ranges(total + 8, base, d);
    hide Relocated, Fits, Complete, Room, AllInside, AllocAll, AllAllocWeights, FillAll, FillWeights, Load, Weights, InData, Ranges;
    AllocsMove(mem0, mem1, w, d, base, total, curr, p.allocs);
    var m0, m1 := AllocAll(mem0, base, total, curr, p.allocs), AllocAll(mem1, base + d, total, curr, q.allocs);
    var v := AllAllocWeights(w, total, curr, p.allocs);
    FillsMove(m0, m1, v, d, p.fills);
    Relocation.Relocation(FillAll(m0, p.fills), FillAll(m1, q.fills), FillWeights(v, p.fills), base, p.m, p.fs, d);
  }

  // ---- All modules move --------------------------------------------------------------------

  ghost predicate AllMovable(base: int, total: nat, ps: seq<Part>) {
    forall p :: p in ps ==> Movable(base, total, p)
  }

  lemma {:induction false} AllMove(bs: seq<Block>, cs: seq<Block>, curr: nat, base: int, total: nat, ps: seq<Part>, d: int)
    requires SameShape(bs, cs) && Apart(base, total, d) && AllLoadable(bs, curr, base, total, ps) && AllMovable(base, total, ps)
    ensures AllLoadable(cs, curr, base + d, total, MovedParts(ps, d)) && CurrAll(curr, MovedParts(ps, d)) == CurrAll(curr, ps)
    ensures SameShape(BlocksAll(bs, curr, ps), BlocksAll(cs, curr, MovedParts(ps, d)))
    decreases |ps|
  {
    hide SameShape, Apart, Loadable, Movable, CurrAfter, BlocksAfter, MovedPart;
    if ps != [] {
      var init, p := ps[..|ps| - 1], ps[|ps| - 1];
      AllMove(bs, cs, curr, base, total, init, d);
      assert p in ps && MovedParts(ps, d)[..|ps| - 1] == MovedParts(init, d);
      var bs', cs', curr' := BlocksAll(bs, curr, init), BlocksAll(cs, curr, MovedParts(init, d)), CurrAll(curr, init);
      MovedLoadable(bs', cs', curr', base, total, p, d);
      PartShapes(bs', cs', curr', base, total, p, d);
    }
  }

  lemma PartShapes(bs: seq<Block>, cs: seq<Block>, curr: nat, base: int, total: nat, p: Part, d: int)
    requires SameShape(bs, cs) && Apart(base, total, d) && Loadable(bs, curr, base, total, p) && Movable(base, total, p)
    ensures CurrAfter(curr, MovedPart(p, d).allocs) == CurrAfter(curr, p.allocs)
    ensures SameShape(BlocksAfter(bs, curr, p.allocs), BlocksAfter(cs, curr, MovedPart(p, d).allocs))
  {
    hide SameShape, Apart, AllInside, BlocksAfter, CurrAfter, Room, Fits, InData;
    MovedRoom(base, total, curr, p.allocs, d);
    ShapesAfter(bs, cs, base, total, curr, p.allocs, d);
  }

  ghost function LoadWeights(w: seq<int>, base: int, total: nat, curr: nat, bs: seq<Block>, ps: seq<Part>): (r: seq<int>)
    requires |w| == total + 8 && AllLoadable(bs, curr, base, total, ps)
    ensures |r| == |w|
    decreases |ps|
  {
    if ps == [] then w else
      var init := ps[..|ps| - 1];
      PartWeights(LoadWeights(w, base, total, curr, bs, init), base, total, CurrAll(curr, init), BlocksAll(bs, curr, init), ps[|ps| - 1])
  }

  lemma {:induction false} LoadMoves(mem0: seq<Word>, mem1: seq<Word>, w: seq<int>, d: int, base: int, total: nat, curr: nat,
                                     bs: seq<Block>, cs: seq<Block>, ps: seq<Part>)
    requires Relocated(mem0, mem1, w, d) && |w| == |mem0| == |mem1| == total + 8 && SameShape(bs, cs)
    requires Apart(base, total, d) && AllLoadable(bs, curr, base, total, ps) && AllMovable(base, total, ps)
    requires AllLoadable(cs, curr, base + d, total, MovedParts(ps, d))
    ensures Relocated(LoadAll(mem0, base, total, curr, bs, ps), LoadAll(mem1, base + d, total, curr, cs, MovedParts(ps, d)),
                      LoadWeights(w, base, total, curr, bs, ps), d)
    decreases |ps|
  {
    hide Relocated, SameShape, Dims, Loadable, Movable, PartMem, PartWeights, CurrAfter, BlocksAfter, MovedPart;
    if ps != [] {
      var init, p := ps[..|ps| - 1], ps[|ps| - 1];
      assert p in ps && MovedParts(ps, d)[..|ps| - 1] == MovedParts(init, d);
      LoadMoves(mem0, mem1, w, d, base, total, curr, bs, cs, init);
      AllMove(bs, cs, curr, base, total, init, d);
      PartMoves(LoadAll(mem0, base, total, curr, bs, init), LoadAll(mem1, base + d, total, curr, cs, MovedParts(init, d)),
                LoadWeights(w, base, total, curr, bs, init), d, base, total, CurrAll(curr, init),
                BlocksAll(bs, curr, init), BlocksAll(cs, curr, MovedParts(init, d)), p);
    }
  }

  // ---- The pass over the modules moves -----------------------------------------------------

  function MovedPair(a: (int, int), d: int): (int, int) {
    (Shift(a.0, d), Shift(a.1, d))
  }

  function MovedArrays(arrays: seq<(int, int)>, d: int): seq<(int, int)> {
    seq(|arrays|, i requires 0 <= i < |arrays| => MovedPair(arrays[i], d))
  }

  function MovedRecord(m: Loaded, d: int): Loaded {
    Loaded(Shift(m.adr, d), MovedArrays(m.arrays, d))
  }

  function MovedList(ms: seq<Loaded>, d: int): seq<Loaded> {
    seq(|ms|, i requires 0 <= i < |ms| => MovedRecord(ms[i], d))
  }

  // NIL, or an address in the heap.
  predicate Within(base: int, total: nat, adr: int) {
    adr == 0 || base <= adr < base + total
  }

  // NIL, or an address not below the heap.
  predicate NotBelow(base: int, adr: int) {
    adr == 0 || base <= adr
  }

  predicate PairWithin(base: int, total: nat, a: (int, int)) {
    NotBelow(base, a.0) && Within(base, total, a.1) && Aligned(a.1)
  }

  ghost predicate ArraysWithin(base: int, total: nat, arrays: seq<(int, int)>) {
    forall a :: a in arrays ==> PairWithin(base, total, a)
  }

  ghost predicate ListWithin(base: int, total: nat, ms: seq<Loaded>) {
    forall m :: m in ms ==> NotBelow(base, m.adr) && ArraysWithin(base, total, m.arrays)
  }

  function NamedWeight(w: seq<int>, base: int, p: int, td: int): (r: seq<int>)
    ensures |r| == |w|
  {
    if p != 0 && 0 <= p - base - 4 < |w| then w[p - base - 4 := NilWeight(td)] else w
  }

  function ArrayWeights(w: seq<int>, base: int, arrays: seq<(int, int)>): (r: seq<int>)
    ensures |r| == |w|
    decreases |arrays|
  {
    if arrays == [] then w else
      var a := arrays[|arrays| - 1];
      NamedWeight(ArrayWeights(w, base, arrays[..|arrays| - 1]), base, a.0, a.1)
  }

  function ListWeights(w: seq<int>, base: int, ms: seq<Loaded>, td: int): (r: seq<int>)
    ensures |r| == |w|
    decreases |ms|
  {
    if ms == [] then w else
      var m := ms[|ms| - 1];
      ArrayWeights(NamedWeight(ListWeights(w, base, ms[..|ms| - 1], td), base, m.adr, td), base, m.arrays)
  }

  lemma TdStaysAligned(base: int, total: nat, d: int, td: int)
    requires Apart(base, total, d) && Within(base, total, td) && Aligned(td)
    ensures Aligned(Shift(td, d))
  {
    if td != 0 {
      Sixteen(base, d, td);
    }
  }

  lemma NamedMoves(mem0: seq<Word>, mem1: seq<Word>, w: seq<int>, d: int, base: int, total: nat, p: int, td: int, isArray: bool)
    requires Relocated(mem0, mem1, w, d) && Apart(base, total, d) && NotBelow(base, p) && Within(base, total, td) && Aligned(td)
    ensures Aligned(Shift(td, d))
    ensures Relocated(Named(mem0, base, p, td, isArray), Named(mem1, base + d, Shift(p, d), Shift(td, d), isArray),
                      NamedWeight(w, base, p, td), d)
  {
    RelocatedSize(mem0, mem1, w, d);
    TdStaysAligned(base, total, d, td);
    hide Relocated, Carried;
    if p != 0 && 0 <= p - base - 4 < |w| {
      var flags := Flags(isArray);
      TdMoves(td, d, flags);
      Updated(mem0, mem1, w, d, p - base - 4, td + flags, Shift(td, d) + flags, NilWeight(td));
    }
  }

  lemma ArraysStayAligned(base: int, total: nat, d: int, arrays: seq<(int, int)>)
    requires Apart(base, total, d) && ArraysWithin(base, total, arrays)
    ensures forall a :: a in MovedArrays(arrays, d) ==> Aligned(a.1)
  {
    hide Apart, Aligned, Within;
    forall a | a in MovedArrays(arrays, d) ensures Aligned(a.1) {
      var i :| 0 <= i < |arrays| && a == MovedPair(arrays[i], d);
      assert PairWithin(base, total, arrays[i]);
      TdStaysAligned(base, total, d, arrays[i].1);
    }
  }

  lemma {:induction false} ArraysMove(mem0: seq<Word>, mem1: seq<Word>, w: seq<int>, d: int, base: int, total: nat, arrays: seq<(int, int)>)
    requires Relocated(mem0, mem1, w, d) && Apart(base, total, d) && ArraysWithin(base, total, arrays)
    requires forall a :: a in arrays ==> Aligned(a.1)
    requires forall a :: a in MovedArrays(arrays, d) ==> Aligned(a.1)
    ensures Relocated(NamedArrays(mem0, base, arrays), NamedArrays(mem1, base + d, MovedArrays(arrays, d)), ArrayWeights(w, base, arrays), d)
    decreases |arrays|
  {
    hide Relocated, Apart, Aligned, Within, Named, NamedWeight;
    if arrays != [] {
      var init, a := arrays[..|arrays| - 1], arrays[|arrays| - 1];
      assert PairWithin(base, total, a) && MovedArrays(arrays, d)[..|arrays| - 1] == MovedArrays(init, d);
      ArraysMove(mem0, mem1, w, d, base, total, init);
      NamedMoves(NamedArrays(mem0, base, init), NamedArrays(mem1, base + d, MovedArrays(init, d)), ArrayWeights(w, base, init),
                 d, base, total, a.0, a.1, true);
    }
  }

  lemma ListStaysAligned(base: int, total: nat, d: int, ms: seq<Loaded>)
    requires Apart(base, total, d) && ListWithin(base, total, ms)
    ensures TdsAligned(ms) && TdsAligned(MovedList(ms, d))
  {
    hide Apart, Aligned, Within, ArraysWithin;
    forall m | m in ms ensures forall a :: a in m.arrays ==> Aligned(a.1) {
      PairsAligned(base, total, m.arrays);
    }
    forall m | m in MovedList(ms, d) ensures forall a :: a in m.arrays ==> Aligned(a.1) {
      var i :| 0 <= i < |ms| && m == MovedRecord(ms[i], d);
      assert ms[i] in ms;
      ArraysStayAligned(base, total, d, ms[i].arrays);
    }
  }

  lemma PairsAligned(base: int, total: nat, arrays: seq<(int, int)>)
    requires ArraysWithin(base, total, arrays)
    ensures forall a :: a in arrays ==> Aligned(a.1)
  {
  }

  lemma {:induction false} ListMoves(mem0: seq<Word>, mem1: seq<Word>, w: seq<int>, d: int, base: int, total: nat, ms: seq<Loaded>, td: int)
    requires Relocated(mem0, mem1, w, d) && Apart(base, total, d) && ListWithin(base, total, ms)
    requires Aligned(td) && Within(base, total, td) && Aligned(Shift(td, d)) && TdsAligned(ms) && TdsAligned(MovedList(ms, d))
    ensures Relocated(NamedAll(mem0, base, ms, td), NamedAll(mem1, base + d, MovedList(ms, d), Shift(td, d)), ListWeights(w, base, ms, td), d)
    decreases |ms|
  {
    hide Relocated, Apart, Aligned, Within, ArraysWithin, Named, NamedWeight, NamedArrays, ArrayWeights;
    if ms != [] {
      var init, m := ms[..|ms| - 1], ms[|ms| - 1];
      assert m in ms && MovedList(ms, d)[..|ms| - 1] == MovedList(init, d);
      assert MovedList(ms, d)[|ms| - 1] == MovedRecord(m, d);
      assert MovedRecord(m, d) in MovedList(ms, d);
      ListMoves(mem0, mem1, w, d, base, total, init, td);
      var m0, m1, v := NamedAll(mem0, base, init, td), NamedAll(mem1, base + d, MovedList(init, d), Shift(td, d)), ListWeights(w, base, init, td);
      NamedMoves(m0, m1, v, d, base, total, m.adr, td, false);
      ArraysMove(Named(m0, base, m.adr, td, false), Named(m1, base + d, Shift(m.adr, d), Shift(td, d), false),
                 NamedWeight(v, base, m.adr, td), d, base, total, m.arrays);
    }
  }

  // ---- Both heaps, from nothing ------------------------------------------------------------

  function Nothing(total: nat): (r: seq<int>)
    ensures |r| == total + 8
  {
    seq(total + 8, i => 0)
  }

  lemma EmptyMoves(total: nat, d: int)
    requires total < TWO31
    ensures Relocated(Empty(total), Empty(total), Nothing(total), d)
  {
    hide Carried;
    forall i | 0 <= i < total + 8 ensures Empty(total)[i] == Carried(Empty(total)[i], d, Nothing(total)[i]) {
      Still(Empty(total)[i], d);
    }
  }

  lemma {:induction false} MovedSized(base: int, m: Image, fs: seq<Fixup>, i: int, size: nat, len: nat, d: int)
    requires Sized(base, m, fs, i, size) && Ranges(len, base, d)
    requires forall f :: f in fs ==> Fits(len, base, m, f) && Complete(m, f)
    ensures Sized(base + d, Moved(m, d), MovedAll(fs, d), i, size)
  {
    hide At, Fits, Complete, Moved;
    var k :| 0 <= k < |fs| && fs[k] == Blk(fs[k].seg, fs[k].offs, size) && At(base, m, fs[k]) == i
      && forall j :: k < j < |fs| ==> At(base, m, fs[j]) != i;
    var gs := MovedAll(fs, d);
    forall j | 0 <= j < |fs| ensures At(base + d, Moved(m, d), gs[j]) == At(base, m, fs[j]) {
      assert fs[j] in fs;
      FixupMoves(len, base, m, fs[j], d);
    }
    assert gs[k] == fs[k];
  }

  lemma {:induction false} MovedSizedLast(base: int, total: nat, curr: nat, bs: seq<Block>, ps: seq<Part>, i: int, size: nat, d: int)
    requires SizedLast(base, ps, i, size) && Apart(base, total, d)
    requires AllLoadable(bs, curr, base, total, ps) && AllMovable(base, total, ps)
    ensures SizedLast(base + d, MovedParts(ps, d), i, size)
    decreases |ps|
  {
    hide At, Fits, Complete, Moved, MovedFixup, Room, InData, AllInside, BlocksAfter, Sized;
    var init, p := ps[..|ps| - 1], ps[|ps| - 1];
    assert p in ps && Movable(base, total, p);
    assert MovedParts(ps, d)[..|ps| - 1] == MovedParts(init, d) && MovedParts(ps, d)[|ps| - 1] == MovedPart(p, d);
    if Sized(base, p.m, p.fs, i, size) {
      MovedSized(base, p.m, p.fs, i, size, total + 8, d);
    } else {
      MovedSizedLast(base, total, curr, bs, init, i, size, d);
      MovedElsewhere(base, total + 8, p, i, d);
    }
  }

  lemma MovedElsewhere(base: int, len: nat, p: Part, i: int, d: int)
    requires Ranges(len, base, d) && (forall f :: f in p.fills ==> f.off != i)
    requires forall f :: f in p.fs ==> Fits(len, base, p.m, f) && Complete(p.m, f) && At(base, p.m, f) != i
    ensures forall f :: f in MovedPart(p, d).fills ==> f.off != i
    ensures forall f :: f in MovedPart(p, d).fs ==> At(base + d, Moved(p.m, d), f) != i
  {
    hide At, Fits, Complete, Moved, MovedFixup;
    forall f | f in MovedFills(p.fills, d) ensures f.off != i {
      var j :| 0 <= j < |p.fills| && f == MovedFill(p.fills[j], d);
      assert p.fills[j] in p.fills;
    }
    forall f | f in MovedAll(p.fs, d) ensures At(base + d, Moved(p.m, d), f) != i {
      var j :| 0 <= j < |p.fs| && f == MovedFixup(p.fs[j], d);
      assert p.fs[j] in p.fs;
      FixupMoves(len, base, p.m, p.fs[j], d);
    }
  }

  // ---- What the pass asks for is there as well ---------------------------------------------

  lemma MovedOwned(bs: seq<Block>, cs: seq<Block>, base: int, p: int, isArray: bool, d: int)
    requires SameShape(bs, cs) && 0 < base && Owned(bs, base, p, isArray)
    ensures base < p && Owned(cs, base + d, Shift(p, d), isArray)
  {
    var k := Owner(bs, base, p, isArray);
    assert SameBlock(bs[k], cs[k]);
    assert Shift(p, d) == base + d + DataAt(cs[k]) && isArray == cs[k].kind.Array?;
  }

  ghost predicate TdsIn(base: int, total: nat, arrays: seq<(int, int)>) {
    forall a :: a in arrays ==> Within(base, total, a.1)
  }

  lemma MovedOwners(bs: seq<Block>, cs: seq<Block>, base: int, total: nat, arrays: seq<(int, int)>, d: int)
    requires SameShape(bs, cs) && Apart(base, total, d) && Arrays(bs, base, arrays) && TdsIn(base, total, arrays)
    ensures ArraysWithin(base, total, arrays) && Arrays(cs, base + d, MovedArrays(arrays, d))
  {
    hide SameShape, Owned, Aligned, Within;
    forall a | a in arrays ensures PairWithin(base, total, a) {
      if a.0 != 0 {
        MovedOwned(bs, cs, base, a.0, true, d);
      }
    }
    forall b | b in MovedArrays(arrays, d) ensures Aligned(b.1) && (b.0 != 0 ==> Owned(cs, base + d, b.0, true)) {
      var i :| 0 <= i < |arrays| && b == MovedPair(arrays[i], d);
      var a := arrays[i];
      assert a in arrays;
      TdStaysAligned(base, total, d, a.1);
      if a.0 != 0 {
        MovedOwned(bs, cs, base, a.0, true, d);
      }
    }
  }

  lemma MovedKnown(bs: seq<Block>, cs: seq<Block>, base: int, total: nat, m: Loaded, d: int)
    requires SameShape(bs, cs) && Apart(base, total, d) && Known(bs, base, m) && TdsIn(base, total, m.arrays)
    ensures base < m.adr && ArraysWithin(base, total, m.arrays)
    ensures Known(cs, base + d, MovedRecord(m, d))
  {
    hide SameShape, Owned, Aligned, TdsIn, ArraysWithin, MovedArrays;
    MovedOwned(bs, cs, base, m.adr, false, d);
    MovedOwners(bs, cs, base, total, m.arrays, d);
    assert Shift(m.adr, d) == m.adr + d;
  }

  lemma MovedAddresses(ms: seq<Loaded>, p: int, d: int)
    requires forall m :: m in ms ==> m.adr != 0
    ensures p + d in Addresses(MovedList(ms, d)) <==> p in Addresses(ms)
  {
    var ns := MovedList(ms, d);
    if p in Addresses(ms) {
      var m :| m in ms && m.adr == p;
      var i :| 0 <= i < |ms| && ms[i] == m;
      assert ns[i] in ns && ns[i].adr == p + d;
    }
    if p + d in Addresses(ns) {
      var n :| n in ns && n.adr == p + d;
      var i :| 0 <= i < |ms| && ns[i] == n;
      assert ms[i] in ms && ms[i].adr == p;
    }
  }

  ghost predicate TdsWithin(base: int, total: nat, ms: seq<Loaded>) {
    forall m :: m in ms ==> TdsIn(base, total, m.arrays)
  }

  lemma MovedListed(bs: seq<Block>, cs: seq<Block>, base: int, total: nat, ms: seq<Loaded>, td: int, size: nat, d: int)
    requires SameShape(bs, cs) && Apart(base, total, d) && Listed(bs, base, ms, td, size) && TdsWithin(base, total, ms)
    ensures ListWithin(base, total, ms) && Listed(cs, base + d, MovedList(ms, d), td + d, size)
  {
    var ns := MovedList(ms, d);
    hide Known, InData, ArraysWithin, Within, Addresses, AlignBlockSize, MovedRecord, MovedList, SameBlock;
    forall m | m in ms ensures base < m.adr && ArraysWithin(base, total, m.arrays) && Known(cs, base + d, MovedRecord(m, d)) {
      MovedKnown(bs, cs, base, total, m, d);
    }
    forall n | n in ns ensures Known(cs, base + d, n) {
      var m := InMovedList(ms, n, d);
    }
    forall c | c in cs
      ensures c.kind.Module? ==> base + d + DataAt(c) in Addresses(ns)
      ensures base + d + DataAt(c) in Addresses(ns) ==> c.kind.Array? || c.size == AlignBlockSize(size)
    {
      var i :| 0 <= i < |cs| && cs[i] == c;
      assert bs[i] in bs;
      KindsAlike(bs[i], c);
      MovedAddresses(ms, base + DataAt(bs[i]), d);
    }
    SameData(bs, cs, td - base + 16);
  }

  lemma KindsAlike(b: Block, c: Block)
    requires SameBlock(b, c)
    ensures b.size == c.size && DataAt(b) == DataAt(c) && b.kind.Array? == c.kind.Array? && b.kind.Module? == c.kind.Module?
  {
  }

  lemma InMovedList(ms: seq<Loaded>, n: Loaded, d: int) returns (m: Loaded)
    requires n in MovedList(ms, d)
    ensures m in ms && n == MovedRecord(m, d)
  {
    var i :| 0 <= i < |ms| && n == MovedRecord(ms[i], d);
    m := ms[i];
  }

  // Renaming keeps the blocks alike.
  lemma RenamedShapes(bs: seq<Block>, cs: seq<Block>, base: int, ms: seq<Loaded>, td: int, d: int)
    requires SameShape(bs, cs) && forall m :: m in ms ==> m.adr != 0
    ensures SameShape(Renaming(bs, base, Addresses(ms), td), Renaming(cs, base + d, Addresses(MovedList(ms, d)), td + d))
  {
    hide Addresses, MovedList;
    forall i | 0 <= i < |bs|
      ensures SameBlock(Renamed(bs[i], base, Addresses(ms), td), Renamed(cs[i], base + d, Addresses(MovedList(ms, d)), td + d))
    {
      assert SameBlock(bs[i], cs[i]);
      MovedAddresses(ms, base + DataAt(bs[i]), d);
    }
  }

  lemma MovedSpare(base: int, total: nat, curr: nat, bs: seq<Block>, ps: seq<Part>, i: int, d: int)
    requires Apart(base, total, d) && AllLoadable(bs, curr, base, total, ps) && AllMovable(base, total, ps) && AllSpare(base, ps, i)
    ensures AllSpare(base + d, MovedParts(ps, d), i)
  {
    hide At, Fits, Complete, Moved, MovedFixup, Room, AllInside, MovedPart;
    forall q | q in MovedParts(ps, d) ensures Spares(base + d, q, i) {
      var k :| 0 <= k < |ps| && q == MovedPart(ps[k], d);
      assert ps[k] in ps && Movable(base, total, ps[k]) && Spares(base, ps[k], i);
      FixupsFit(bs, curr, base, total, ps, k);
      MovedElsewhere(base, total + 8, ps[k], i, d);
      SparesMoved(base, ps[k], i, d);
    }
  }

  lemma SparesMoved(base: int, p: Part, i: int, d: int)
    requires forall f :: f in MovedPart(p, d).fills ==> f.off != i
    requires forall f :: f in MovedPart(p, d).fs ==> At(base + d, Moved(p.m, d), f) != i
    ensures Spares(base + d, MovedPart(p, d), i)
  {
    hide At, Moved;
  }

  lemma {:induction false} FixupsFit(bs: seq<Block>, curr: nat, base: int, total: nat, ps: seq<Part>, k: nat)
    requires AllLoadable(bs, curr, base, total, ps) && k < |ps|
    ensures forall f :: f in ps[k].fs ==> Fits(total + 8, base, ps[k].m, f)
    decreases |ps|
  {
    hide Fits, Room, InData, BlocksAfter;
    if k < |ps| - 1 {
      FixupsFit(bs, curr, base, total, ps[..|ps| - 1], k);
    }
  }

  lemma MovedRecords(ps: seq<Part>, td: int, size: nat, d: int)
    requires Records(ps, td, size) && Shift(td, d) == td + d
    ensures Records(MovedParts(ps, d), td + d, size)
  {
    hide AlignBlockSize;
    forall q | q in MovedParts(ps, d) ensures forall b :: b in q.allocs ==> IsRecord(b, td + d, size) {
      var k :| 0 <= k < |ps| && q == MovedPart(ps[k], d);
      assert ps[k] in ps;
      forall b | b in q.allocs ensures IsRecord(b, td + d, size) {
        var i :| 0 <= i < |ps[k].allocs| && b == MovedAlloc(ps[k].allocs[i], d);
        assert ps[k].allocs[i] in ps[k].allocs;
        assert IsRecord(ps[k].allocs[i], td, size);
      }
    }
  }
}
