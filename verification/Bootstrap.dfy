// The bootstrap from an empty heap to the end of the type-descriptor pass: what it leaves in
// memory, where the walk finds the blocks again, and what becomes of it all when the heap lies
// somewhere else.
module Bootstrap {
  import opened Words
  import opened Heap
  import opened Loader
  import opened Relocation

  // A word put into a block: part of the code or data read, or the address of something.
  datatype Fill = Fill(off: nat, v: Word, address: bool)

  // A step of loading: blocks are allocated, then words filled in, then fixups applied. A module
  // is loaded in as many steps as it takes to do these in the source's order.
  datatype Part = Part(allocs: seq<Alloc>, fills: seq<Fill>, m: Image, fs: seq<Fixup>)

  // ---- Allocations ---------------------------------------------------------------------

  function CurrAfter(curr: nat, news: seq<Alloc>): nat {
    if news == [] then curr else CurrAfter(curr, news[..|news| - 1]) + news[|news| - 1].Size()
  }

  function BlocksAfter(bs: seq<Block>, curr: nat, news: seq<Alloc>): seq<Block> {
    if news == [] then bs else
      var init := news[..|news| - 1];
      BlocksAfter(bs, curr, init) + [BlockOf(news[|news| - 1], CurrAfter(curr, init))]
  }

  predicate Room(total: nat, curr: nat, news: seq<Alloc>) {
    if news == [] then curr <= total else
      Room(total, curr, news[..|news| - 1]) && news[|news| - 1].Fine() && CurrAfter(curr, news) <= total
  }

  predicate Dims(base: int, total: nat) {
    0 < base && base % 16 == 12 && total % 16 == 0 && base + total + 8 < TWO31
  }

  function AllocAll(mem: seq<Word>, base: int, total: nat, curr: nat, news: seq<Alloc>): (r: seq<Word>)
    requires |mem| == total + 8 && Dims(base, total) && Room(total, curr, news)
    ensures |r| == |mem|
    decreases |news|
  {
    if news == [] then mem else
      var init := news[..|news| - 1];
      Allocated(AllocAll(mem, base, total, curr, init), base, total, CurrAfter(curr, init), news[|news| - 1])
  }

  method AllocateAll(h: Heap, news: seq<Alloc>)
    requires h.Valid() && Room(h.total, h.curr, news)
    modifies h, h.mem
    ensures h.Valid() && h.curr == CurrAfter(old(h.curr), news) && h.blocks == BlocksAfter(old(h.blocks), old(h.curr), news)
    ensures Dims(h.base, h.total) && old(|h.mem[..]|) == h.total + 8
    ensures h.mem[..] == AllocAll(old(h.mem[..]), h.base, h.total, old(h.curr), news)
  {
    DimsOf(h);
    hide Heap.Valid, Dims;
    for i := 0 to |news|
      invariant h.Valid() && Room(h.total, old(h.curr), news[..i])
      invariant h.curr == CurrAfter(old(h.curr), news[..i]) && h.blocks == BlocksAfter(old(h.blocks), old(h.curr), news[..i])
      invariant h.mem[..] == AllocAll(old(h.mem[..]), h.base, h.total, old(h.curr), news[..i])
    {
      RoomFor(h.total, old(h.curr), news, i + 1);
      assert news[..i + 1][..i] == news[..i];
      var adr := h.Allocate(news[i]);
    }
    assert news[..|news|] == news;
  }

  lemma DimsOf(h: Heap)
    requires h.Valid()
    ensures Dims(h.base, h.total) && h.mem.Length == h.total + 8 && h.curr <= h.total
  {
  }

  lemma {:induction false} RoomFor(total: nat, curr: nat, news: seq<Alloc>, i: nat)
    requires Room(total, curr, news) && i <= |news|
    ensures Room(total, curr, news[..i])
    decreases |news|
  {
    if i == |news| {
      assert news[..i] == news;
    } else {
      RoomFor(total, curr, news[..|news| - 1], i);
      assert news[..|news| - 1][..i] == news[..i];
    }
  }

  // ---- One module ----------------------------------------------------------------------

  function FillAll(mem: seq<Word>, fills: seq<Fill>): (r: seq<Word>)
    requires forall f :: f in fills ==> f.off < |mem|
    ensures |r| == |mem|
    decreases |fills|
  {
    if fills == [] then mem else
      var f := fills[|fills| - 1];
      assert f in fills;
      FillAll(mem, fills[..|fills| - 1])[f.off := f.v]
  }

  method FillIn(h: Heap, fills: seq<Fill>)
    requires h.Valid() && forall f :: f in fills ==> f.off < h.mem.Length && InData(h.blocks, f.off)
    modifies h.mem
    ensures h.Valid() && h.mem[..] == FillAll(old(h.mem[..]), fills)
  {
    hide Heap.Valid, OnWord;
    for i := 0 to |fills|
      invariant h.Valid() && h.mem[..] == FillAll(old(h.mem[..]), fills[..i])
    {
      var f := fills[i];
      assert f in fills && fills[..i + 1][..i] == fills[..i];
      ghost var k: nat :| k < |h.blocks| && DataAt(h.blocks[k]) <= f.off < End(h.blocks[k]);
      h.Store(f.off, f.v, k);
    }
    assert fills[..|fills|] == fills;
  }

  // Room for the blocks; and what is filled in or fixed up lies in the data of blocks.
  ghost predicate Loadable(bs: seq<Block>, curr: nat, base: int, total: nat, p: Part) {
    var bs' := BlocksAfter(bs, curr, p.allocs);
    && Room(total, curr, p.allocs)
    && (forall f :: f in p.fills ==> f.off < total + 8 && InData(bs', f.off))
    && (forall f :: f in p.fs ==> Fits(total + 8, base, p.m, f) && InData(bs', At(base, p.m, f)))
  }

  ghost function PartMem(mem: seq<Word>, base: int, total: nat, curr: nat, bs: seq<Block>, p: Part): (r: seq<Word>)
    requires |mem| == total + 8 && Dims(base, total) && Loadable(bs, curr, base, total, p)
    ensures |r| == |mem|
  {
    Load(FillAll(AllocAll(mem, base, total, curr, p.allocs), p.fills), base, p.m, p.fs)
  }

  method LoadPart(h: Heap, p: Part)
    requires h.Valid() && Loadable(h.blocks, h.curr, h.base, h.total, p)
    modifies h, h.mem
    ensures h.Valid() && h.curr == CurrAfter(old(h.curr), p.allocs) && h.blocks == BlocksAfter(old(h.blocks), old(h.curr), p.allocs)
    ensures Dims(h.base, h.total) && old(|h.mem[..]|) == h.total + 8
    ensures h.mem[..] == PartMem(old(h.mem[..]), h.base, h.total, old(h.curr), old(h.blocks), p)
  {
    DimsOf(h);
    hide Heap.Valid, InData, Fits, Dims, AllocAll, FillAll, Load, Room;
    AllocateAll(h, p.allocs);
    FillIn(h, p.fills);
    ReadFixups(h, p.m, p.fs);
  }

  // ---- All modules ---------------------------------------------------------------------

  function CurrAll(curr: nat, ps: seq<Part>): nat {
    if ps == [] then curr else CurrAfter(CurrAll(curr, ps[..|ps| - 1]), ps[|ps| - 1].allocs)
  }

  function BlocksAll(bs: seq<Block>, curr: nat, ps: seq<Part>): seq<Block> {
    if ps == [] then bs else
      var init := ps[..|ps| - 1];
      BlocksAfter(BlocksAll(bs, curr, init), CurrAll(curr, init), ps[|ps| - 1].allocs)
  }

  ghost predicate AllLoadable(bs: seq<Block>, curr: nat, base: int, total: nat, ps: seq<Part>) {
    ps == [] ||
    (var init := ps[..|ps| - 1];
     && AllLoadable(bs, curr, base, total, init)
     && Loadable(BlocksAll(bs, curr, init), CurrAll(curr, init), base, total, ps[|ps| - 1]))
  }

  ghost function LoadAll(mem: seq<Word>, base: int, total: nat, curr: nat, bs: seq<Block>, ps: seq<Part>): (r: seq<Word>)
    requires |mem| == total + 8 && Dims(base, total) && AllLoadable(bs, curr, base, total, ps)
    ensures |r| == |mem|
    decreases |ps|
  {
    if ps == [] then mem else
      var init := ps[..|ps| - 1];
      PartMem(LoadAll(mem, base, total, curr, bs, init), base, total, CurrAll(curr, init), BlocksAll(bs, curr, init), ps[|ps| - 1])
  }

  lemma {:induction false} LoadableFor(bs: seq<Block>, curr: nat, base: int, total: nat, ps: seq<Part>, i: nat)
    requires AllLoadable(bs, curr, base, total, ps) && i <= |ps|
    ensures AllLoadable(bs, curr, base, total, ps[..i])
    decreases |ps|
  {
    if i == |ps| {
      assert ps[..i] == ps;
    } else {
      LoadableFor(bs, curr, base, total, ps[..|ps| - 1], i);
      assert ps[..|ps| - 1][..i] == ps[..i];
    }
  }

  method LoadParts(h: Heap, ps: seq<Part>)
    requires h.Valid() && AllLoadable(h.blocks, h.curr, h.base, h.total, ps)
    modifies h, h.mem
    ensures h.Valid() && h.curr == CurrAll(old(h.curr), ps) && h.blocks == BlocksAll(old(h.blocks), old(h.curr), ps)
    ensures Dims(h.base, h.total) && old(|h.mem[..]|) == h.total + 8
    ensures h.mem[..] == LoadAll(old(h.mem[..]), h.base, h.total, old(h.curr), old(h.blocks), ps)
  {
    DimsOf(h);
    hide Heap.Valid, Loadable, Dims, PartMem, CurrAfter, BlocksAfter;
    for i := 0 to |ps|
      invariant h.Valid() && AllLoadable(old(h.blocks), old(h.curr), h.base, h.total, ps[..i])
      invariant h.curr == CurrAll(old(h.curr), ps[..i]) && h.blocks == BlocksAll(old(h.blocks), old(h.curr), ps[..i])
      invariant h.mem[..] == LoadAll(old(h.mem[..]), h.base, h.total, old(h.curr), old(h.blocks), ps[..i])
    {
      LoadableFor(old(h.blocks), old(h.curr), h.base, h.total, ps, i + 1);
      assert ps[..i + 1][..i] == ps[..i];
      LoadPart(h, ps[i]);
    }
    assert ps[..|ps|] == ps;
  }

  // ---- The walk after it ---------------------------------------------------------------

  lemma {:induction false} LayoutAfter(bs: seq<Block>, curr: nat, news: seq<Alloc>)
    requires Layout(bs, curr)
    ensures Layout(BlocksAfter(bs, curr, news), CurrAfter(curr, news)) && curr <= CurrAfter(curr, news)
    decreases |news|
  {
    hide Layout;
    if news != [] {
      var init, a := news[..|news| - 1], news[|news| - 1];
      LayoutAfter(bs, curr, init);
      LayoutAppend(BlocksAfter(bs, curr, init), CurrAfter(curr, init), BlockOf(a, CurrAfter(curr, init)));
    }
  }

  lemma {:induction false} LayoutAll(bs: seq<Block>, curr: nat, ps: seq<Part>)
    requires Layout(bs, curr)
    ensures Layout(BlocksAll(bs, curr, ps), CurrAll(curr, ps))
    decreases |ps|
  {
    hide Layout;
    if ps != [] {
      var init := ps[..|ps| - 1];
      LayoutAll(bs, curr, init);
      LayoutAfter(BlocksAll(bs, curr, init), CurrAll(curr, init), ps[|ps| - 1].allocs);
    }
  }

  // Allocation leaves alone what lies below.
  lemma AllocBelow(mem: seq<Word>, base: int, total: nat, curr: nat, a: Alloc, i: nat)
    requires a.Fine() && curr + a.Size() <= total && |mem| == total + 8 && Dims(base, total) && i < curr
    ensures Allocated(mem, base, total, curr, a)[i] == mem[i]
  {
    hide AlignBlockSize;
    if a.ArrayBlock? {
      PutsAbove(Cut(mem, total, curr, a.Size())[curr := base + curr + 4 + a.header + MARK + ARAY][curr + 4 := a.Size()],
                curr + 8, a.others, i);
    }
  }

  lemma {:induction false} PutsAbove(mem: seq<Word>, at: nat, ws: seq<Word>, i: nat)
    requires at + 4 * |ws| <= |mem| && i < at
    ensures PutAll(mem, at, ws)[i] == mem[i]
    decreases |ws|
  {
    if ws != [] {
      PutsAbove(mem, at, ws[..|ws| - 1], i);
    }
  }

  lemma {:induction false} AllocsBelow(mem: seq<Word>, base: int, total: nat, curr: nat, news: seq<Alloc>, i: nat)
    requires |mem| == total + 8 && Dims(base, total) && Room(total, curr, news) && i < curr && i < |mem|
    ensures AllocAll(mem, base, total, curr, news)[i] == mem[i] && i < CurrAfter(curr, news)
    decreases |news|
  {
    hide Allocated, Dims;
    if news != [] {
      var init := news[..|news| - 1];
      AllocsBelow(mem, base, total, curr, init, i);
      AllocBelow(AllocAll(mem, base, total, curr, init), base, total, CurrAfter(curr, init), news[|news| - 1], i);
    }
  }

  lemma {:induction false} FillsElsewhere(mem: seq<Word>, fills: seq<Fill>, i: nat)
    requires i < |mem| && forall f :: f in fills ==> f.off < |mem| && f.off != i
    ensures FillAll(mem, fills)[i] == mem[i]
    decreases |fills|
  {
    if fills != [] {
      assert fills[|fills| - 1] in fills;
      FillsElsewhere(mem, fills[..|fills| - 1], i);
    }
  }

  // The last that happens to word `i` is that a fixup stores a record's block size in it.
  ghost predicate SizedLast(base: int, ps: seq<Part>, i: int, size: nat) {
    ps != [] &&
    var p := ps[|ps| - 1];
    || Sized(base, p.m, p.fs, i, size)
    || (&& SizedLast(base, ps[..|ps| - 1], i, size)
        && (forall f :: f in p.fills ==> f.off != i) && (forall f :: f in p.fs ==> At(base, p.m, f) != i))
  }

  lemma InBlocks(bs: seq<Block>, curr: nat, i: nat)
    requires Layout(bs, curr) && InData(bs, i)
    ensures i < curr
  {
    LayoutEnds(bs, curr);
  }

  lemma SizedInside(bs: seq<Block>, curr: nat, base: int, total: nat, p: Part, i: nat, size: nat)
    requires Layout(bs, curr) && Loadable(bs, curr, base, total, p) && Sized(base, p.m, p.fs, i, size)
    ensures i < CurrAfter(curr, p.allocs) <= total
  {
    hide At, Fits, InData, BlocksAfter;
    LayoutAfter(bs, curr, p.allocs);
    RoomEnds(total, curr, p.allocs);
    var k :| 0 <= k < |p.fs| && p.fs[k] == Blk(p.fs[k].seg, p.fs[k].offs, size) && At(base, p.m, p.fs[k]) == i
      && forall j :: k < j < |p.fs| ==> At(base, p.m, p.fs[j]) != i;
    assert p.fs[k] in p.fs;
    InBlocks(BlocksAfter(bs, curr, p.allocs), CurrAfter(curr, p.allocs), i);
  }

  lemma RoomEnds(total: nat, curr: nat, news: seq<Alloc>)
    requires Room(total, curr, news)
    ensures CurrAfter(curr, news) <= total
  {
  }

  lemma {:induction false} SizeSurvives(mem: seq<Word>, base: int, total: nat, curr: nat, bs: seq<Block>, ps: seq<Part>, i: nat, size: nat)
    requires |mem| == total + 8 && Dims(base, total) && Layout(bs, curr) && AllLoadable(bs, curr, base, total, ps)
    requires SizedLast(base, ps, i, size)
    ensures i < CurrAll(curr, ps) <= total && LoadAll(mem, base, total, curr, bs, ps)[i] == AlignBlockSize(size)
    decreases |ps|
  {
    hide At, Fits, AlignBlockSize, Load, InData, Layout, Sized, AllocAll, FillAll, Dims, Room;
    var init, p := ps[..|ps| - 1], ps[|ps| - 1];
    var bs', curr' := BlocksAll(bs, curr, init), CurrAll(curr, init);
    var before := LoadAll(mem, base, total, curr, bs, init);
    var filled := FillAll(AllocAll(before, base, total, curr', p.allocs), p.fills);
    if Sized(base, p.m, p.fs, i, size) {
      LayoutAll(bs, curr, init);
      SizedInside(bs', curr', base, total, p, i, size);
      SizeRecorded(filled, base, p.m, p.fs, i, size);
    } else {
      SizeSurvives(mem, base, total, curr, bs, init, i, size);
      RoomEnds(total, curr', p.allocs);
      AllocsBelow(before, base, total, curr', p.allocs, i);
      FillsElsewhere(AllocAll(before, base, total, curr', p.allocs), p.fills, i);
      Untouched(filled, seq(total + 8, n => 0), base, p.m, p.fs, i);
    }
  }

  // The modules listed are those that have blocks, of the size the allocator gave a record of
  // `size` bytes; and the descriptor lies in a block.
  ghost predicate Listed(bs: seq<Block>, base: int, ms: seq<Loaded>, td: int, size: nat) {
    && (forall m :: m in ms ==> Known(bs, base, m))
    && (forall b :: b in bs && b.kind.Module? ==> base + DataAt(b) in Addresses(ms))
    && (forall b :: b in bs && base + DataAt(b) in Addresses(ms) ==> b.kind.Array? || b.size == AlignBlockSize(size))
    && base <= td && InData(bs, td - base + 16)
  }

  // ---- The whole bootstrap -------------------------------------------------------------

  // The kernel's parts; the pass over the module list `ms`, in which module records, of `size`
  // bytes, get the descriptor at `td`; the parts of all other modules; and the arrays whose
  // descriptors were left to the end.
  datatype Start = Start(kernel: seq<Part>, ms: seq<Loaded>, td: int, size: nat, others: seq<Part>, uses: seq<(int, int)>)
  {
    // Where the descriptor says how large module blocks are.
    function SizeAt(base: int): int {
      td - base + 16
    }
  }

  function KernelBlocks(bs: seq<Block>, curr: nat, base: int, s: Start): seq<Block> {
    Renaming(BlocksAll(bs, curr, s.kernel), base, Addresses(s.ms), s.td)
  }

  function BootBlocks(bs: seq<Block>, curr: nat, base: int, s: Start): seq<Block> {
    BlocksAll(KernelBlocks(bs, curr, base, s), CurrAll(curr, s.kernel), s.others)
  }

  function BootCurr(curr: nat, s: Start): nat {
    CurrAll(CurrAll(curr, s.kernel), s.others)
  }

  // Nothing is filled in or fixed up at `i`.
  ghost predicate Spares(base: int, p: Part, i: int) {
    (forall f :: f in p.fills ==> f.off != i) && (forall f :: f in p.fs ==> At(base, p.m, f) != i)
  }

  ghost predicate AllSpare(base: int, ps: seq<Part>, i: int) {
    forall p :: p in ps ==> Spares(base, p, i)
  }

  // Module records are of `size` bytes, and described by `td` from the first.
  predicate IsRecord(a: Alloc, td: int, size: nat) {
    a.ModuleBlock? ==> a.td == td && AlignBlockSize(a.size) == AlignBlockSize(size)
  }

  ghost predicate Records(ps: seq<Part>, td: int, size: nat) {
    forall p :: p in ps ==> forall a :: a in p.allocs ==> IsRecord(a, td, size)
  }

  ghost predicate Arrays(bs: seq<Block>, base: int, arrays: seq<(int, int)>) {
    forall a :: a in arrays ==> Aligned(a.1) && (a.0 != 0 ==> Owned(bs, base, a.0, true))
  }

  ghost predicate KernelBootable(bs: seq<Block>, curr: nat, base: int, total: nat, s: Start) {
    && AllLoadable(bs, curr, base, total, s.kernel) && Aligned(s.td) && TdsAligned(s.ms)
    && Listed(BlocksAll(bs, curr, s.kernel), base, s.ms, s.td, s.size)
    && SizedLast(base, s.kernel, s.SizeAt(base), s.size)
  }

  ghost predicate OthersBootable(bs: seq<Block>, curr: nat, base: int, total: nat, s: Start) {
    && AllLoadable(KernelBlocks(bs, curr, base, s), CurrAll(curr, s.kernel), base, total, s.others)
    && AllSpare(base, s.others, s.SizeAt(base)) && Records(s.others, s.td, s.size)
    && Arrays(BootBlocks(bs, curr, base, s), base, s.uses)
  }

  ghost predicate Bootable(bs: seq<Block>, curr: nat, base: int, total: nat, s: Start) {
    KernelBootable(bs, curr, base, total, s) && OthersBootable(bs, curr, base, total, s)
  }

  ghost function KernelMem(mem: seq<Word>, base: int, total: nat, curr: nat, bs: seq<Block>, s: Start): (r: seq<Word>)
    requires |mem| == total + 8 && Dims(base, total) && KernelBootable(bs, curr, base, total, s)
    ensures |r| == |mem|
  {
    NamedAll(LoadAll(mem, base, total, curr, bs, s.kernel), base, s.ms, s.td)
  }

  ghost function BootMem(mem: seq<Word>, base: int, total: nat, curr: nat, bs: seq<Block>, s: Start): (r: seq<Word>)
    requires |mem| == total + 8 && Dims(base, total) && Bootable(bs, curr, base, total, s)
    ensures |r| == |mem|
  {
    NamedArrays(LoadAll(KernelMem(mem, base, total, curr, bs, s), base, total, CurrAll(curr, s.kernel),
                        KernelBlocks(bs, curr, base, s), s.others), base, s.uses)
  }

  // ---- Every module block is described -----------------------------------------------------

  ghost predicate Described(bs: seq<Block>, td: int, n: nat) {
    forall b :: b in bs ==> b.kind.Module? ==> b.kind.td == td && b.size == n
  }

  lemma KernelDescribed(bs: seq<Block>, base: int, ms: seq<Loaded>, td: int, size: nat)
    requires Listed(bs, base, ms, td, size)
    ensures Described(Renaming(bs, base, Addresses(ms), td), td, AlignBlockSize(size))
  {
    hide AlignBlockSize, Known, Addresses, InData;
    var cs := Renaming(bs, base, Addresses(ms), td);
    forall c | c in cs && c.kind.Module? ensures c.kind.td == td && c.size == AlignBlockSize(size) {
      var i :| 0 <= i < |cs| && cs[i] == c;
      assert bs[i] in bs && c == Renamed(bs[i], base, Addresses(ms), td);
    }
  }

  lemma {:induction false} DescribedAfter(bs: seq<Block>, curr: nat, news: seq<Alloc>, td: int, size: nat)
    requires Described(bs, td, AlignBlockSize(size)) && forall a :: a in news ==> IsRecord(a, td, size)
    ensures Described(BlocksAfter(bs, curr, news), td, AlignBlockSize(size))
    decreases |news|
  {
    hide AlignBlockSize;
    if news != [] {
      assert news[|news| - 1] in news;
      DescribedAfter(bs, curr, news[..|news| - 1], td, size);
    }
  }

  lemma {:induction false} DescribedAll(bs: seq<Block>, curr: nat, ps: seq<Part>, td: int, size: nat)
    requires Described(bs, td, AlignBlockSize(size)) && Records(ps, td, size)
    ensures Described(BlocksAll(bs, curr, ps), td, AlignBlockSize(size))
    decreases |ps|
  {
    hide AlignBlockSize, IsRecord, Described, BlocksAfter;
    if ps != [] {
      var init := ps[..|ps| - 1];
      assert ps[|ps| - 1] in ps;
      DescribedAll(bs, curr, init, td, size);
      DescribedAfter(BlocksAll(bs, curr, init), CurrAll(curr, init), ps[|ps| - 1].allocs, td, size);
    }
  }

  // ---- The size recorded stays -------------------------------------------------------------

  lemma {:induction false} DataStays(bs: seq<Block>, curr: nat, news: seq<Alloc>, i: nat)
    requires InData(bs, i)
    ensures InData(BlocksAfter(bs, curr, news), i)
    decreases |news|
  {
    if news != [] {
      hide AlignBlockSize;
      var init := news[..|news| - 1];
      DataStays(bs, curr, init, i);
      var cs, ds := BlocksAfter(bs, curr, init), BlocksAfter(bs, curr, news);
      var k :| 0 <= k < |cs| && DataAt(cs[k]) <= i < End(cs[k]);
      assert ds[k] == cs[k];
    }
  }

  lemma {:induction false} DataStaysAll(bs: seq<Block>, curr: nat, ps: seq<Part>, i: nat)
    requires InData(bs, i)
    ensures InData(BlocksAll(bs, curr, ps), i)
    decreases |ps|
  {
    hide InData, BlocksAfter;
    if ps != [] {
      var init := ps[..|ps| - 1];
      DataStaysAll(bs, curr, init, i);
      DataStays(BlocksAll(bs, curr, init), CurrAll(curr, init), ps[|ps| - 1].allocs, i);
    }
  }

  lemma PartSpares(mem: seq<Word>, base: int, total: nat, curr: nat, bs: seq<Block>, p: Part, i: nat)
    requires |mem| == total + 8 && Dims(base, total) && Loadable(bs, curr, base, total, p) && i < curr <= total && Spares(base, p, i)
    ensures PartMem(mem, base, total, curr, bs, p)[i] == mem[i] && i < CurrAfter(curr, p.allocs) <= total
  {
    hide At, Fits, Load, InData, AllocAll, FillAll, Dims, Room;
    RoomEnds(total, curr, p.allocs);
    AllocsBelow(mem, base, total, curr, p.allocs, i);
    var filled := FillAll(AllocAll(mem, base, total, curr, p.allocs), p.fills);
    FillsElsewhere(AllocAll(mem, base, total, curr, p.allocs), p.fills, i);
    Untouched(filled, seq(total + 8, n => 0), base, p.m, p.fs, i);
  }

  lemma {:induction false} AllSpared(mem: seq<Word>, base: int, total: nat, curr: nat, bs: seq<Block>, ps: seq<Part>, i: nat)
    requires |mem| == total + 8 && Dims(base, total) && AllLoadable(bs, curr, base, total, ps) && i < curr <= total
    requires AllSpare(base, ps, i)
    ensures LoadAll(mem, base, total, curr, bs, ps)[i] == mem[i] && i < CurrAll(curr, ps) <= total
    decreases |ps|
  {
    hide Loadable, PartMem, Dims, CurrAfter, Spares;
    if ps != [] {
      var init := ps[..|ps| - 1];
      assert ps[|ps| - 1] in ps;
      AllSpared(mem, base, total, curr, bs, init, i);
      PartSpares(LoadAll(mem, base, total, curr, bs, init), base, total, CurrAll(curr, init), BlocksAll(bs, curr, init), ps[|ps| - 1], i);
    }
  }

  // ---- The run -----------------------------------------------------------------------------

  lemma KernelMeans(bs: seq<Block>, curr: nat, base: int, total: nat, s: Start, mem: seq<Word>)
    requires KernelBootable(bs, curr, base, total, s) && Dims(base, total) && |mem| == total + 8
    ensures AllLoadable(bs, curr, base, total, s.kernel) && Aligned(s.td) && TdsAligned(s.ms)
    ensures Listed(BlocksAll(bs, curr, s.kernel), base, s.ms, s.td, s.size) && SizedLast(base, s.kernel, s.SizeAt(base), s.size)
    ensures 0 <= s.SizeAt(base) && base <= s.td
    ensures KernelBlocks(bs, curr, base, s) == Renaming(BlocksAll(bs, curr, s.kernel), base, Addresses(s.ms), s.td)
    ensures KernelMem(mem, base, total, curr, bs, s) == NamedAll(LoadAll(mem, base, total, curr, bs, s.kernel), base, s.ms, s.td)
  {
    hide AllLoadable, Aligned, TdsAligned, SizedLast, BlocksAll, Renaming, NamedAll, LoadAll, Dims;
  }

  lemma LayoutOf(h: Heap)
    requires h.Valid()
    ensures Layout(h.blocks, h.curr)
  {
  }

  lemma DataBelow(h: Heap, i: nat)
    requires h.Valid() && InData(h.blocks, i)
    ensures i < h.curr <= h.total
  {
    LayoutEnds(h.blocks, h.curr);
  }

  lemma PassMeans(bs: seq<Block>, base: int, s: Start)
    requires Listed(bs, base, s.ms, s.td, s.size)
    ensures (forall m :: m in s.ms ==> Known(bs, base, m)) && (forall b :: b in bs && b.kind.Module? ==> base + DataAt(b) in Addresses(s.ms))
    ensures base <= s.td && InData(bs, s.td - base + 16) && s.SizeAt(base) == s.td - base + 16
  {
    hide Known, InData, DataAt, AlignBlockSize, Addresses;
  }

  // The type-descriptor pass.
  method NameBlocks(h: Heap, s: Start)
    requires h.Valid() && Aligned(s.td) && Listed(h.blocks, h.base, s.ms, s.td, s.size)
    modifies h`blocks, h.mem
    ensures h.Valid() && h.blocks == Renaming(old(h.blocks), h.base, Addresses(s.ms), s.td)
    ensures 0 <= s.SizeAt(h.base) < h.curr <= h.total && h.mem[s.SizeAt(h.base)] == old(h.mem[s.SizeAt(h.base)])
    ensures InData(h.blocks, s.SizeAt(h.base)) && Described(h.blocks, s.td, AlignBlockSize(s.size))
    ensures TdsAligned(s.ms) && h.mem[..] == NamedAll(old(h.mem[..]), h.base, s.ms, s.td)
  {
    hide *;
    ghost var i := s.SizeAt(h.base);
    PassMeans(h.blocks, h.base, s);
    DataBelow(h, i);
    DimsOf(h);
    KernelDescribed(h.blocks, h.base, s.ms, s.td, s.size);
    RenamingKeeps(h.blocks, h.base, Addresses(s.ms), s.td);
    FixupTypeDescriptors(h, s.ms, s.td);
  }

  // Load the kernel, and give each of its blocks its descriptor.
  method BootKernel(h: Heap, s: Start)
    requires h.Valid() && KernelBootable(h.blocks, h.curr, h.base, h.total, s)
    modifies h, h.mem
    ensures h.Valid() && h.curr == CurrAll(old(h.curr), s.kernel) && h.blocks == KernelBlocks(old(h.blocks), old(h.curr), h.base, s)
    ensures Dims(h.base, h.total) && old(|h.mem[..]|) == h.total + 8
    ensures h.mem[..] == KernelMem(old(h.mem[..]), h.base, h.total, old(h.curr), old(h.blocks), s)
    ensures 0 <= s.SizeAt(h.base) < h.curr && h.mem[s.SizeAt(h.base)] == AlignBlockSize(s.size) && InData(h.blocks, s.SizeAt(h.base))
    ensures Described(h.blocks, s.td, AlignBlockSize(s.size)) && h.base <= s.td
  {
    hide *;
    DimsOf(h);
    LayoutOf(h);
    KernelMeans(h.blocks, h.curr, h.base, h.total, s, h.mem[..]);
    SizeSurvives(h.mem[..], h.base, h.total, h.curr, h.blocks, s.kernel, s.SizeAt(h.base), s.size);
    LoadParts(h, s.kernel);
    NameBlocks(h, s);
  }

  lemma BootMeans(bs: seq<Block>, curr: nat, base: int, total: nat, s: Start, mem: seq<Word>)
    requires Bootable(bs, curr, base, total, s) && Dims(base, total) && |mem| == total + 8
    ensures KernelBootable(bs, curr, base, total, s)
    ensures AllLoadable(KernelBlocks(bs, curr, base, s), CurrAll(curr, s.kernel), base, total, s.others)
    ensures AllSpare(base, s.others, s.SizeAt(base)) && Records(s.others, s.td, s.size)
    ensures Arrays(BootBlocks(bs, curr, base, s), base, s.uses)
    ensures BootBlocks(bs, curr, base, s) == BlocksAll(KernelBlocks(bs, curr, base, s), CurrAll(curr, s.kernel), s.others)
    ensures BootCurr(curr, s) == CurrAll(CurrAll(curr, s.kernel), s.others)
    ensures forall a :: a in s.uses ==> Aligned(a.1)
    ensures BootMem(mem, base, total, curr, bs, s)
         == NamedArrays(LoadAll(KernelMem(mem, base, total, curr, bs, s), base, total, CurrAll(curr, s.kernel),
                                KernelBlocks(bs, curr, base, s), s.others), base, s.uses)
  {
    hide KernelBootable, AllLoadable, AllSpare, Records, Dims, KernelBlocks, KernelMem, CurrAll, BlocksAll, LoadAll, NamedArrays,
      Owned, Aligned;
  }

  // The uses, and the walk.
  method FinishBoot(h: Heap, s: Start) returns (vs: seq<(int, int)>)
    requires h.Valid() && Arrays(h.blocks, h.base, s.uses) && Described(h.blocks, s.td, AlignBlockSize(s.size))
    requires 0 <= s.SizeAt(h.base) < h.curr && h.mem[s.SizeAt(h.base)] == AlignBlockSize(s.size) && InData(h.blocks, s.SizeAt(h.base))
    requires h.base <= s.td
    modifies h`blocks, h.mem
    ensures h.Valid() && h.blocks == old(h.blocks) && vs == h.Visits()
    ensures (forall a :: a in s.uses ==> Aligned(a.1)) && h.mem[..] == NamedArrays(old(h.mem[..]), h.base, s.uses)
  {
    hide Heap.Valid, InData, Owned, AlignBlockSize, NamedArrays, Heap.Visits;
    DataBelow(h, s.SizeAt(h.base));
    DimsOf(h);
    FixupArrays(h, s.uses);
    assert forall i :: 0 <= i < |h.blocks| ==> h.blocks[i] in h.blocks;
    vs := h.Walk();
  }

  // The bootstrap, in the source's order, from any heap, the empty one included. After it the walk
  // finds every block that was allocated, because the fixup for the size of the module record in
  // its descriptor counts in blocks as the allocator does, and nothing later harms that word.
  method Boot(h: Heap, s: Start) returns (vs: seq<(int, int)>)
    requires h.Valid() && Bootable(h.blocks, h.curr, h.base, h.total, s)
    modifies h, h.mem
    ensures h.Valid() && h.curr == BootCurr(old(h.curr), s) && h.blocks == BootBlocks(old(h.blocks), old(h.curr), h.base, s)
    ensures vs == h.Visits() == VisitsOf(BootBlocks(old(h.blocks), old(h.curr), h.base, s), BootCurr(old(h.curr), s), h.total)
    ensures Dims(h.base, h.total) && old(|h.mem[..]|) == h.total + 8
    ensures h.mem[..] == BootMem(old(h.mem[..]), h.base, h.total, old(h.curr), old(h.blocks), s)
  {
    hide *;
    DimsOf(h);
    ghost var i := s.SizeAt(h.base);
    BootMeans(h.blocks, h.curr, h.base, h.total, s, h.mem[..]);
    BootKernel(h, s);
    DimsOf(h);
    AllSpared(h.mem[..], h.base, h.total, h.curr, h.blocks, s.others, i);
    DescribedAll(h.blocks, h.curr, s.others, s.td, s.size);
    DataStaysAll(h.blocks, h.curr, s.others, i);
    LoadParts(h, s.others);
    DimsOf(h);
    vs := FinishBoot(h, s);
    VisitsAre(h);
  }

  lemma VisitsAre(h: Heap)
    ensures h.Visits() == VisitsOf(h.blocks, h.curr, h.total)
  {
  }
}
