// The whole image in memory, tags included, after the same bootstrap of two heaps that lie `d`
// bytes apart.
module MovedBoot {
  import opened Words
  import opened Heap
  import opened Loader
  import opened Relocation
  import opened Bootstrap
  import opened Moving

  function MovedStart(s: Start, d: int): Start {
    Start(MovedParts(s.kernel, d), MovedList(s.ms, d), s.td + d, s.size, MovedParts(s.others, d), MovedArrays(s.uses, d))
  }

  // What `Boot` asks for, of an empty heap.
  ghost predicate Ready(base: int, total: nat, s: Start) {
    Dims(base, total) && Bootable([], 0, base, total, s)
  }

  // The heap after `Boot`.
  ghost function WholeImage(base: int, total: nat, s: Start): (r: seq<Word>)
    requires Ready(base, total, s)
    ensures |r| == total + 8
  {
    BootMem(Empty(total), base, total, 0, [], s)
  }

  // How often the heap's address counts in each word, after the kernel's pass and at the end.
  ghost function KernelWeights(base: int, total: nat, s: Start): (r: seq<int>)
    requires KernelBootable([], 0, base, total, s)
    ensures |r| == total + 8
  {
    ListWeights(LoadWeights(Nothing(total), base, total, 0, [], s.kernel), base, s.ms, s.td)
  }

  ghost function WholeWeights(base: int, total: nat, s: Start): (r: seq<int>)
    requires Ready(base, total, s)
    ensures |r| == total + 8
  {
    ArrayWeights(LoadWeights(KernelWeights(base, total, s), base, total, CurrAll(0, s.kernel), KernelBlocks([], 0, base, s), s.others),
                 base, s.uses)
  }

  ghost predicate Given(base: int, total: nat, s: Start) {
    AllMovable(base, total, s.kernel) && AllMovable(base, total, s.others) && TdsWithin(base, total, s.ms) && TdsIn(base, total, s.uses)
  }

  ghost predicate CanMove(base: int, total: nat, s: Start, d: int) {
    Apart(base, total, d) && Ready(base, total, s) && Given(base, total, s)
  }

  lemma MovedIs(base: int, s: Start, d: int)
    ensures var t := MovedStart(s, d);
      && t.kernel == MovedParts(s.kernel, d) && t.ms == MovedList(s.ms, d) && t.td == s.td + d && t.size == s.size
      && t.others == MovedParts(s.others, d) && t.uses == MovedArrays(s.uses, d) && t.SizeAt(base + d) == s.SizeAt(base)
  {
  }

  lemma ListedMeans(bs: seq<Block>, base: int, ms: seq<Loaded>, td: int, size: nat)
    requires Listed(bs, base, ms, td, size)
    ensures base <= td && forall m :: m in ms ==> m.adr != 0
  {
  }

  lemma ShiftIs(td: int, d: int)
    ensures td != 0 ==> Shift(td, d) == td + d
  {
  }

  lemma WithinIs(base: int, total: nat, adr: int)
    requires base <= adr && adr - base + 16 < total
    ensures Within(base, total, adr)
  {
  }

  lemma SameNone()
    ensures SameShape([], [])
  {
  }

  lemma LayoutNothing()
    ensures Layout([], 0)
  {
  }

  lemma ApartMeans(base: int, total: nat, d: int)
    requires Apart(base, total, d)
    ensures Dims(base, total) && Dims(base + d, total) && 0 < base && total < TWO31
  {
  }

  // The descriptor of module records lies in the heap.
  lemma TdInside(base: int, total: nat, s: Start, d: int)
    requires KernelBootable([], 0, base, total, s) && Apart(base, total, d)
    ensures Within(base, total, s.td) && Shift(s.td, d) == s.td + d
  {
    hide *;
    ApartMeans(base, total, d);
    KernelMeans([], 0, base, total, s, Empty(total));
    LayoutNothing();
    SizeSurvives(Empty(total), base, total, 0, [], s.kernel, s.SizeAt(base), s.size);
    SizeAtIs(base, s);
    WithinIs(base, total, s.td);
    ShiftIs(s.td, d);
  }

  lemma SizeAtIs(base: int, s: Start)
    ensures s.SizeAt(base) == s.td - base + 16
  {
  }

  // The kernel can be loaded in the heap that lies elsewhere.
  lemma KernelCanMove(base: int, total: nat, s: Start, d: int)
    requires KernelBootable([], 0, base, total, s) && Apart(base, total, d) && AllMovable(base, total, s.kernel)
    requires TdsWithin(base, total, s.ms)
    ensures KernelBootable([], 0, base + d, total, MovedStart(s, d)) && ListWithin(base, total, s.ms)
    ensures CurrAll(0, MovedStart(s, d).kernel) == CurrAll(0, s.kernel)
    ensures SameShape(KernelBlocks([], 0, base, s), KernelBlocks([], 0, base + d, MovedStart(s, d)))
  {
    hide *;
    var t := MovedStart(s, d);
    var bs, cs := BlocksAll([], 0, s.kernel), BlocksAll([], 0, t.kernel);
    ApartMeans(base, total, d);
    MovedIs(base, s, d);
    KernelMeans([], 0, base, total, s, Empty(total));
    TdInside(base, total, s, d);
    SameNone();
    AllMove([], [], 0, base, total, s.kernel, d);
    TdStaysAligned(base, total, d, s.td);
    MovedListed(bs, cs, base, total, s.ms, s.td, s.size, d);
    ListStaysAligned(base, total, d, s.ms);
    MovedSizedLast(base, total, 0, [], s.kernel, s.SizeAt(base), s.size, d);
    ListedMeans(bs, base, s.ms, s.td, s.size);
    RenamedShapes(bs, cs, base, s.ms, s.td, d);
    IsKernelBootable([], 0, base + d, total, t);
    KernelBlocksAre([], 0, base, s);
    KernelBlocksAre([], 0, base + d, t);
  }

  lemma IsKernelBootable(bs: seq<Block>, curr: nat, base: int, total: nat, s: Start)
    requires AllLoadable(bs, curr, base, total, s.kernel) && Aligned(s.td) && TdsAligned(s.ms)
    requires Listed(BlocksAll(bs, curr, s.kernel), base, s.ms, s.td, s.size) && SizedLast(base, s.kernel, s.SizeAt(base), s.size)
    ensures KernelBootable(bs, curr, base, total, s)
  {
  }

  lemma KernelBlocksAre(bs: seq<Block>, curr: nat, base: int, s: Start)
    ensures KernelBlocks(bs, curr, base, s) == Renaming(BlocksAll(bs, curr, s.kernel), base, Addresses(s.ms), s.td)
  {
  }

  lemma KernelWeightsAre(base: int, total: nat, s: Start)
    requires KernelBootable([], 0, base, total, s)
    ensures AllLoadable([], 0, base, total, s.kernel)
    ensures KernelWeights(base, total, s) == ListWeights(LoadWeights(Nothing(total), base, total, 0, [], s.kernel), base, s.ms, s.td)
  {
    hide AllLoadable, ListWeights, LoadWeights, Listed, SizedLast, TdsAligned, Aligned, BlocksAll;
  }

  // And leaves the same image but for the weights.
  lemma KernelMoves(base: int, total: nat, s: Start, d: int)
    requires KernelBootable([], 0, base, total, s) && Apart(base, total, d) && AllMovable(base, total, s.kernel)
    requires TdsWithin(base, total, s.ms) && KernelBootable([], 0, base + d, total, MovedStart(s, d))
    ensures Dims(base, total) && Dims(base + d, total) && total < TWO31
    ensures Relocated(KernelMem(Empty(total), base, total, 0, [], s), KernelMem(Empty(total), base + d, total, 0, [], MovedStart(s, d)),
                      KernelWeights(base, total, s), d)
  {
    hide *;
    var t := MovedStart(s, d);
    ApartMeans(base, total, d);
    MovedIs(base, s, d);
    KernelMeans([], 0, base, total, s, Empty(total));
    KernelMeans([], 0, base + d, total, t, Empty(total));
    KernelCanMove(base, total, s, d);
    KernelWeightsAre(base, total, s);
    TdInside(base, total, s, d);
    SameNone();
    EmptyMoves(total, d);
    LoadMoves(Empty(total), Empty(total), Nothing(total), d, base, total, 0, [], [], s.kernel);
    ListMoves(LoadAll(Empty(total), base, total, 0, [], s.kernel), LoadAll(Empty(total), base + d, total, 0, [], t.kernel),
              LoadWeights(Nothing(total), base, total, 0, [], s.kernel), d, base, total, s.ms, s.td);
  }

  lemma CanMoveMeans(base: int, total: nat, s: Start, d: int)
    requires CanMove(base, total, s, d)
    ensures Apart(base, total, d) && Ready(base, total, s) && Bootable([], 0, base, total, s) && total < TWO31
    ensures Dims(base, total) && Dims(base + d, total)
    ensures AllMovable(base, total, s.kernel) && AllMovable(base, total, s.others)
    ensures TdsWithin(base, total, s.ms) && TdsIn(base, total, s.uses)
  {
    hide Bootable, AllMovable, TdsWithin, TdsIn;
  }

  lemma IsReady(base: int, total: nat, s: Start)
    requires Dims(base, total) && KernelBootable([], 0, base, total, s)
    requires AllLoadable(KernelBlocks([], 0, base, s), CurrAll(0, s.kernel), base, total, s.others)
    requires AllSpare(base, s.others, s.SizeAt(base)) && Records(s.others, s.td, s.size)
    requires Arrays(BootBlocks([], 0, base, s), base, s.uses)
    ensures Ready(base, total, s) && Bootable([], 0, base, total, s)
  {
    hide Dims, KernelBootable, AllLoadable, AllSpare, Records, Arrays, KernelBlocks, BootBlocks, CurrAll;
  }

  // The bootstrap can be done in the heap that lies elsewhere just as well, and gives the walk the
  // same blocks.
  lemma MovedReady(base: int, total: nat, s: Start, d: int)
    requires CanMove(base, total, s, d)
    ensures Ready(base + d, total, MovedStart(s, d)) && ArraysWithin(base, total, s.uses)
    ensures VisitsOf(BootBlocks([], 0, base + d, MovedStart(s, d)), BootCurr(0, MovedStart(s, d)), total)
         == VisitsOf(BootBlocks([], 0, base, s), BootCurr(0, s), total)
  {
    hide *;
    var t := MovedStart(s, d);
    CanMoveMeans(base, total, s, d);
    MovedIs(base, s, d);
    BootMeans([], 0, base, total, s, Empty(total));
    KernelCanMove(base, total, s, d);
    var bs, cs, curr := KernelBlocks([], 0, base, s), KernelBlocks([], 0, base + d, t), CurrAll(0, s.kernel);
    AllMove(bs, cs, curr, base, total, s.others, d);
    MovedSpare(base, total, curr, bs, s.others, s.SizeAt(base), d);
    TdInside(base, total, s, d);
    MovedRecords(s.others, s.td, s.size, d);
    BootBlocksAre([], 0, base, s);
    BootBlocksAre([], 0, base + d, t);
    MovedOwners(BootBlocks([], 0, base, s), BootBlocks([], 0, base + d, t), base, total, s.uses, d);
    IsReady(base + d, total, t);
    SameVisits(BootBlocks([], 0, base, s), BootBlocks([], 0, base + d, t), BootCurr(0, s), total);
  }

  lemma BootBlocksAre(bs: seq<Block>, curr: nat, base: int, s: Start)
    ensures BootBlocks(bs, curr, base, s) == BlocksAll(KernelBlocks(bs, curr, base, s), CurrAll(curr, s.kernel), s.others)
    ensures BootCurr(curr, s) == CurrAll(CurrAll(curr, s.kernel), s.others)
  {
  }

  lemma SameVisits(bs: seq<Block>, cs: seq<Block>, curr: nat, total: nat)
    requires SameShape(bs, cs)
    ensures VisitsOf(bs, curr, total) == VisitsOf(cs, curr, total)
  {
    assert forall i :: 0 <= i < |bs| ==> SameBlock(bs[i], cs[i]);
  }

  lemma ReadyMeans(base: int, total: nat, s: Start)
    requires Ready(base, total, s)
    ensures Dims(base, total) && Bootable([], 0, base, total, s) && total < TWO31
    ensures WholeImage(base, total, s) == BootMem(Empty(total), base, total, 0, [], s)
  {
    hide Bootable;
  }

  lemma WholeWeightsAre(base: int, total: nat, s: Start)
    requires Ready(base, total, s)
    ensures KernelBootable([], 0, base, total, s)
    ensures AllLoadable(KernelBlocks([], 0, base, s), CurrAll(0, s.kernel), base, total, s.others)
    ensures WholeWeights(base, total, s)
         == ArrayWeights(LoadWeights(KernelWeights(base, total, s), base, total, CurrAll(0, s.kernel), KernelBlocks([], 0, base, s), s.others),
                         base, s.uses)
  {
    hide KernelBootable, AllLoadable, AllSpare, Records, Dims, KernelBlocks, CurrAll, BlocksAll, LoadWeights, ArrayWeights, Arrays, KernelWeights;
  }

  // The main result: the images of the two bootstraps differ by the weights times `d` and in
  // nothing else. Every word moves, tags and array headers included.
  lemma BootMoves(base: int, total: nat, s: Start, d: int)
    requires CanMove(base, total, s, d)
    ensures Ready(base + d, total, MovedStart(s, d))
    ensures Relocated(WholeImage(base, total, s), WholeImage(base + d, total, MovedStart(s, d)), WholeWeights(base, total, s), d)
  {
    hide *;
    var t := MovedStart(s, d);
    CanMoveMeans(base, total, s, d);
    MovedReady(base, total, s, d);
    MovedIs(base, s, d);
    ReadyMeans(base, total, s);
    ReadyMeans(base + d, total, t);
    BootMeans([], 0, base, total, s, Empty(total));
    BootMeans([], 0, base + d, total, t, Empty(total));
    WholeWeightsAre(base, total, s);
    KernelCanMove(base, total, s, d);
    KernelMoves(base, total, s, d);
    var bs, cs, curr := KernelBlocks([], 0, base, s), KernelBlocks([], 0, base + d, t), CurrAll(0, s.kernel);
    var m0, m1 := KernelMem(Empty(total), base, total, 0, [], s), KernelMem(Empty(total), base + d, total, 0, [], t);
    LoadMoves(m0, m1, KernelWeights(base, total, s), d, base, total, curr, bs, cs, s.others);
    ArraysMove(LoadAll(m0, base, total, curr, bs, s.others), LoadAll(m1, base + d, total, curr, cs, t.others),
               LoadWeights(KernelWeights(base, total, s), base, total, curr, bs, s.others), d, base, total, s.uses);
  }

  // The same, of two heaps.
  method BootBoth(base: int, total: nat, s: Start, d: int) returns (h: Heap, h': Heap, vs: seq<(int, int)>, vs': seq<(int, int)>)
    requires CanMove(base, total, s, d)
    ensures h.Valid() && h'.Valid() && h.base == base && h'.base == base + d && vs == h.Visits() == h'.Visits() == vs'
    ensures Relocated(h.mem[..], h'.mem[..], WholeWeights(base, total, s), d)
  {
    CanMoveMeans(base, total, s, d);
    MovedReady(base, total, s, d);
    BootMoves(base, total, s, d);
    hide Ready, Relocated, Heap.Valid, Heap.Visits, MovedStart, VisitsOf, WholeImage, WholeWeights, BootBlocks, BootCurr;
    h, vs := BootNew(base, total, s);
    h', vs' := BootNew(base + d, total, MovedStart(s, d));
  }

  method BootNew(base: int, total: nat, s: Start) returns (h: Heap, vs: seq<(int, int)>)
    requires Ready(base, total, s)
    ensures h.Valid() && h.base == base && fresh(h) && fresh(h.mem)
    ensures vs == h.Visits() == VisitsOf(BootBlocks([], 0, base, s), BootCurr(0, s), total)
    ensures h.mem[..] == WholeImage(base, total, s)
  {
    ReadyMeans(base, total, s);
    h := new Heap(base, total);
    hide Bootable, BootMem, BootBlocks, BootCurr, Empty, Heap.Valid, Heap.Visits, VisitsOf;
    vs := Boot(h, s);
  }

  // ---- It can be had -----------------------------------------------------------------------

  // A kernel whose one module record is described at the start of the heap, and another module.
  function ExampleImage(): Image {
    Image(0, 0, 0, 0, 0, 0, 4112, 0)
  }

  function ExampleKernel(): Part {
    Part([SystemBlock(32), ModuleBlock(60, 0)], [], ExampleImage(), [Blk(TypeDesc, 16, 60)])
  }

  function ExampleOther(): Part {
    Part([ModuleBlock(60, 4112)], [], ExampleImage(), [])
  }

  function Example(): Start {
    Start([ExampleKernel()], [Loaded(4160, [])], 4112, 60, [ExampleOther()], [])
  }

  function ExampleBlocks(td: int): seq<Block> {
    [Block(0, 48, System), Block(48, 64, Module(td))]
  }

  lemma NoneMore(bs: seq<Block>, curr: nat)
    ensures CurrAfter(curr, []) == curr && BlocksAfter(bs, curr, []) == bs && forall total: nat :: curr <= total ==> Room(total, curr, [])
  {
  }

  lemma OneMore(bs: seq<Block>, curr: nat, news: seq<Alloc>, a: Alloc)
    ensures CurrAfter(curr, news + [a]) == CurrAfter(curr, news) + a.Size()
    ensures BlocksAfter(bs, curr, news + [a]) == BlocksAfter(bs, curr, news) + [BlockOf(a, CurrAfter(curr, news))]
    ensures forall total: nat :: Room(total, curr, news + [a]) <==>
      Room(total, curr, news) && a.Fine() && CurrAfter(curr, news + [a]) <= total
  {
    assert (news + [a])[..|news|] == news;
  }

  lemma OnePart(bs: seq<Block>, curr: nat, base: int, total: nat, p: Part)
    ensures CurrAll(curr, [p]) == CurrAfter(curr, p.allocs) && BlocksAll(bs, curr, [p]) == BlocksAfter(bs, curr, p.allocs)
    ensures AllLoadable(bs, curr, base, total, [p]) <==> Loadable(bs, curr, base, total, p)
  {
    hide Loadable, BlocksAfter, CurrAfter;
    assert [p][..0] == [];
  }

  lemma ExampleSizes()
    ensures AlignBlockSize(32) == 48 && AlignBlockSize(60) == 64
  {
  }

  lemma ExampleRoom()
    ensures BlocksAfter([], 0, ExampleKernel().allocs) == ExampleBlocks(0) && CurrAfter(0, ExampleKernel().allocs) == 112
    ensures forall td :: BlocksAfter(ExampleBlocks(td), 112, ExampleOther().allocs) == ExampleBlocks(td) + [Block(112, 64, Module(4112))]
    ensures CurrAfter(112, ExampleOther().allocs) == 176
    ensures Room(1024, 0, ExampleKernel().allocs) && Room(1024, 112, ExampleOther().allocs)
  {
    hide AlignBlockSize, BlocksAfter, CurrAfter, Room;
    ExampleSizes();
    var a, b, c := SystemBlock(32), ModuleBlock(60, 0), ModuleBlock(60, 4112);
    assert [] + [a] == [a] && [a] + [b] == [a, b] && [] + [c] == [c];
    NoneMore([], 0);
    OneMore([], 0, [], a);
    OneMore([], 0, [a], b);
    NoneMore([], 112);
    OneMore([], 112, [], c);
    forall td ensures BlocksAfter(ExampleBlocks(td), 112, [c]) == ExampleBlocks(td) + [Block(112, 64, Module(4112))] {
      NoneMore(ExampleBlocks(td), 112);
      OneMore(ExampleBlocks(td), 112, [], c);
    }
  }

  lemma ExampleFixup()
    ensures At(4108, ExampleImage(), Blk(TypeDesc, 16, 60)) == 20
    ensures Fits(1032, 4108, ExampleImage(), Blk(TypeDesc, 16, 60)) && Complete(ExampleImage(), Blk(TypeDesc, 16, 60))
  {
  }

  lemma ExampleLoads()
    ensures Loadable([], 0, 4108, 1024, ExampleKernel()) && Movable(4108, 1024, ExampleKernel())
    ensures Loadable(ExampleBlocks(4112), 112, 4108, 1024, ExampleOther()) && Movable(4108, 1024, ExampleOther())
    ensures InData(ExampleBlocks(0), 20)
    ensures Sized(4108, ExampleImage(), ExampleKernel().fs, 20, 60)
  {
    ExampleRoom();
    ExampleFixup();
    hide At, Fits, Complete, Room, BlocksAfter, AlignBlockSize;
    assert DataAt(ExampleBlocks(0)[0]) <= 20 < End(ExampleBlocks(0)[0]);
    assert ExampleKernel().fs[0] == Blk(TypeDesc, 16, 60);
  }

  lemma ExampleListed()
    ensures Listed(ExampleBlocks(0), 4108, Example().ms, 4112, 60)
    ensures Renaming(ExampleBlocks(0), 4108, Addresses(Example().ms), 4112) == ExampleBlocks(4112)
  {
    ExampleSizes();
    ExampleLoads();
    hide AlignBlockSize, InData, Sized, Loadable, Movable;
    var bs, m := ExampleBlocks(0), Example().ms[0];
    assert Owned(bs, 4108, 4160, false) by { assert 4160 == 4108 + DataAt(bs[1]); }
    assert m in Example().ms && Addresses(Example().ms) == {4160};
  }

  lemma ExampleKernelBoots()
    ensures KernelBootable([], 0, 4108, 1024, Example()) && CurrAll(0, Example().kernel) == 112
    ensures KernelBlocks([], 0, 4108, Example()) == ExampleBlocks(4112)
  {
    hide Loadable, Movable, Listed, Renaming, Sized, BlocksAll, CurrAll, BlocksAfter, CurrAfter, AllLoadable, Addresses, InData;
    ExampleRoom();
    ExampleLoads();
    ExampleListed();
    OnePart([], 0, 4108, 1024, ExampleKernel());
  }

  // So what is asked for can be had, and moved by any multiple of 16 that leaves the heap where
  // heaps can be.
  lemma ExampleBoots(d: int)
    requires Apart(4108, 1024, d)
    ensures CanMove(4108, 1024, Example(), d)
    ensures VisitsOf(BootBlocks([], 0, 4108, Example()), BootCurr(0, Example()), 1024) == [(0, 48), (48, 64), (112, 64), (176, 848)]
  {
    hide KernelBootable, KernelBlocks, Loadable, Movable, BlocksAll, CurrAll, BlocksAfter, CurrAfter, AllLoadable, Apart, InData, Sized;
    ExampleKernelBoots();
    ExampleRoom();
    ExampleLoads();
    OnePart(ExampleBlocks(4112), 112, 4108, 1024, ExampleOther());
    OnePart([], 0, 4108, 1024, ExampleKernel());
    ApartMeans(4108, 1024, d);
  }
}
