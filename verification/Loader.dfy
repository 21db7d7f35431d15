// The last pass of the bootstrap loader over the heap: every module and every array of a
// module is given the type descriptor that the garbage collector will look for.
module Loader {
  import opened Words
  import opened Heap

  // A module record and its arrays, each with the descriptor it is to name; 0 is NIL.
  datatype Loaded = Loaded(adr: int, arrays: seq<(int, int)>)

  predicate Aligned(td: int) {
    0 <= td < TWO31 && td % 16 == 0
  }

  ghost predicate Owned(bs: seq<Block>, base: int, p: int, isArray: bool) {
    exists k :: 0 <= k < |bs| && p == base + DataAt(bs[k]) && isArray == bs[k].kind.Array?
  }

  ghost function Owner(bs: seq<Block>, base: int, p: int, isArray: bool): (k: nat)
    requires Owned(bs, base, p, isArray)
    ensures k < |bs| && p == base + DataAt(bs[k]) && isArray == bs[k].kind.Array?
  {
    var k :| 0 <= k < |bs| && p == base + DataAt(bs[k]) && isArray == bs[k].kind.Array?;
    k
  }

  ghost predicate Known(bs: seq<Block>, base: int, m: Loaded) {
    && m.adr != 0 && Owned(bs, base, m.adr, false)
    && forall a :: a in m.arrays ==> Aligned(a.1) && (a.0 != 0 ==> Owned(bs, base, a.0, true))
  }

  // The words of the blocks that belong to the blocks' owners.
  ghost predicate InData(bs: seq<Block>, w: nat) {
    OnWord(w) && exists k :: 0 <= k < |bs| && DataAt(bs[k]) <= w < End(bs[k])
  }

  // Where block `k`'s data begins, no other block's does; and the tag before it is no block's data.
  lemma DataApart(h: Heap, k: nat)
    requires h.Valid() && k < |h.blocks|
    ensures forall i :: 0 <= i < |h.blocks| && i != k ==> DataAt(h.blocks[i]) != DataAt(h.blocks[k])
    ensures !InData(h.blocks, DataAt(h.blocks[k]) - 4)
  {
    hide Heap.TagOK;
    var bs := h.blocks;
    h.Tagged(k);
    forall i | 0 <= i < |bs| && i != k
      ensures DataAt(bs[k]) <= bs[i].off || End(bs[i]) <= bs[k].off
      ensures DataAt(bs[i]) != DataAt(bs[k])
    {
      h.Tagged(i);
      assert if i < k then End(bs[i]) <= bs[k].off else End(bs[k]) <= bs[i].off;
    }
  }

  function Renamed(b: Block, base: int, adrs: set<int>, td: int): Block {
    if !b.kind.Array? && base + DataAt(b) in adrs then Block(b.off, b.size, Module(td)) else b
  }

  // `bs` with the blocks at the addresses `adrs` made records described by `td`.
  function Renaming(bs: seq<Block>, base: int, adrs: set<int>, td: int): seq<Block> {
    seq(|bs|, k requires 0 <= k < |bs| => Renamed(bs[k], base, adrs, td))
  }

  lemma RetypedRenames(h: Heap, k: nat, td: int)
    requires h.Valid() && k < |h.blocks|
    ensures Retyped(h.blocks, k, td) == if h.blocks[k].kind.Array? then h.blocks else
              Renaming(h.blocks, h.base, {h.base + DataAt(h.blocks[k])}, td)
  {
    DataApart(h, k);
  }

  lemma Site(h: Heap, p: int, td: int, isArray: bool) returns (k: nat)
    requires h.Valid() && Owned(h.blocks, h.base, p, isArray)
    ensures k < |h.blocks| && p == h.base + DataAt(h.blocks[k]) && isArray == h.blocks[k].kind.Array?
    ensures 0 <= p - h.base - 4 < h.mem.Length && !InData(h.blocks, p - h.base - 4)
    ensures Retyped(h.blocks, k, td) == if isArray then h.blocks else Renaming(h.blocks, h.base, {p}, td)
  {
    h.Tagged(Owner(h.blocks, h.base, p, isArray));
    hide Heap.Valid, Renaming, InData, Owned, Retyped, Layout;
    k := Owner(h.blocks, h.base, p, isArray);
    DataApart(h, k);
    RetypedRenames(h, k, td);
  }

  // The word that names the type descriptor of the block at `p`, if there is one.
  function Named(mem: seq<Word>, base: int, p: int, td: int, isArray: bool): (r: seq<Word>)
    requires Aligned(td)
    ensures |r| == |mem|
  {
    if p != 0 && 0 <= p - base - 4 < |mem| then mem[p - base - 4 := td + Flags(isArray)] else mem
  }

  function NamedArrays(mem: seq<Word>, base: int, arrays: seq<(int, int)>): (r: seq<Word>)
    requires forall a :: a in arrays ==> Aligned(a.1)
    ensures |r| == |mem|
    decreases |arrays|
  {
    if arrays == [] then mem else
      var a := arrays[|arrays| - 1];
      assert a in arrays;
      Named(NamedArrays(mem, base, arrays[..|arrays| - 1]), base, a.0, a.1, true)
  }

  predicate TdsAligned(ms: seq<Loaded>) {
    forall m :: m in ms ==> forall a :: a in m.arrays ==> Aligned(a.1)
  }

  // The pass over the module list.
  function NamedAll(mem: seq<Word>, base: int, ms: seq<Loaded>, td: int): (r: seq<Word>)
    requires Aligned(td) && TdsAligned(ms)
    ensures |r| == |mem|
    decreases |ms|
  {
    if ms == [] then mem else
      var m := ms[|ms| - 1];
      assert m in ms;
      NamedArrays(Named(NamedAll(mem, base, ms[..|ms| - 1], td), base, m.adr, td, false), base, m.arrays)
  }

  // One fixup, at the block that owns `p`.
  method Fixup(h: Heap, p: int, td: int, isArray: bool)
    requires h.Valid() && Aligned(td) && (p != 0 ==> Owned(h.blocks, h.base, p, isArray))
    modifies h`blocks, h.mem
    ensures h.Valid()
    ensures h.blocks == if p == 0 || isArray then old(h.blocks) else Renaming(old(h.blocks), h.base, {p}, td)
    ensures forall w :: 0 <= w < h.mem.Length && InData(old(h.blocks), w) ==> h.mem[w] == old(h.mem[w])
    ensures h.mem[..] == Named(old(h.mem[..]), h.base, p, td, isArray)
  {
    hide Heap.Valid, Renaming, InData, Owned, Retyped, Layout, DataAt, OnWord, Named;
    ghost var bs, was := h.blocks, h.mem[..];
    ghost var k: nat := 0;
    if p != 0 {
      k := Site(h, p, td, isArray);
    }
    OthersStay(bs, was, h.base, p, td, isArray);
    h.FixupTd(p, td, isArray, k);
    NamedIs(was, h.base, p, td, isArray);
    assert h.mem[..] == Named(was, h.base, p, td, isArray);
    assert forall w :: 0 <= w < h.mem.Length ==> h.mem[w] == h.mem[..][w] && was[w] == old(h.mem[w]);
  }

  lemma NamedIs(mem: seq<Word>, base: int, p: int, td: int, isArray: bool)
    requires Aligned(td)
    ensures p == 0 ==> Named(mem, base, p, td, isArray) == mem
    ensures p != 0 && 0 <= p - base - 4 < |mem| ==> Named(mem, base, p, td, isArray) == mem[p - base - 4 := td + Flags(isArray)]
  {
  }

  lemma OthersStay(bs: seq<Block>, mem: seq<Word>, base: int, p: int, td: int, isArray: bool)
    requires Aligned(td) && (p != 0 && p - base - 4 >= 0 ==> !InData(bs, p - base - 4))
    ensures forall w: nat :: w < |mem| && InData(bs, w) ==> Named(mem, base, p, td, isArray)[w] == mem[w]
  {
    hide InData;
  }

  // Renaming moves no block, and what it leaves alone stays as it was.
  lemma RenamingKeeps(bs: seq<Block>, base: int, adrs: set<int>, td: int)
    ensures forall p, isArray :: Owned(bs, base, p, isArray) ==> Owned(Renaming(bs, base, adrs, td), base, p, isArray)
    ensures forall w: nat :: InData(bs, w) ==> InData(Renaming(bs, base, adrs, td), w)
  {
    var bs' := Renaming(bs, base, adrs, td);
    forall p, isArray | Owned(bs, base, p, isArray) ensures Owned(bs', base, p, isArray) {
      var k := Owner(bs, base, p, isArray);
      assert p == base + DataAt(bs'[k]) && isArray == bs'[k].kind.Array?;
    }
    forall w: nat | InData(bs, w) ensures InData(bs', w) {
      var k :| 0 <= k < |bs| && DataAt(bs[k]) <= w < End(bs[k]);
      assert DataAt(bs'[k]) <= w < End(bs'[k]);
    }
  }

  lemma RenamingTwice(bs: seq<Block>, base: int, adrs: set<int>, p: int, td: int)
    ensures Renaming(Renaming(bs, base, adrs, td), base, {p}, td) == Renaming(bs, base, adrs + {p}, td)
  {
  }

  // The arrays of one module; none of their blocks moves or changes its size.
  method FixupArrays(h: Heap, arrays: seq<(int, int)>)
    requires h.Valid()
    requires forall a :: a in arrays ==> Aligned(a.1) && (a.0 != 0 ==> Owned(h.blocks, h.base, a.0, true))
    modifies h`blocks, h.mem
    ensures h.Valid() && h.blocks == old(h.blocks)
    ensures forall w :: 0 <= w < h.mem.Length && InData(h.blocks, w) ==> h.mem[w] == old(h.mem[w])
    ensures h.mem[..] == NamedArrays(old(h.mem[..]), h.base, arrays)
  {
    hide Heap.Valid, Owned, InData, Named;
    for i := 0 to |arrays|
      invariant h.Valid() && h.blocks == old(h.blocks)
      invariant h.mem[..] == NamedArrays(old(h.mem[..]), h.base, arrays[..i])
      invariant forall w :: 0 <= w < h.mem.Length && InData(h.blocks, w) ==> h.mem[w] == old(h.mem[w])
    {
      assert arrays[..i + 1][..i] == arrays[..i];
      Fixup(h, arrays[i].0, arrays[i].1, true);
    }
    assert arrays[..|arrays|] == arrays;
  }

  function Addresses(ms: seq<Loaded>): set<int> {
    set m | m in ms :: m.adr
  }

  method FixupModule(h: Heap, m: Loaded, td: int)
    requires h.Valid() && Aligned(td) && Known(h.blocks, h.base, m)
    modifies h`blocks, h.mem
    ensures h.Valid() && h.blocks == Renaming(old(h.blocks), h.base, {m.adr}, td)
    ensures forall w :: 0 <= w < h.mem.Length && InData(old(h.blocks), w) ==> h.mem[w] == old(h.mem[w])
    ensures h.mem[..] == NamedArrays(Named(old(h.mem[..]), h.base, m.adr, td, false), h.base, m.arrays)
  {
    hide Heap.Valid, Owned, InData, Renaming, Named, NamedArrays;
    Fixup(h, m.adr, td, false);
    RenamingKeeps(old(h.blocks), h.base, {m.adr}, td);
    FixupArrays(h, m.arrays);
  }

  // The pass over the module list.
  method FixupAll(h: Heap, ms: seq<Loaded>, td: int)
    requires h.Valid() && Aligned(td) && forall m :: m in ms ==> Known(h.blocks, h.base, m)
    modifies h`blocks, h.mem
    ensures h.Valid() && h.blocks == Renaming(old(h.blocks), h.base, Addresses(ms), td)
    ensures forall w :: 0 <= w < h.mem.Length && InData(old(h.blocks), w) ==> h.mem[w] == old(h.mem[w])
    ensures TdsAligned(ms) && h.mem[..] == NamedAll(old(h.mem[..]), h.base, ms, td)
  {
    hide Heap.Valid, Owned, InData, Renaming, Named, NamedArrays;
    assert TdsAligned(ms);
    ghost var bs := h.blocks;
    RenamingNone(bs, h.base, td);
    for i := 0 to |ms|
      invariant h.Valid() && h.blocks == Renaming(bs, h.base, Addresses(ms[..i]), td)
      invariant forall w :: 0 <= w < h.mem.Length && InData(bs, w) ==> h.mem[w] == old(h.mem[w])
      invariant h.mem[..] == NamedAll(old(h.mem[..]), h.base, ms[..i], td)
    {
      assert ms[..i + 1][..i] == ms[..i];
      RenamingKeeps(bs, h.base, Addresses(ms[..i]), td);
      assert Known(bs, h.base, ms[i]);
      FixupModule(h, ms[i], td);
      RenamingTwice(bs, h.base, Addresses(ms[..i]), ms[i].adr, td);
      assert Addresses(ms[..i + 1]) == Addresses(ms[..i]) + {ms[i].adr};
    }
    assert ms[..|ms|] == ms;
  }

  lemma RenamingNone(bs: seq<Block>, base: int, td: int)
    ensures bs == Renaming(bs, base, Addresses([]), td)
  {
  }

  // With every module record listed, a module block keeps its size for the walk exactly if the
  // descriptor of modules records it. No other block is touched.
  method FixupTypeDescriptors(h: Heap, ms: seq<Loaded>, td: int)
    requires h.Valid() && Aligned(td) && forall m :: m in ms ==> Known(h.blocks, h.base, m)
    requires forall b :: b in h.blocks && b.kind.Module? ==> h.base + DataAt(b) in Addresses(ms)
    requires h.base <= td && td - h.base + 16 < h.mem.Length && InData(h.blocks, td - h.base + 16)
    modifies h`blocks, h.mem
    ensures h.Valid() && h.blocks == Renaming(old(h.blocks), h.base, Addresses(ms), td) && h.Visits() == old(h.Visits())
    ensures forall i :: 0 <= i < |h.blocks| ==>
      (h.Recorded(h.blocks[i]) <==> (h.blocks[i].kind.Module? ==> old(h.mem[td - h.base + 16]) == h.blocks[i].size))
    ensures forall w :: 0 <= w < h.mem.Length && InData(old(h.blocks), w) ==> h.mem[w] == old(h.mem[w])
    ensures TdsAligned(ms) && h.mem[..] == NamedAll(old(h.mem[..]), h.base, ms, td)
  {
    hide Heap.Valid, Owned, InData, Known, NamedAll;
    FixupAll(h, ms, td);
    assert forall i :: 0 <= i < |h.blocks| ==> old(h.blocks[i]) in old(h.blocks);
  }
}
