// Fixups: how the loader writes addresses into the code and data of a module, and what
// becomes of the result when the whole heap lies somewhere else.
module Relocation {
  import opened Words
  import opened Heap
  import opened Loader

  datatype Segment = Code | Const | Case | Data | Export | Command | TypeDesc | TDesc

  // Where a module's arrays are.
  datatype Image = Image(code: int, data: int, sb: int, jumps: int, exports: int, commands: int, tddata: int, tdescs: int)

  // What to add to, or to put into, a word. The address of an imported symbol is read from the
  // `adr` field of entry `n` of its module's export table.
  datatype Target = Local(seg: Segment, offs: int) | Imported(module_: Image, n: int)
  datatype Mode = Abs | Rel
  datatype Fixup = Add(mode: Mode, seg: Segment, offs: int, target: Target) | Blk(seg: Segment, offs: int, size: nat)

  // Address of byte or entry `offs` of a segment; exports take 20 bytes each, commands 8.
  function SegAdr(m: Image, seg: Segment, offs: int): Word {
    Wrap(match seg
         case Code => m.code + offs
         case Const => m.data + m.sb + offs
         case Case => m.jumps + offs
         case Data => m.data + m.sb + offs
         case Export => m.exports + 20 * offs + 12
         case Command => m.commands + 8 * offs + 4
         case TypeDesc => m.tddata + offs
         case TDesc => m.tdescs + 4 * offs)
  }

  // Index of the word a fixup changes, and of the word an imported target is read from.
  function At(base: int, m: Image, f: Fixup): int {
    SegAdr(m, f.seg, f.offs) - base
  }

  function Source(base: int, t: Target): int
    requires t.Imported?
  {
    SegAdr(t.module_, Export, t.n) - base
  }

  predicate Fits(len: nat, base: int, m: Image, f: Fixup) {
    && 0 <= At(base, m, f) < len && OnWord(At(base, m, f))
    && (f.Blk? ==> AlignBlockSize(f.size) < TWO32)
    && (f.Add? && f.target.Imported? ==> 0 <= Source(base, f.target) < len && OnWord(Source(base, f.target)))
  }

  function TargetAdr(mem: seq<Word>, base: int, m: Image, t: Target): Word
    requires t.Imported? ==> 0 <= Source(base, t) < |mem|
  {
    match t
    case Local(seg, offs) => SegAdr(m, seg, offs)
    case Imported(_, _) => mem[Source(base, t)]
  }

  // What an additive fixup adds: a relative one counts from the word after the next.
  function Amount(mem: seq<Word>, base: int, m: Image, f: Fixup): int
    requires f.Add? && Fits(|mem|, base, m, f)
  {
    TargetAdr(mem, base, m, f.target) - (if f.mode.Rel? then SegAdr(m, f.seg, f.offs) + 8 else 0)
  }

  function Fixed(mem: seq<Word>, base: int, m: Image, f: Fixup): Word
    requires Fits(|mem|, base, m, f)
  {
    match f
    case Add(_, _, _, _) => Wrap(mem[At(base, m, f)] + Amount(mem, base, m, f))
    case Blk(_, _, size) => AlignBlockSize(size)
  }

  function Load(mem: seq<Word>, base: int, m: Image, fs: seq<Fixup>): (r: seq<Word>)
    requires forall f :: f in fs ==> Fits(|mem|, base, m, f)
    ensures |r| == |mem|
    decreases |fs|
  {
    if fs == [] then mem else
      var before := Load(mem, base, m, fs[..|fs| - 1]);
      var f := fs[|fs| - 1];
      assert f in fs && Fits(|before|, base, m, f);
      before[At(base, m, f) := Fixed(before, base, m, f)]
  }

  // The word that a fixup leaves.
  method FixupWord(h: Heap, m: Image, f: Fixup) returns (word: Word)
    requires Fits(h.mem.Length, h.base, m, f)
    ensures word == Fixed(h.mem[..], h.base, m, f)
  {
    match f {
      case Add(mode, seg, offs, target) =>
        var adr: int := SegAdr(m, seg, offs);
        var t: int;
        match target {
          case Local(tseg, toffs) => t := SegAdr(m, tseg, toffs);
          case Imported(_, _) => t := h.mem[Source(h.base, target)];
        }
        if mode.Rel? {
          t := t - (adr + 8);
        }
        word := Wrap(h.mem[adr - h.base] + t);
      case Blk(_, _, size) =>
        word := AlignBlockSize(size);
    }
  }

  // The word is changed in place; no tag is touched.
  method FixupSegment(h: Heap, m: Image, f: Fixup)
    requires h.Valid() && Fits(h.mem.Length, h.base, m, f) && InData(h.blocks, At(h.base, m, f))
    modifies h.mem
    ensures h.Valid()
    ensures h.mem[..] == old(h.mem[..])[At(h.base, m, f) := Fixed(old(h.mem[..]), h.base, m, f)]
  {
    hide Heap.Valid, Fixed, SegAdr;
    var word := FixupWord(h, m, f);
    var at := At(h.base, m, f);
    ghost var k: nat :| k < |h.blocks| && DataAt(h.blocks[k]) <= at < End(h.blocks[k]);
    h.Store(at, word, k);
  }

  method ReadFixups(h: Heap, m: Image, fs: seq<Fixup>)
    requires h.Valid()
    requires forall f :: f in fs ==> Fits(h.mem.Length, h.base, m, f) && InData(h.blocks, At(h.base, m, f))
    modifies h.mem
    ensures h.Valid() && h.mem[..] == Load(old(h.mem[..]), h.base, m, fs)
  {
    hide Heap.Valid, Fixed, SegAdr, InData, Fits;
    for i := 0 to |fs|
      invariant h.Valid() && h.mem[..] == Load(old(h.mem[..]), h.base, m, fs[..i])
    {
      FixupSegment(h, m, fs[i]);
      assert fs[..i + 1][..i] == fs[..i];
    }
    assert fs[..|fs|] == fs;
  }

  // Some fixup stores the block size of a record of `size` bytes in word `i`, and none comes after
  // it there.
  ghost predicate Sized(base: int, m: Image, fs: seq<Fixup>, i: int, size: nat) {
    exists k :: 0 <= k < |fs| && fs[k] == Blk(fs[k].seg, fs[k].offs, size) && At(base, m, fs[k]) == i
      && forall j :: k < j < |fs| ==> At(base, m, fs[j]) != i
  }

  lemma {:induction false} SizeStays(mem: seq<Word>, base: int, m: Image, fs: seq<Fixup>, k: nat)
    requires k < |fs| && fs[k].Blk? && forall f :: f in fs ==> Fits(|mem|, base, m, f)
    requires Fits(|mem|, base, m, fs[k])
    requires forall j :: k < j < |fs| ==> At(base, m, fs[j]) != At(base, m, fs[k])
    ensures Load(mem, base, m, fs)[At(base, m, fs[k])] == AlignBlockSize(fs[k].size)
    decreases |fs|
  {
    hide At;
    assert fs[|fs| - 1] in fs;
    if k < |fs| - 1 {
      SizeStays(mem, base, m, fs[..|fs| - 1], k);
    }
  }

  // The size that a type descriptor ends up with is the allocator's for its record.
  lemma SizeRecorded(mem: seq<Word>, base: int, m: Image, fs: seq<Fixup>, i: nat, size: nat)
    requires i < |mem| && Sized(base, m, fs, i, size) && forall f :: f in fs ==> Fits(|mem|, base, m, f)
    ensures Load(mem, base, m, fs)[i] == AlignBlockSize(size)
  {
    hide At, Fits, AlignBlockSize, Load;
    var k :| 0 <= k < |fs| && fs[k] == Blk(fs[k].seg, fs[k].offs, size) && At(base, m, fs[k]) == i
      && forall j :: k < j < |fs| ==> At(base, m, fs[j]) != i;
    assert fs[k] in fs;
    SizeStays(mem, base, m, fs, k);
  }

  // The same heap `d` bytes further up. NIL does not move.

  function Shift(adr: int, d: int): int {
    if adr == 0 then 0 else adr + d
  }

  function Moved(m: Image, d: int): Image {
    Image(Shift(m.code, d), Shift(m.data, d), m.sb, Shift(m.jumps, d), Shift(m.exports, d),
          Shift(m.commands, d), Shift(m.tddata, d), Shift(m.tdescs, d))
  }

  function MovedFixup(f: Fixup, d: int): Fixup {
    match f
    case Add(mode, seg, offs, Imported(e, n)) => Add(mode, seg, offs, Imported(Moved(e, d), n))
    case _ => f
  }

  function MovedAll(fs: seq<Fixup>, d: int): seq<Fixup> {
    seq(|fs|, i requires 0 <= i < |fs| => MovedFixup(fs[i], d))
  }

  predicate Present(m: Image, seg: Segment) {
    0 != match seg
         case Code => m.code
         case Const => m.data
         case Case => m.jumps
         case Data => m.data
         case Export => m.exports
         case Command => m.commands
         case TypeDesc => m.tddata
         case TDesc => m.tdescs
  }

  // Every segment a fixup mentions is there.
  predicate Complete(m: Image, f: Fixup) {
    && Present(m, f.seg)
    && match f
       case Add(_, _, _, Local(seg, _)) => Present(m, seg)
       case Add(_, _, _, Imported(e, _)) => Present(e, Export)
       case Blk(_, _, _) => true
  }

  function TargetWeight(w: seq<int>, base: int, t: Target): int
    requires t.Imported? ==> 0 <= Source(base, t) < |w|
  {
    if t.Local? then 1 else w[Source(base, t)]
  }

  // How often the heap's address counts in a word: a sum of addresses moves by as many times `d`.
  function Weight(w: seq<int>, base: int, m: Image, f: Fixup): int
    requires Fits(|w|, base, m, f)
  {
    match f
    case Add(mode, _, _, t) =>
      w[At(base, m, f)] + TargetWeight(w, base, t) - (if mode.Rel? then 1 else 0)
    case Blk(_, _, _) => 0
  }

  function Weights(w: seq<int>, base: int, m: Image, fs: seq<Fixup>): (r: seq<int>)
    requires forall f :: f in fs ==> Fits(|w|, base, m, f)
    ensures |r| == |w|
    decreases |fs|
  {
    if fs == [] then w else
      var before := Weights(w, base, m, fs[..|fs| - 1]);
      var f := fs[|fs| - 1];
      assert f in fs && Fits(|before|, base, m, f);
      before[At(base, m, f) := Weight(before, base, m, f)]
  }

  // A word after a move by `d` of what it counts `w` times.
  function Carried(x: int, d: int, w: int): Word {
    Wrap(x + d * w)
  }

  ghost predicate Relocated(mem0: seq<Word>, mem1: seq<Word>, w: seq<int>, d: int) {
    && |mem0| == |mem1| == |w|
    && forall i :: 0 <= i < |w| ==> mem1[i] == Carried(mem0[i], d, w[i])
  }

  // The two heaps lie within the machine's address space.
  predicate Ranges(len: nat, base: int, d: int) {
    0 <= base && 0 <= base + d && base + len <= TWO32 && base + d + len <= TWO32
  }

  lemma SegMoves(m: Image, seg: Segment, offs: int, d: int)
    requires Present(m, seg)
    ensures SegAdr(Moved(m, d), seg, offs) == Wrap(SegAdr(m, seg, offs) + d)
  {
    var a: int := match seg
         case Code => m.code + offs
         case Const => m.data + m.sb + offs
         case Case => m.jumps + offs
         case Data => m.data + m.sb + offs
         case Export => m.exports + 20 * offs + 12
         case Command => m.commands + 8 * offs + 4
         case TypeDesc => m.tddata + offs
         case TDesc => m.tdescs + 4 * offs;
    WrapAdd(a, d);
  }

  lemma WrapAdd(a: int, b: int)
    ensures Wrap(a + b) == Wrap(Wrap(a) + b)
  {
    var q := a / TWO32;
    assert a + b == Wrap(a) + b + q * TWO32;
    WrapTimes(Wrap(a) + b, q);
  }

  lemma WrapTimes(a: int, q: int)
    ensures Wrap(a + q * TWO32) == Wrap(a)
  {
    assert a == a / TWO32 * TWO32 + Wrap(a);
    assert a + q * TWO32 == (a / TWO32 + q) * TWO32 + Wrap(a);
    Quotient(a + q * TWO32, a / TWO32 + q, Wrap(a));
  }

  lemma Quotient(a: int, q: int, r: int)
    requires a == q * TWO32 + r && 0 <= r < TWO32
    ensures a % TWO32 == r
  {
  }

  // A fixup finds the same words again in the moved heap.
  lemma FixupMoves(len: nat, base: int, m: Image, f: Fixup, d: int)
    requires Fits(len, base, m, f) && Complete(m, f) && Ranges(len, base, d)
    ensures Fits(len, base + d, Moved(m, d), MovedFixup(f, d)) && At(base + d, Moved(m, d), MovedFixup(f, d)) == At(base, m, f)
    ensures MovedFixup(f, d).Add? == f.Add? && (f.Add? ==> MovedFixup(f, d).mode == f.mode)
    ensures f.Add? && f.target.Imported? ==>
              Source(base + d, MovedFixup(f, d).target) == Source(base, f.target)
  {
    hide SegAdr, Moved;
    SegMoves(m, f.seg, f.offs, d);
    if f.Add? && f.target.Imported? {
      SegMoves(f.target.module_, Export, f.target.n, d);
    }
  }

  lemma WrapSum(a: int, b: int, c: int)
    ensures Wrap(Wrap(a) + Wrap(b) + c) == Wrap(a + b + c)
  {
    hide Wrap;
    WrapAdd(a, Wrap(b) + c);
    WrapAdd(b, a + c);
    assert Wrap(a) + Wrap(b) + c == Wrap(a) + (Wrap(b) + c);
    assert Wrap(Wrap(a) + (Wrap(b) + c)) == Wrap(a + (Wrap(b) + c)) == Wrap(Wrap(b) + (a + c)) == Wrap(b + (a + c));
  }

  lemma TargetMoves(mem0: seq<Word>, mem1: seq<Word>, w: seq<int>, base: int, m: Image, f: Fixup, d: int)
    requires Relocated(mem0, mem1, w, d) && f.Add? && Fits(|w|, base, m, f) && Complete(m, f) && Ranges(|w|, base, d)
    requires Fits(|w|, base + d, Moved(m, d), MovedFixup(f, d))
    ensures TargetAdr(mem1, base + d, Moved(m, d), MovedFixup(f, d).target)
         == Carried(TargetAdr(mem0, base, m, f.target), d, TargetWeight(w, base, f.target))
  {
    hide SegAdr, Moved, Wrap;
    FixupMoves(|w|, base, m, f, d);
    if f.target.Local? {
      SegMoves(m, f.target.seg, f.target.offs, d);
      assert d * TargetWeight(w, base, f.target) == d;
    }
  }

  lemma Sums(x: int, t: int, c: int, d: int, w: int, tw: int, rel: bool)
    ensures Wrap(Carried(x, d, w) + Carried(t, d, tw) - (c + (if rel then d else 0)))
         == Carried(Wrap(x + t - c), d, w + tw - (if rel then 1 else 0))
  {
    hide Wrap;
    var r := if rel then 1 else 0;
    WrapSum(x + d * w, t + d * tw, -(c + d * r));
    assert d * (w + tw - r) == d * w + d * tw - d * r;
    WrapAdd(x + t - c, d * (w + tw - r));
  }

  lemma AmountMoves(mem0: seq<Word>, mem1: seq<Word>, w: seq<int>, base: int, m: Image, f: Fixup, d: int)
    requires Relocated(mem0, mem1, w, d) && f.Add? && Fits(|w|, base, m, f) && Complete(m, f) && Ranges(|w|, base, d)
    requires Fits(|w|, base + d, Moved(m, d), MovedFixup(f, d))
    ensures var c := if f.mode.Rel? then At(base, m, f) + base + 8 else 0;
      && Amount(mem0, base, m, f) == TargetAdr(mem0, base, m, f.target) - c
      && Amount(mem1, base + d, Moved(m, d), MovedFixup(f, d))
         == Carried(TargetAdr(mem0, base, m, f.target), d, TargetWeight(w, base, f.target)) - (c + (if f.mode.Rel? then d else 0))
  {
    hide Moved, MovedFixup, Wrap, Complete, Carried, SegAdr, Source, TargetAdr, TargetWeight, Ranges;
    FixupMoves(|w|, base, m, f, d);
    TargetMoves(mem0, mem1, w, base, m, f, d);
  }

  lemma FitsMeans(len: nat, base: int, m: Image, f: Fixup)
    requires Fits(len, base, m, f)
    ensures 0 <= At(base, m, f) < len && (f.Add? && f.target.Imported? ==> 0 <= Source(base, f.target) < len)
  {
    hide SegAdr, OnWord;
  }

  lemma SumMoves(mem0: seq<Word>, mem1: seq<Word>, w: seq<int>, base: int, m: Image, f: Fixup, d: int)
    requires Relocated(mem0, mem1, w, d) && Fits(|w|, base, m, f) && Complete(m, f) && Ranges(|w|, base, d) && f.Add?
    requires Fits(|w|, base + d, Moved(m, d), MovedFixup(f, d))
    ensures Fixed(mem1, base + d, Moved(m, d), MovedFixup(f, d)) == Carried(Fixed(mem0, base, m, f), d, Weight(w, base, m, f))
  {
    hide Moved, MovedFixup, Wrap, Carried, At, Fits, Complete, SegAdr, Source, TargetAdr, TargetWeight, Ranges, Amount, OnWord, AlignBlockSize;
    FixupMoves(|w|, base, m, f, d);
    FitsMeans(|w|, base, m, f);
    FitsMeans(|w|, base + d, Moved(m, d), MovedFixup(f, d));
    var rel := f.mode.Rel?;
    var t := TargetAdr(mem0, base, m, f.target);
    var c := if rel then At(base, m, f) + base + 8 else 0;
    AmountMoves(mem0, mem1, w, base, m, f, d);
    Sums(mem0[At(base, m, f)], t, c, d, w[At(base, m, f)], TargetWeight(w, base, f.target), rel);
  }

  lemma FixedMoves(mem0: seq<Word>, mem1: seq<Word>, w: seq<int>, base: int, m: Image, f: Fixup, d: int)
    requires Relocated(mem0, mem1, w, d) && Fits(|w|, base, m, f) && Complete(m, f) && Ranges(|w|, base, d)
    requires Fits(|w|, base + d, Moved(m, d), MovedFixup(f, d))
    ensures Fixed(mem1, base + d, Moved(m, d), MovedFixup(f, d)) == Carried(Fixed(mem0, base, m, f), d, Weight(w, base, m, f))
  {
    hide Moved, Complete, SegAdr, Source, TargetAdr, TargetWeight, Ranges, Amount, OnWord, AlignBlockSize, At, Relocated;
    if f.Add? {
      SumMoves(mem0, mem1, w, base, m, f, d);
    } else {
      assert d * 0 == 0;
    }
  }

  // The main result: load the same module into the moved heap, and every word moves by as much
  // as its weight says.
  lemma {:induction false} Relocation(mem0: seq<Word>, mem1: seq<Word>, w: seq<int>, base: int, m: Image, fs: seq<Fixup>, d: int)
    requires Relocated(mem0, mem1, w, d) && Ranges(|w|, base, d)
    requires forall f :: f in fs ==> Fits(|w|, base, m, f) && Complete(m, f)
    ensures forall f :: f in MovedAll(fs, d) ==> Fits(|w|, base + d, Moved(m, d), f)
    ensures Relocated(Load(mem0, base, m, fs), Load(mem1, base + d, Moved(m, d), MovedAll(fs, d)), Weights(w, base, m, fs), d)
    decreases |fs|
  {
    hide SegAdr, Moved, MovedFixup, Complete, Fits, Fixed, Carried, Weight;
    forall f | f in MovedAll(fs, d) ensures Fits(|w|, base + d, Moved(m, d), f) {
      var i :| 0 <= i < |fs| && f == MovedFixup(fs[i], d);
      FixupMoves(|w|, base, m, fs[i], d);
    }
    if fs != [] {
      var init, f := fs[..|fs| - 1], fs[|fs| - 1];
      assert forall g :: g in init ==> g in fs;
      Relocation(mem0, mem1, w, base, m, init, d);
      assert MovedAll(fs, d) == MovedAll(init, d) + [MovedFixup(f, d)];
      assert MovedAll(fs, d)[..|fs| - 1] == MovedAll(init, d);
      FixupMoves(|w|, base, m, f, d);
      FixedMoves(Load(mem0, base, m, init), Load(mem1, base + d, Moved(m, d), MovedAll(init, d)),
                 Weights(w, base, m, init), base, m, f, d);
    }
  }

  // No fixup changes a word that another reads its target from.
  ghost predicate Stable(base: int, m: Image, fs: seq<Fixup>) {
    forall f, g :: f in fs && g in fs && f.Add? && f.target.Imported? ==> Source(base, f.target) != At(base, m, g)
  }

  lemma {:induction false} Untouched(mem: seq<Word>, w: seq<int>, base: int, m: Image, fs: seq<Fixup>, i: nat)
    requires |w| == |mem| && i < |w| && forall f :: f in fs ==> Fits(|w|, base, m, f) && At(base, m, f) != i
    ensures Load(mem, base, m, fs)[i] == mem[i] && Weights(w, base, m, fs)[i] == w[i]
    decreases |fs|
  {
    hide Fits, Fixed, Weight, At;
    if fs != [] {
      assert fs[|fs| - 1] in fs;
      Untouched(mem, w, base, m, fs[..|fs| - 1], i);
    }
  }

  function Count(base: int, m: Image, fs: seq<Fixup>, i: int): nat
    decreases |fs|
  {
    if fs == [] then 0 else
      var f := fs[|fs| - 1];
      Count(base, m, fs[..|fs| - 1], i) + (if f.Add? && f.mode.Abs? && At(base, m, f) == i then 1 else 0)
  }

  // When each imported address already counts the heap once, a word counts it once more for
  // each absolute fixup, and relative fixups leave no trace of where the heap is.
  lemma {:induction false} Counted(mem: seq<Word>, w: seq<int>, base: int, m: Image, fs: seq<Fixup>, i: nat)
    requires |w| == |mem| && i < |w| && Stable(base, m, fs)
    requires forall f :: f in fs ==>
               Fits(|w|, base, m, f) && (f.Add? && f.target.Imported? ==> w[Source(base, f.target)] == 1)
    requires forall f :: f in fs && f.Blk? ==> At(base, m, f) != i
    ensures Weights(w, base, m, fs)[i] == w[i] + Count(base, m, fs, i)
    decreases |fs|
  {
    if fs != [] {
      hide At, Source;
      var init, f := fs[..|fs| - 1], fs[|fs| - 1];
      assert f in fs && forall g :: g in init ==> g in fs;
      Counted(mem, w, base, m, init, i);
      if f.Add? && f.target.Imported? {
        Untouched(mem, w, base, m, init, Source(base, f.target));
      }
    }
  }

  // What a fixup adds to word `i`.
  function Term(mem: seq<Word>, base: int, m: Image, f: Fixup, i: int): int {
    if f.Add? && Fits(|mem|, base, m, f) && At(base, m, f) == i then Amount(mem, base, m, f) else 0
  }

  function Total(mem: seq<Word>, base: int, m: Image, fs: seq<Fixup>, i: int): int
    decreases |fs|
  {
    if fs == [] then 0 else Total(mem, base, m, fs[..|fs| - 1], i) + Term(mem, base, m, fs[|fs| - 1], i)
  }

  lemma SameAmount(mem0: seq<Word>, mem1: seq<Word>, base: int, m: Image, f: Fixup)
    requires |mem0| == |mem1| && f.Add? && Fits(|mem0|, base, m, f)
    requires f.target.Imported? ==> mem0[Source(base, f.target)] == mem1[Source(base, f.target)]
    ensures Amount(mem0, base, m, f) == Amount(mem1, base, m, f)
  {
    hide SegAdr, OnWord, At;
  }

  // A fixup adds its term to the word, as reckoned from a memory where its target is the same.
  lemma AddsTerm(mem: seq<Word>, before: seq<Word>, base: int, m: Image, f: Fixup, i: nat)
    requires |before| == |mem| && i < |mem| && f.Add? && Fits(|mem|, base, m, f)
    requires f.target.Imported? ==> before[Source(base, f.target)] == mem[Source(base, f.target)]
    ensures before[At(base, m, f) := Fixed(before, base, m, f)][i] == Wrap(before[i] + Term(mem, base, m, f, i))
  {
    SameAmount(mem, before, base, m, f);
    hide At, Source, SegAdr, Wrap, OnWord, Amount;
    if At(base, m, f) != i {
      WrapOfWord(before[i]);
    }
  }

  lemma WrapOfWord(x: Word)
    ensures Wrap(x as int) == x
  {
  }

  lemma TargetsStay(mem: seq<Word>, base: int, m: Image, fs: seq<Fixup>)
    requires fs != [] && Stable(base, m, fs) && forall f :: f in fs ==> Fits(|mem|, base, m, f)
    ensures forall g :: g in fs[..|fs| - 1] ==> Fits(|mem|, base, m, g)
    ensures var f := fs[|fs| - 1];
      f.Add? && f.target.Imported? ==>
        0 <= Source(base, f.target) < |mem| && Load(mem, base, m, fs[..|fs| - 1])[Source(base, f.target)] == mem[Source(base, f.target)]
  {
    hide At, Source, SegAdr, Fixed, OnWord;
    var init, f := fs[..|fs| - 1], fs[|fs| - 1];
    assert f in fs && forall g :: g in init ==> g in fs;
    if f.Add? && f.target.Imported? {
      Untouched(mem, seq(|mem|, k => 0), base, m, init, Source(base, f.target));
    }
  }

  lemma {:induction false} LoadIsSum(mem: seq<Word>, base: int, m: Image, fs: seq<Fixup>, i: nat)
    requires i < |mem| && Stable(base, m, fs) && forall f :: f in fs ==> f.Add? && Fits(|mem|, base, m, f)
    ensures Load(mem, base, m, fs)[i] == Wrap(mem[i] + Total(mem, base, m, fs, i))
    decreases |fs|
  {
    hide At, Source, Wrap, Fits, Fixed, Term;
    if fs != [] {
      var init, f := fs[..|fs| - 1], fs[|fs| - 1];
      assert f in fs && forall g :: g in init ==> g in fs;
      LoadIsSum(mem, base, m, init, i);
      if f.target.Imported? {
        TargetsStay(mem, base, m, fs);
      }
      AddsTerm(mem, Load(mem, base, m, init), base, m, f, i);
      WrapAdd(mem[i] + Total(mem, base, m, init, i), Term(mem, base, m, f, i));
    } else {
      WrapOfWord(mem[i]);
    }
  }

  lemma {:induction false} TotalWithout(mem: seq<Word>, base: int, m: Image, fs: seq<Fixup>, i: int, k: nat)
    requires k < |fs|
    ensures Total(mem, base, m, fs, i) == Total(mem, base, m, fs[..k] + fs[k + 1..], i) + Term(mem, base, m, fs[k], i)
    decreases |fs|
  {
    hide Term;
    var init, f := fs[..|fs| - 1], fs[|fs| - 1];
    if k == |init| {
      assert fs[..k] + fs[k + 1..] == init;
    } else {
      TotalWithout(mem, base, m, init, i, k);
      var rest := fs[..k] + fs[k + 1..];
      assert rest[..|rest| - 1] == init[..k] + init[k + 1..] && rest[|rest| - 1] == f && init[k] == fs[k];
    }
  }

  lemma BagWithout(gs: seq<Fixup>, k: nat)
    requires k < |gs|
    ensures multiset(gs[..k] + gs[k + 1..]) == multiset(gs) - multiset{gs[k]}
  {
    assert gs == gs[..k] + [gs[k]] + gs[k + 1..];
  }

  lemma {:induction false} TotalOfBag(mem: seq<Word>, base: int, m: Image, fs: seq<Fixup>, gs: seq<Fixup>, i: int)
    requires multiset(fs) == multiset(gs)
    ensures Total(mem, base, m, fs, i) == Total(mem, base, m, gs, i)
    decreases |fs|
  {
    hide Term;
    if fs == [] {
      assert |gs| == |multiset(gs)| == |multiset(fs)|;
    } else {
      var init, f := fs[..|fs| - 1], fs[|fs| - 1];
      assert fs == init + [f];
      assert f in multiset(fs);
      var k :| 0 <= k < |gs| && gs[k] == f;
      var rest := gs[..k] + gs[k + 1..];
      BagWithout(gs, k);
      TotalOfBag(mem, base, m, init, rest, i);
      TotalWithout(mem, base, m, gs, i, k);
    }
  }

  // Additive fixups may come in any order.
  lemma {:induction false} AnyOrder(mem: seq<Word>, base: int, m: Image, fs: seq<Fixup>, gs: seq<Fixup>)
    requires multiset(fs) == multiset(gs) && Stable(base, m, fs) && forall f :: f in fs ==> f.Add? && Fits(|mem|, base, m, f)
    ensures forall g :: g in gs ==> Fits(|mem|, base, m, g)
    ensures Load(mem, base, m, fs) == Load(mem, base, m, gs)
  {
    assert forall g :: g in gs ==> g in multiset(fs);
    assert forall g :: g in gs ==> g in fs;
    forall i: nat | i < |mem| ensures Load(mem, base, m, fs)[i] == Load(mem, base, m, gs)[i] {
      LoadIsSum(mem, base, m, fs, i);
      LoadIsSum(mem, base, m, gs, i);
      TotalOfBag(mem, base, m, fs, gs, i);
    }
  }
}
