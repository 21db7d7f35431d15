// The bootstrap heap: a bump allocator of tagged blocks, and the walk that reads the tags back.
module Heap {
  import opened Words

  const MARK := 1
  const SYST := 2
  const FREE := 4
  const ARAY := 8

  // Words are stored and read at multiples of four.
  predicate OnWord(off: int) {
    off % 4 == 0
  }

  // Room for the tag, rounded up to a multiple of the allocation unit.
  function AlignBlockSize(n: int): (r: int)
    ensures r % 16 == 0 && n + 4 <= r < n + 20
  {
    n + 4 + (-(n + 4)) % 16
  }

  predicate Flag(tag: int, bit: int)
    requires bit > 0
  {
    tag / bit % 2 == 1
  }

  // The flags are the low four bits of a tag; the rest, `x`, is a multiple of 16.
  lemma TagParts(x: nat, flags: nat)
    requires x % 16 == 0 && flags < 16
    ensures (x + flags) % 16 == flags
    ensures Flag(x + flags, SYST) == Flag(flags, SYST)
    ensures Flag(x + flags, FREE) == Flag(flags, FREE)
    ensures Flag(x + flags, ARAY) == Flag(flags, ARAY)
  {
    var q := x / 16;
    assert x == 16 * q;
    Halved(8 * q, flags);
    Quartered(4 * q, flags);
    Eighth(2 * q, flags);
  }

  lemma LowFour(x: int, r: int)
    requires x % 16 == 0 && 0 <= r < 16
    ensures (x + r) % 16 == r
  {
  }

  lemma Multiples(x: int, y: int, z: int)
    requires x % 16 == 0 && y % 16 == 0 && z % 16 == 0
    ensures (x + (y + z)) % 16 == 0 && (x - 4 + (y + 4 + z)) % 16 == 0
  {
    var a, b, c := x / 16, y / 16, z / 16;
    assert x + (y + z) == 16 * (a + b + c) == x - 4 + (y + 4 + z);
  }

  lemma Halved(k: nat, f: nat)
    requires k % 2 == 0
    ensures (2 * k + f) / 2 % 2 == f / 2 % 2
  {
    assert (2 * k + f) / 2 == k + f / 2;
  }

  lemma Quartered(k: nat, f: nat)
    requires k % 2 == 0
    ensures (4 * k + f) / 4 % 2 == f / 4 % 2
  {
    assert (4 * k + f) / 4 == k + f / 4;
  }

  lemma Eighth(k: nat, f: nat)
    requires k % 2 == 0
    ensures (8 * k + f) / 8 % 2 == f / 8 % 2
  {
    assert (8 * k + f) / 8 == k + f / 8;
  }

  lemma FlagTable()
    ensures Flag(MARK + SYST, SYST) && !Flag(MARK + ARAY, SYST) && Flag(MARK + ARAY, ARAY)
    ensures !Flag(MARK, SYST) && !Flag(MARK, ARAY) && !Flag(MARK, FREE)
  {
  }

  // A block and the descriptor its tag will name; `header` is the array header's size.
  datatype Kind = System | Array(header: nat) | Module(td: int)
  datatype Block = Block(off: nat, size: nat, kind: Kind)

  function End(b: Block): nat {
    b.off + b.size
  }

  // Naming a type descriptor for block `k` makes a record of it, unless it is an array.
  function Retyped(bs: seq<Block>, k: nat, td: int): seq<Block>
    requires k < |bs|
  {
    if bs[k].kind.Array? then bs else bs[k := Block(bs[k].off, bs[k].size, Module(td))]
  }

  function Flags(isArray: bool): int {
    if isArray then MARK + ARAY else MARK
  }

  // First byte that is the owner's to use.
  function DataAt(b: Block): nat {
    b.off + 4 + (if b.kind.Array? then b.kind.header else 0)
  }

  // The blocks follow one another from offset 0 to `curr`.
  ghost predicate Layout(bs: seq<Block>, curr: nat) {
    && (if bs == [] then curr == 0 else bs[0].off == 0 && curr == End(bs[|bs| - 1]))
    && (forall i, j :: 0 <= i < |bs| - 1 && j == i + 1 ==> bs[j].off == End(bs[i]))
    && (forall i :: 0 <= i < |bs| ==> bs[i].off % 16 == 0 && bs[i].size % 16 == 0 && 16 <= bs[i].size)
    && (forall i, j :: 0 <= i < j < |bs| ==> End(bs[i]) <= bs[j].off)
  }

  lemma LayoutEnds(bs: seq<Block>, curr: nat)
    requires Layout(bs, curr)
    ensures curr % 16 == 0 && forall i :: 0 <= i < |bs| ==> End(bs[i]) <= curr
  {
  }

  lemma LayoutAppend(bs: seq<Block>, curr: nat, b: Block)
    requires Layout(bs, curr) && b.off == curr && b.size % 16 == 0 && 16 <= b.size
    ensures Layout(bs + [b], End(b))
  {
    LayoutEnds(bs, curr);
  }

  lemma LayoutRetyped(bs: seq<Block>, curr: nat, k: nat, td: int)
    requires Layout(bs, curr) && k < |bs|
    ensures Layout(Retyped(bs, k, td), curr)
  {
    var bs' := Retyped(bs, k, td);
    assert forall i :: 0 <= i < |bs| ==> bs'[i].off == bs[i].off && End(bs'[i]) == End(bs[i]);
  }

  // The block after block `k`, or the free block.
  lemma LayoutNext(bs: seq<Block>, curr: nat, k: nat)
    requires Layout(bs, curr) && k < |bs|
    ensures End(bs[k]) == (if k + 1 < |bs| then bs[k + 1].off else curr) && 16 <= bs[k].size
    ensures bs[0].off == 0 && End(bs[k]) <= curr
  {
    LayoutEnds(bs, curr);
    assert k + 1 < |bs| ==> bs[k + 1].off == End(bs[k]);
  }

  function Used(bs: seq<Block>): nat {
    if bs == [] then 0 else Used(bs[..|bs| - 1]) + bs[|bs| - 1].size
  }

  // What is not free is in blocks: their sizes add up to the offset of the free block.
  lemma {:induction false} Conservation(bs: seq<Block>, curr: nat)
    requires Layout(bs, curr)
    ensures Used(bs) == curr
  {
    if bs != [] {
      var init := bs[..|bs| - 1];
      var before := bs[|bs| - 1].off;
      assert init != [] ==> End(init[|init| - 1]) == before;
      Conservation(init, before);
    }
  }

  // ---- What an allocation leaves in memory ---------------------------------------------

  // The three allocators: a system block, one for a module, and one for an array with the words
  // of its header between block size and bound.
  datatype Alloc =
    | SystemBlock(size: nat)
    | ModuleBlock(size: nat, td: int)
    | ArrayBlock(bytes: nat, bound: Word, header: nat, td: int, others: seq<Word>)
  {
    function Size(): nat {
      AlignBlockSize(if ArrayBlock? then bytes + header else size)
    }

    predicate Fine() {
      && (SystemBlock? || (0 <= td < TWO31 && td % 16 == 0))
      && (ArrayBlock? ==> bytes > 0 && header in {16, 32} && |others| == header / 4 - 3)
    }
  }

  function BlockOf(a: Alloc, curr: nat): Block {
    Block(curr, a.Size(), match a
                          case SystemBlock(_) => System
                          case ModuleBlock(_, td) => Module(td)
                          case ArrayBlock(_, _, header, _, _) => Array(header))
  }

  function PutAll(mem: seq<Word>, at: nat, ws: seq<Word>): (r: seq<Word>)
    requires at + 4 * |ws| <= |mem|
    ensures |r| == |mem|
  {
    if ws == [] then mem else PutAll(mem, at, ws[..|ws| - 1])[at + 4 * (|ws| - 1) := ws[|ws| - 1]]
  }

  lemma {:induction false} PutAllAt(mem: seq<Word>, at: nat, ws: seq<Word>)
    requires at + 4 * |ws| <= |mem|
    ensures forall k :: 0 <= k < |ws| ==> PutAll(mem, at, ws)[at + 4 * k] == ws[k]
    ensures forall i :: 0 <= i < |mem| && !(at <= i < at + 4 * |ws|) ==> PutAll(mem, at, ws)[i] == mem[i]
  {
    if ws != [] {
      PutAllAt(mem, at, ws[..|ws| - 1]);
    }
  }

  // Before the first allocation.
  function Empty(total: nat): (r: seq<Word>)
    requires total < TWO31
    ensures |r| == total + 8
  {
    seq(total + 8, i => 0)[0 := total + FREE]
  }

  // The free block, `size` bytes shorter.
  function Cut(mem: seq<Word>, total: nat, curr: nat, size: nat): (r: seq<Word>)
    requires curr + size <= total < TWO31 && |mem| == total + 8
    ensures |r| == |mem|
  {
    mem[curr + size := total - curr - size + FREE][curr + size + 4 := 0]
  }

  function Header(mem: seq<Word>, off: nat, a: Alloc): (r: seq<Word>)
    requires a.ArrayBlock? && a.Fine() && off + a.Size() <= |mem| < TWO31 + 8
    ensures |r| == |mem|
  {
    var sized := mem[off + 4 := a.Size()];
    PutAll(sized, off + 8, a.others)[off + a.header - 4 := a.bound][off + a.header := a.td + MARK + ARAY]
  }

  function Allocated(mem: seq<Word>, base: int, total: nat, curr: nat, a: Alloc): (r: seq<Word>)
    requires a.Fine() && curr + a.Size() <= total && |mem| == total + 8 && 0 < base && base + total + 8 < TWO31
    ensures |r| == |mem|
  {
    var cut := Cut(mem, total, curr, a.Size());
    match a
    case SystemBlock(_) => cut[curr := a.Size() + MARK + SYST]
    case ModuleBlock(_, td) => cut[curr := a.Size() + MARK + SYST][curr := td + MARK]
    case ArrayBlock(_, _, header, _, _) => Header(cut[curr := base + curr + 4 + header + MARK + ARAY], curr, a)
  }

  lemma ArrayAllocated(mem: seq<Word>, base: int, total: nat, curr: nat, bytes: nat, bound: Word, header: nat, td: int, others: seq<Word>)
    requires |mem| == total + 8 && 0 < base && base + total + 8 < TWO31 && 0 <= td < TWO31 && td % 16 == 0 && bytes > 0
    requires header in {16, 32} && |others| == header / 4 - 3 && curr + AlignBlockSize(bytes + header) <= total
    ensures var size := AlignBlockSize(bytes + header);
      var tagged := Cut(mem, total, curr, size)[curr := base + curr + 4 + header + MARK + ARAY];
      PutAll(tagged[curr + 4 := size], curr + 8, others)[curr + header - 4 := bound][curr + header := td + MARK + ARAY]
      == Allocated(mem, base, total, curr, ArrayBlock(bytes, bound, header, td, others))
  {
  }

  // The blocks in order, and the free block.
  ghost function VisitsOf(bs: seq<Block>, curr: nat, total: nat): seq<(int, int)> {
    seq(|bs|, i requires 0 <= i < |bs| => (bs[i].off as int, bs[i].size as int))
    + (if curr < total then [(curr as int, total - curr)] else [])
  }

  class Heap {
    const base: int                  // address of the heap, one word below a paragraph
    const total: nat                 // its size in bytes
    const mem: array<Word>           // the word at each (word-aligned) offset
    var curr: nat                    // offset of the free block
    ghost var blocks: seq<Block>     // the blocks allocated so far

    // The tag words of a block say what it is.
    ghost predicate TagOK(b: Block)
      reads mem
    {
      && End(b) <= mem.Length && 16 <= b.size
      && match b.kind
         case System => mem[b.off] == b.size + MARK + SYST
         case Array(h) =>
           && h in {16, 32} && h + 16 <= b.size
           && mem[b.off] == base + DataAt(b) + MARK + ARAY
           && mem[b.off + 4] == b.size
           && mem[b.off + h] % 16 == MARK + ARAY
         case Module(td) => 0 <= td && td % 16 == 0 && mem[b.off] == td + MARK
    }

    ghost predicate Tags(bs: seq<Block>)
      reads mem
    {
      forall i :: 0 <= i < |bs| ==> TagOK(bs[i])
    }

    ghost predicate Dims() {
      0 < base && base % 16 == 12 && total % 16 == 0 && base + total + 8 < TWO31 && mem.Length == total + 8
    }

    ghost predicate Valid()
      reads this, mem
    {
      && Dims() && Layout(blocks, curr) && Tags(blocks)
      && curr <= total && mem[curr] == total - curr + FREE && mem[curr + 4] == 0
    }

    // Type descriptors record the size of the module blocks they describe.
    ghost predicate Recorded(b: Block)
      reads mem
    {
      b.kind.Module? ==> base <= b.kind.td && b.kind.td - base + 16 < mem.Length
                         && mem[b.kind.td - base + 16] == b.size
    }

    lemma Tagged(k: nat)
      requires Valid() && k < |blocks|
      ensures var b := blocks[k];
        && TagOK(b) && End(b) <= curr && DataAt(b) + 12 <= End(b)
        && b.off % 16 == 0 && b.size % 16 == 0 && (base + DataAt(b)) % 16 == 0
    {
      hide AlignBlockSize;
      LayoutEnds(blocks, curr);
      var b := blocks[k];
      assert TagOK(b);
      DataAligned(b.off, if b.kind.Array? then b.kind.header else 0);
    }

    lemma DataAligned(off: nat, header: nat)
      requires Dims() && off % 16 == 0 && header in {0, 16, 32}
      ensures (base + (off + 4 + header)) % 16 == 0
    {
      Multiples(base + 4, off, header);
    }

    // What the walk's tests make of the tag of block `k`, or of the free block.
    lemma TagOf(k: nat)
      requires Valid() && k <= |blocks|
      ensures k < |blocks| ==> TagOK(blocks[k])
      ensures var tag: int := mem[if k < |blocks| then blocks[k].off else curr];
        if k == |blocks| then tag - tag % 16 == total - curr && !Flag(tag, SYST) && !Flag(tag, ARAY) && Flag(tag, FREE)
        else match blocks[k].kind
             case System => tag - tag % 16 == blocks[k].size && Flag(tag, SYST)
             case Array(h) => tag - tag % 16 == base + DataAt(blocks[k]) && !Flag(tag, SYST) && Flag(tag, ARAY)
             case Module(td) => tag - tag % 16 == td && !Flag(tag, SYST) && !Flag(tag, ARAY) && !Flag(tag, FREE)
    {
      hide Layout, Tags;
      LayoutEnds(blocks, curr);
      if k == |blocks| {
        TagParts(total - curr, FREE);
      } else {
        Tagged(k);
        hide Flag;
        match blocks[k].kind
        case System => TagParts(blocks[k].size, MARK + SYST); assert Flag(3, 2) by { FlagTable(); }
        case Array(h) => TagParts(base + DataAt(blocks[k]), MARK + ARAY); FlagTable();
        case Module(td) => TagParts(td, MARK); FlagTable();
      }
    }

    constructor (base: int, total: nat)
      requires 0 < base && base % 16 == 12 && total % 16 == 0 && base + total + 8 < TWO31
      ensures Valid() && blocks == [] && curr == 0 && fresh(mem) && this.base == base && this.total == total
      ensures mem[..] == Empty(total) && mem[0] == total + 4
    {
      this.base, this.total, curr, blocks := base, total, 0, [];
      mem := new Word[total + 8](i => 0);
      new;
      mem[0] := total + FREE;
    }

    // Cut `size` bytes off the free block, and retag what remains.
    method GetHeapBlock(size: nat) returns (off: nat)
      requires Valid() && size % 16 == 0 && curr + size <= total
      modifies this`curr, mem
      ensures off == old(curr) && curr == off + size
      ensures mem[curr] == total - curr + FREE && mem[curr + 4] == 0
      ensures forall i :: 0 <= i < mem.Length && i != curr && i != curr + 4 ==> mem[i] == old(mem[i])
      ensures mem[..] == Cut(old(mem[..]), total, off, size)
    {
      off := curr;
      curr := curr + size;
      mem[curr] := total - curr + FREE;
      mem[curr + 4] := 0;
    }

    // Writes at or above the old end of the blocks leave their tags alone.
    twostate lemma TagsKept(end: nat)
      requires old(Tags(blocks)) && blocks == old(blocks)
      requires forall i :: 0 <= i < |blocks| ==> End(blocks[i]) <= end
      requires forall i :: 0 <= i < end && i < mem.Length ==> mem[i] == old(mem[i])
      ensures Tags(blocks)
    {
      forall i | 0 <= i < |blocks| ensures TagOK(blocks[i]) {
        assert old(TagOK(blocks[i]));
      }
    }

    // The new block `b`, whose tags are in place, joins the others.
    ghost method Append(b: Block)
      requires Dims() && Layout(blocks, b.off) && Tags(blocks) && TagOK(b) && b.size % 16 == 0
      requires curr == End(b) <= total && mem[curr] == total - curr + FREE && mem[curr + 4] == 0
      modifies this`blocks
      ensures Valid() && blocks == old(blocks) + [b]
    {
      LayoutAppend(blocks, b.off, b);
      blocks := blocks + [b];
    }

    method SystemNew(size: nat) returns (adr: int)
      requires Valid() && curr + AlignBlockSize(size) <= total
      modifies this, mem
      ensures Valid() && blocks == old(blocks) + [Block(old(curr), AlignBlockSize(size), System)]
      ensures adr == base + old(curr) + 4 && adr % 16 == 0
      ensures forall i :: 0 <= i < old(curr) ==> mem[i] == old(mem[i])
      ensures curr == old(curr) + AlignBlockSize(size)
      ensures mem[..] == Allocated(old(mem[..]), base, total, old(curr), SystemBlock(size))
      ensures mem[old(curr)] == AlignBlockSize(size) + 3
    {
      hide Layout, Tags, AlignBlockSize, Cut;
      LayoutEnds(blocks, curr);
      var blockSize := AlignBlockSize(size);
      var off := GetHeapBlock(blockSize);
      mem[off] := blockSize + MARK + SYST;
      TagsKept(off);
      adr := base + off + 4;
      DataAligned(off, 0);
      Append(Block(off, blockSize, System));
    }

    // An array block: its tag names the address of its data.
    method NewArray(size: nat, header: nat) returns (off: nat, blockSize: nat)
      requires Valid() && curr + AlignBlockSize(size) <= total && header in {16, 32} && header < size
      modifies this`curr, mem
      ensures Dims() && Layout(blocks, off) && Tags(blocks) && off == old(curr) && blockSize == AlignBlockSize(size)
      ensures blockSize % 16 == 0
      ensures curr == off + blockSize <= total && curr + 8 <= mem.Length
      ensures mem[curr] == total - curr + FREE && mem[curr + 4] == 0
      ensures mem[off] == base + off + 4 + header + MARK + ARAY && header + 16 <= blockSize
      ensures forall i :: 0 <= i < off ==> mem[i] == old(mem[i])
      ensures mem[..] == Cut(old(mem[..]), total, off, blockSize)[off := base + off + 4 + header + MARK + ARAY]
    {
      hide Layout, Tags;
      LayoutEnds(blocks, curr);
      blockSize := AlignBlockSize(size);
      off := GetHeapBlock(blockSize);
      mem[off] := base + off + 4 + header + MARK + ARAY;
      TagsKept(off);
    }

    method PutWords(at: nat, ws: seq<Word>)
      requires at + 4 * |ws| <= mem.Length
      modifies mem
      ensures forall i :: 0 <= i < mem.Length && !(at <= i < at + 4 * |ws|) ==> mem[i] == old(mem[i])
      ensures mem[..] == PutAll(old(mem[..]), at, ws)
    {
      for k := 0 to |ws|
        invariant forall i :: 0 <= i < mem.Length && !(at <= i < at + 4 * |ws|) ==> mem[i] == old(mem[i])
        invariant mem[..] == PutAll(old(mem[..]), at, ws[..k])
      {
        mem[at + 4 * k] := ws[k];
        assert ws[..k + 1][..k] == ws[..k];
      }
      assert ws[..|ws|] == ws;
    }

    // An array block of `bytes` bytes of data; `others` are the header words between the
    // block size and the bound.
    method FillArray(bytes: nat, bound: Word, header: nat, td: int, others: seq<Word>) returns (adr: int)
      requires Valid() && 0 <= td < TWO31 && td % 16 == 0 && header in {16, 32} && |others| == header / 4 - 3
      requires bytes > 0 && curr + AlignBlockSize(bytes + header) <= total
      modifies this, mem
      ensures Valid() && adr == base + old(curr) + 4 + header && adr % 16 == 0
      ensures blocks == old(blocks) + [Block(old(curr), AlignBlockSize(bytes + header), Array(header))]
      ensures forall i :: 0 <= i < old(curr) ==> mem[i] == old(mem[i])
      ensures curr == old(curr) + AlignBlockSize(bytes + header)
      ensures mem[..] == Allocated(old(mem[..]), base, total, old(curr), ArrayBlock(bytes, bound, header, td, others))
      ensures HeaderIs(old(curr), AlignBlockSize(bytes + header), bound, header, td, others)
    {
      hide Layout, Tags, TagOK, AlignBlockSize, DataAt, Cut, PutAll, Allocated, HeaderIs;
      ghost var was := mem[..];
      ArrayAllocated(was, base, total, curr, bytes, bound, header, td, others);
      var off, blockSize := NewArray(bytes + header, header);
      LayoutEnds(blocks, off);
      label start:
      PutHeader(off, header, blockSize, bound, td + MARK + ARAY, others);
      TagsKept@start(off);
      ArrayTagged(off, blockSize, header, td);
      adr := base + off + 4 + header;
      Append(Block(off, blockSize, Array(header)));
      HeaderSet(off, blockSize, bound, header, td, others);
    }

    lemma HeaderSet(off: nat, size: nat, bound: Word, header: nat, td: int, others: seq<Word>)
      requires header in {16, 32} && |others| == header / 4 - 3 && off + header < mem.Length
      requires mem[off + 4] == size && mem[off + header - 4] == bound && mem[off + header] == td + MARK + ARAY
      requires forall k :: 0 <= k < |others| ==> mem[off + 8 + 4 * k] == others[k]
      ensures HeaderIs(off, size, bound, header, td, others)
    {
    }

    // The words before an array's data, one by one.
    ghost predicate HeaderIs(off: nat, size: nat, bound: Word, header: nat, td: int, others: seq<Word>)
      requires header in {16, 32} && |others| == header / 4 - 3
      reads mem
    {
      && off + header < mem.Length && mem[off + 4] == size && mem[off + header - 4] == bound && mem[off + header] == td + 9
      && forall k :: 0 <= k < |others| ==> mem[off + 8 + 4 * k] == others[k]
    }

    // A block with an array's tag and header.
    lemma ArrayTagged(off: nat, size: nat, header: nat, td: int)
      requires Dims() && off % 16 == 0 && header in {16, 32} && header + 16 <= size && off + size <= mem.Length
      requires td % 16 == 0 && mem[off] == base + off + 4 + header + MARK + ARAY && mem[off + 4] == size
      requires mem[off + header] == td + MARK + ARAY
      ensures TagOK(Block(off, size, Array(header))) && (base + off + 4 + header) % 16 == 0
    {
      LowFour(td, MARK + ARAY);
      DataAligned(off, header);
      assert base + (off + 4 + header) == base + off + 4 + header;
    }

    // The header between the block's tag and its data.
    method PutHeader(off: nat, header: nat, blockSize: Word, bound: Word, td: Word, others: seq<Word>)
      requires header in {16, 32} && |others| == header / 4 - 3 && off + header < mem.Length
      modifies mem
      ensures mem[off + 4] == blockSize && mem[off + header] == td
      ensures mem[..] == PutAll(old(mem[..])[off + 4 := blockSize], off + 8, others)[off + header - 4 := bound][off + header := td]
      ensures forall i :: 0 <= i < mem.Length && !(off < i <= off + header) ==> mem[i] == old(mem[i])
      ensures mem[off + header - 4] == bound && forall k :: 0 <= k < |others| ==> mem[off + 8 + 4 * k] == others[k]
    {
      mem[off + 4] := blockSize;
      ghost var was := mem[..];
      PutWords(off + 8, others);
      PutAllAt(was, off + 8, others);
      hide PutAll;
      assert forall k :: 0 <= k < |others| ==> mem[..][off + 8 + 4 * k] == others[k];
      mem[off + header - 4] := bound;
      mem[off + header] := td;
    }

    // Open arrays of simple elements, records and pointers; NIL for none, and then nothing changes.
    // What lies below the new block stays.
    method NewSimpleElemArray(n: nat, elemSize: nat, td: int) returns (adr: int)
      requires Valid() && 0 <= td < TWO31 && td % 16 == 0 && n < TWO32
      requires n * elemSize != 0 ==> curr + AlignBlockSize(n * elemSize + 16) <= total
      modifies this, mem
      ensures Valid() && forall i :: 0 <= i < old(curr) ==> mem[i] == old(mem[i])
      ensures n * elemSize == 0 ==> adr == 0 && blocks == old(blocks) && curr == old(curr) && mem[..] == old(mem[..])
      ensures n * elemSize != 0 ==>
        var off, size := old(curr), AlignBlockSize(n * elemSize + 16);
        && adr == base + off + 20 && adr % 16 == 0 && blocks == old(blocks) + [Block(off, size, Array(16))] && curr == off + size
        && mem[off] == adr + 9 && mem[off + 4] == size && mem[off + 12] == n && mem[off + 16] == td + 9
    {
      hide Layout, Tags, AlignBlockSize;
      if n * elemSize != 0 {
        ghost var off := curr;
        adr := FillArray(n * elemSize, n, 16, td, [0xdeadbeef]);
        TagIs(off, AlignBlockSize(n * elemSize + 16), 16);
      } else {
        adr := 0;
      }
    }

    method NewRecordElemArray(n: nat, elemSize: nat, td: int) returns (adr: int)
      requires Valid() && 0 <= td < TWO31 && td % 16 == 0 && n < TWO32
      requires n * elemSize != 0 ==> curr + AlignBlockSize(n * elemSize + 32) <= total
      modifies this, mem
      ensures Valid() && forall i :: 0 <= i < old(curr) ==> mem[i] == old(mem[i])
      ensures n * elemSize == 0 ==> adr == 0 && blocks == old(blocks) && curr == old(curr) && mem[..] == old(mem[..])
      ensures n * elemSize != 0 ==>
        var off, size := old(curr), AlignBlockSize(n * elemSize + 32);
        && adr == base + off + 36 && adr % 16 == 0 && blocks == old(blocks) + [Block(off, size, Array(32))] && curr == off + size
        && mem[off] == adr + 9 && mem[off + 4] == size && mem[off + 8] == n == mem[off + 28]
        && mem[off + 12] == mem[off + 16] == 0 && mem[off + 32] == td + 9
    {
      hide Layout, Tags, AlignBlockSize;
      if n * elemSize != 0 {
        ghost var off, others: seq<Word> := curr, [n, 0, 0, 0xdeadbeef, 0xdeadbeef];
        adr := FillArray(n * elemSize, n, 32, td, [n, 0, 0, 0xdeadbeef, 0xdeadbeef]);
        TagIs(off, AlignBlockSize(n * elemSize + 32), 32);
        assert mem[off + 8 + 4 * 0] == others[0] && mem[off + 8 + 4 * 1] == others[1] && mem[off + 8 + 4 * 2] == others[2];
      } else {
        adr := 0;
      }
    }

    method NewPointerElemArray(n: nat, td: int) returns (adr: int)
      requires Valid() && 0 <= td < TWO31 && td % 16 == 0 && n < TWO32
      requires n != 0 ==> curr + AlignBlockSize(n * 4 + 32) <= total
      modifies this, mem
      ensures Valid() && forall i :: 0 <= i < old(curr) ==> mem[i] == old(mem[i])
      ensures n == 0 ==> adr == 0 && blocks == old(blocks) && curr == old(curr) && mem[..] == old(mem[..])
      ensures n != 0 ==>
        var off, size := old(curr), AlignBlockSize(n * 4 + 32);
        && adr == base + off + 36 && adr % 16 == 0 && blocks == old(blocks) + [Block(off, size, Array(32))] && curr == off + size
        && mem[off] == adr + 9 && mem[off + 4] == size && mem[off + 8] == n == mem[off + 28]
        && mem[off + 12] == 0 && mem[off + 32] == td + 9
    {
      hide Layout, Tags, AlignBlockSize;
      if n != 0 {
        ghost var off, others: seq<Word> := curr, [n, 0, 0xdeadbeef, 0xdeadbeef, 0xdeadbeef];
        adr := FillArray(n * 4, n, 32, td, [n, 0, 0xdeadbeef, 0xdeadbeef, 0xdeadbeef]);
        TagIs(off, AlignBlockSize(n * 4 + 32), 32);
        assert mem[off + 8 + 4 * 0] == others[0] && mem[off + 8 + 4 * 1] == others[1];
      } else {
        adr := 0;
      }
    }

    // The tag of the last block, an array.
    lemma TagIs(off: nat, size: nat, header: nat)
      requires Valid() && blocks != [] && blocks[|blocks| - 1] == Block(off, size, Array(header))
      ensures off < mem.Length && mem[off] == base + off + 4 + header + 9
    {
      assert TagOK(blocks[|blocks| - 1]);
    }

    // The words that belong to no tag: here the owner of block `k` may write.
    method Store(off: nat, v: Word, ghost k: nat)
      requires Valid() && k < |blocks| && DataAt(blocks[k]) <= off < End(blocks[k]) && OnWord(off)
      modifies mem
      ensures Valid() && blocks == old(blocks) && mem[off] == v
      ensures forall i :: 0 <= i < mem.Length && i != off ==> mem[i] == old(mem[i])
    {
      LayoutEnds(blocks, curr);
      mem[off] := v;
      forall i | 0 <= i < |blocks| ensures TagOK(blocks[i]) {
        assert old(TagOK(blocks[i]));
      }
    }

    // The type descriptor that the word before the data of block `b` names.
    ghost function TdOf(b: Block): int
      requires DataAt(b) - 4 < mem.Length
      reads mem
    {
      mem[DataAt(b) - 4] - Flags(b.kind.Array?)
    }

    // A block whose words are as they were has its tags.
    twostate lemma TagKept(b: Block)
      requires old(TagOK(b))
      requires forall i :: b.off <= i < End(b) ==> mem[i] == old(mem[i])
      ensures TagOK(b)
    {
    }

    // The block itself, with the word rewritten that names its type descriptor.
    twostate lemma RetaggedSelf(b: Block)
      requires old(TagOK(b)) && Dims() && End(b) <= total
      requires 0 <= TdOf(b) < TWO31 && TdOf(b) % 16 == 0
      requires forall i :: b.off <= i < End(b) && i != DataAt(b) - 4 ==> mem[i] == old(mem[i])
      ensures TagOK(if b.kind.Array? then b else Block(b.off, b.size, Module(TdOf(b))))
    {
      assert mem[DataAt(b) - 4] == TdOf(b) + Flags(b.kind.Array?);
      if b.kind.Array? {
        LowFour(TdOf(b), MARK + ARAY);
      }
    }

    // The one word rewritten is the one that names block `k`'s type descriptor.
    twostate lemma Retagged(k: nat)
      requires old(Tags(blocks)) && Dims() && Layout(blocks, curr) && curr <= total && blocks == old(blocks) && k < |blocks|
      requires DataAt(blocks[k]) - 4 < mem.Length
      requires 0 <= TdOf(blocks[k]) < TWO31 && TdOf(blocks[k]) % 16 == 0
      requires forall i :: 0 <= i < mem.Length && i != DataAt(blocks[k]) - 4 ==> mem[i] == old(mem[i])
      ensures Tags(Retyped(blocks, k, TdOf(blocks[k])))
    {
      LayoutEnds(blocks, curr);
      var bs := Retyped(blocks, k, TdOf(blocks[k]));
      assert old(TagOK(blocks[k]));
      assert DataAt(blocks[k]) - 4 < End(blocks[k]);
      hide TagOK, TdOf;
      forall i | 0 <= i < |bs| ensures TagOK(bs[i]) {
        assert old(TagOK(blocks[i]));
        if i == k {
          RetaggedSelf(blocks[k]);
        } else {
          assert if i < k then End(blocks[i]) <= blocks[k].off else End(blocks[k]) <= blocks[i].off;
          TagKept(blocks[i]);
        }
      }
    }

    // Name the type descriptor of the block at `p`: in an array's header, or, for a module,
    // in the block tag itself, which stops saying how large the block is.
    method FixupTd(p: int, td: int, isArray: bool, ghost k: nat)
      requires Valid() && 0 <= td < TWO31 && td % 16 == 0
      requires p != 0 ==> k < |blocks| && p == base + DataAt(blocks[k]) && isArray == blocks[k].kind.Array?
      modifies this`blocks, mem
      ensures Valid()
      ensures blocks == if p == 0 then old(blocks) else Retyped(old(blocks), k, td)
      ensures p != 0 ==> mem[p - base - 4] == td + Flags(isArray)
      ensures forall i :: 0 <= i < mem.Length && i != p - base - 4 ==> mem[i] == old(mem[i])
      ensures mem[..] == if p == 0 then old(mem[..]) else old(mem[..])[p - base - 4 := td + Flags(isArray)]
    {
      hide Layout, Tags;
      if p != 0 {
        Tagged(k);
        mem[p - base - 4] := td + Flags(isArray);
        assert TdOf(blocks[k]) == td;
        Retagged(k);
        LayoutRetyped(blocks, curr, k, td);
        blocks := Retyped(blocks, k, td);
      }
    }

    method NewModule(td: int, size: nat) returns (adr: int)
      requires Valid() && curr + AlignBlockSize(size) <= total && 0 <= td < TWO31 && td % 16 == 0
      modifies this, mem
      ensures Valid() && blocks == old(blocks) + [Block(old(curr), AlignBlockSize(size), Module(td))]
      ensures adr == base + old(curr) + 4 && curr == old(curr) + AlignBlockSize(size)
      ensures mem[..] == Allocated(old(mem[..]), base, total, old(curr), ModuleBlock(size, td))
      ensures mem[old(curr)] == td + 1 && forall i :: 0 <= i < old(curr) ==> mem[i] == old(mem[i])
    {
      hide AlignBlockSize, Layout, Tags;
      adr := SystemNew(size);
      ghost var k := |old(blocks)|;
      FixupTd(adr, td, false, k);
      assert blocks == old(blocks) + [Block(old(curr), AlignBlockSize(size), Module(td))];
    }

    // Any of the allocators.
    method Allocate(a: Alloc) returns (adr: int)
      requires Valid() && a.Fine() && curr + a.Size() <= total
      modifies this, mem
      ensures Valid() && blocks == old(blocks) + [BlockOf(a, old(curr))] && curr == old(curr) + a.Size()
      ensures adr == base + DataAt(BlockOf(a, old(curr)))
      ensures mem[..] == Allocated(old(mem[..]), base, total, old(curr), a)
      ensures forall i :: 0 <= i < old(curr) ==> mem[i] == old(mem[i])
    {
      hide Valid, Allocated, AlignBlockSize;
      match a {
        case SystemBlock(size) => adr := SystemNew(size);
        case ModuleBlock(size, td) => adr := NewModule(td, size);
        case ArrayBlock(bytes, bound, header, td, others) => adr := FillArray(bytes, bound, header, td, others);
      }
    }

    ghost function Visits(): seq<(int, int)>
      reads this
    {
      VisitsOf(blocks, curr, total)
    }

    // The size the tag at `hb` leads to, by the walk's own tests.
    method SizeAt(hb: nat, ghost k: nat) returns (size: nat)
      requires Valid() && k <= |blocks| && hb == (if k < |blocks| then blocks[k].off else curr) && hb < total
      requires k < |blocks| ==> Recorded(blocks[k])
      ensures size == if k < |blocks| then blocks[k].size else total - curr
    {
      hide Layout, Tags, Flag;
      TagOf(k);
      var tag: int := mem[hb];
      if Flag(tag, SYST) {
        size := tag - tag % 16;
      } else if Flag(tag, ARAY) {
        size := mem[hb + 4];
      } else if Flag(tag, FREE) {
        size := tag - tag % 16;
      } else {
        size := mem[tag - tag % 16 - base + 16];
      }
    }

    // Walk the heap by its tags, collecting where each block is and how large.
    method Walk() returns (vs: seq<(int, int)>)
      requires Valid() && forall i :: 0 <= i < |blocks| ==> Recorded(blocks[i])
      ensures vs == Visits()
    {
      hide Layout, TagOK, Recorded;
      LayoutEnds(blocks, curr);
      vs := [];
      var hb := 0;
      ghost var k := 0;
      if blocks != [] { LayoutNext(blocks, curr, 0); } else { LayoutNone(curr); }
      while hb < total
        invariant k <= |Visits()| && vs == Visits()[..k] && 0 <= hb <= total
        invariant hb == if k < |blocks| then blocks[k].off else if k == |blocks| then curr else total
        decreases total - hb
      {
        var size := SizeAt(hb, k);
        if k < |blocks| { LayoutNext(blocks, curr, k); }
        vs := vs + [(hb, size)];
        hb := hb + size;
        k := k + 1;
      }
      if k < |blocks| { LayoutNext(blocks, curr, k); }
    }

    lemma LayoutNone(curr: nat)
      requires Layout(blocks, curr) && blocks == []
      ensures curr == 0
    {
    }
  }
}
