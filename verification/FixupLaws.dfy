// What a fixup does, said of the layout of a module's arrays.
module FixupLaws {
  import opened Words
  import opened Heap
  import opened Loader
  import opened Relocation

  // Where a place of a segment is. Constants lie behind the `sb` bytes of variables and are
  // counted, as variables are, from there; an entry of the export table is five words, of which
  // the fourth is the address, a command is two, of which the second is.
  predicate Lies(m: Image, seg: Segment, offs: int, adr: int) {
    adr == (match seg
            case Code => m.code + offs
            case Const => m.data + m.sb + offs
            case Case => m.jumps + offs
            case Data => m.data + m.sb + offs
            case Export => m.exports + 4 * (5 * offs + 3)
            case Command => m.commands + 4 * (2 * offs + 1)
            case TypeDesc => m.tddata + offs
            case TDesc => m.tdescs + 4 * offs) % 0x1_0000_0000
  }

  predicate Alike(a: int, b: int) {
    (a - b) % 0x1_0000_0000 == 0
  }

  lemma WrapsAlike(x: int)
    ensures Alike(Wrap(x), x)
  {
    assert x == x / 0x1_0000_0000 * 0x1_0000_0000 + Wrap(x);
  }

  lemma SegAdrLies(m: Image, seg: Segment, offs: int)
    ensures Lies(m, seg, offs, SegAdr(m, seg, offs))
  {
  }

  // What becomes of a word: an absolute fixup adds an address to it, a relative one the distance
  // from the word after the next, and the third kind stores a block size.
  predicate Becomes(f: Fixup, at: int, target: int, before: int, after: int) {
    match f
    case Add(Abs, _, _, _) => Alike(after, before + target)
    case Add(Rel, _, _, _) => Alike(after, before + target - (at + 8))
    case Blk(_, _, size) => after % 16 == 0 && size + 4 <= after < size + 20
  }

  // The target is a place of the module, or what its exporter's entry says.
  predicate Aims(mem: seq<Word>, base: int, m: Image, t: Target, target: int, entry: int) {
    match t
    case Local(seg, offs) => Lies(m, seg, offs, target)
    case Imported(e, n) => Lies(e, Export, n, entry) && 0 <= entry - base < |mem| && target == mem[entry - base]
  }

  lemma FixedBecomes(mem: seq<Word>, base: int, m: Image, f: Fixup) returns (at: int, target: int, entry: int)
    requires Fits(|mem|, base, m, f)
    ensures Lies(m, f.seg, f.offs, at) && at == At(base, m, f) + base && 0 <= at - base < |mem|
    ensures f.Add? ==> Aims(mem, base, m, f.target, target, entry)
    ensures Becomes(f, at, target, mem[at - base], Fixed(mem, base, m, f))
  {
    hide SegAdr, Lies, Alike, AlignBlockSize;
    at, target, entry := SegAdr(m, f.seg, f.offs), 0, 0;
    SegAdrLies(m, f.seg, f.offs);
    if f.Add? {
      match f.target {
        case Local(seg, offs) =>
          target := SegAdr(m, seg, offs);
          SegAdrLies(m, seg, offs);
        case Imported(e, n) =>
          entry := SegAdr(e, Export, n);
          SegAdrLies(e, Export, n);
          target := mem[entry - base];
      }
      WrapsAlike(mem[at - base] + Amount(mem, base, m, f));
    }
  }

  // One word changes, in the way and by the amount asked for.
  method Fixes(h: Heap, m: Image, f: Fixup) returns (ghost at: int, ghost target: int, ghost entry: int)
    requires h.Valid() && Fits(h.mem.Length, h.base, m, f) && InData(h.blocks, At(h.base, m, f))
    modifies h.mem
    ensures h.Valid() && Lies(m, f.seg, f.offs, at) && 0 <= at - h.base < h.mem.Length
    ensures f.Add? ==> Aims(old(h.mem[..]), h.base, m, f.target, target, entry)
    ensures Becomes(f, at, target, old(h.mem[at - h.base]), h.mem[at - h.base])
    ensures forall i :: 0 <= i < h.mem.Length && i != at - h.base ==> h.mem[i] == old(h.mem[i])
  {
    hide Heap.Valid, InData, SegAdr, Lies, Aims, Becomes, Fixed;
    ghost var mem := h.mem[..];
    at, target, entry := FixedBecomes(mem, h.base, m, f);
    FixupSegment(h, m, f);
    assert forall i :: 0 <= i < h.mem.Length ==> h.mem[i] == h.mem[..][i] && mem[i] == old(h.mem[i]);
  }

  // Different entries of a table have different words for their addresses, and the addresses of
  // a table lie in its order.
  lemma EntriesApart(m: Image, seg: Segment, n: nat, n': nat, adr: int, adr': int)
    requires seg in {Export, Command, TDesc} && n < n' && Lies(m, seg, n, adr) && Lies(m, seg, n', adr')
    requires 0 <= m.exports <= TWO32 - 20 * (n' + 1) && 0 <= m.commands <= TWO32 - 8 * (n' + 1) && 0 <= m.tdescs <= TWO32 - 4 * (n' + 1)
    ensures adr + 4 * (n' - n) <= adr' && adr' + 4 <= TWO32
  {
  }
}
