// What a buffered file means, without its pointers: the pages its buffers hold, the
// bytes on disk, and the invariant that ties both to a flat byte array.
module FileImage {
  import opened Words
  import opened FileDir

  const PAGE_SIZE := 4096
  const MAX_BUFS := 4

  // A buffer's fields; an image is the ring of buffers plus the disk (None: not created yet).
  datatype Page = Page(at: nat, lim: nat, mod: bool, data: seq<Byte>)
  datatype Image = Image(pages: seq<Page>, disk: Option<seq<Byte>>)

  // Number of bytes of the page at `at` that lie in a file of `len` bytes.
  function Lim(len: nat, at: nat): nat {
    if len <= at then 0 else if len - at < PAGE_SIZE then len - at else PAGE_SIZE
  }

  // A flat byte array with `x` written over position `pos`.
  function FlatPut(s: seq<Byte>, pos: nat, x: seq<Byte>): (r: seq<Byte>)
    requires pos <= |s|
    ensures |r| == if |s| < pos + |x| then pos + |x| else |s|
    ensures forall k :: pos <= k < pos + |x| ==> r[k] == x[k - pos]
    ensures forall k :: 0 <= k < |s| && !(pos <= k < pos + |x|) ==> r[k] == s[k]
  {
    s[..pos] + x + (if pos + |x| < |s| then s[pos + |x|..] else [])
  }

  predicate Dirty(im: Image, q: nat) {
    exists i :: 0 <= i < |im.pages| && im.pages[i].at == q && im.pages[i].mod
  }

  // The part of page `q` that lies in the file is on disk.
  predicate OnDisk(disk: seq<Byte>, c: seq<Byte>, q: nat) {
    var n := Lim(|c|, q);
    n > 0 ==> q + n <= |disk| && forall k :: q <= k < q + n ==> disk[k] == c[k]
  }

  predicate PageOK(p: Page, c: seq<Byte>) {
    p.lim == Lim(|c|, p.at) && p.lim <= |p.data|
    && forall k :: 0 <= k < p.lim ==> p.data[k] == c[p.at + k]
  }

  // The pages themselves: aligned, distinct, and no page past the end unless the
  // buffers are still those of a new file.
  predicate Layout(ps: seq<Page>, len: nat) {
    && 1 <= |ps| <= MAX_BUFS
    && (forall i :: 0 <= i < |ps| ==> ps[i].at % PAGE_SIZE == 0 && |ps[i].data| == PAGE_SIZE)
    && (forall i, j :: 0 <= i < j < |ps| ==> ps[i].at != ps[j].at)
    && (forall i :: 0 <= i < |ps| ==> ps[i].at <= len || (AllNew(ps) && ps[i].at < MAX_BUFS * PAGE_SIZE))
  }

  function PageSet(ps: seq<Page>): set<nat> {
    set i | 0 <= i < |ps| :: ps[i].at
  }

  predicate Held(ps: seq<Page>, q: nat) {
    q in PageSet(ps)
  }

  // Pages 0 to 3 are all buffered, as they are in a new file.
  predicate AllNew(ps: seq<Page>) {
    forall n :: 0 <= n < MAX_BUFS ==> Held(ps, n * PAGE_SIZE)
  }

  predicate Uncreated(im: Image, c: seq<Byte>, hole: int) {
    && |im.pages| == MAX_BUFS && |c| <= MAX_BUFS * PAGE_SIZE
    && (forall i :: 0 <= i < |im.pages| ==> im.pages[i].at == i * PAGE_SIZE)
    && (forall i :: 0 <= i < |im.pages| && i != hole && im.pages[i].lim > 0 ==> im.pages[i].mod)
  }

  ghost predicate Stored(im: Image, c: seq<Byte>, hole: int)
    requires im.disk.Some?
  {
    && |im.disk.value| <= |c|
    && forall q: nat | q % PAGE_SIZE == 0 ::
         (0 <= hole < |im.pages| && q == im.pages[hole].at) || Dirty(im, q) || OnDisk(im.disk.value, c, q)
  }

  // The invariant: the image stands for the flat array `c`, except that the buffer at
  // index `hole` need not yet hold the bytes of its page.
  ghost predicate Good(im: Image, c: seq<Byte>, hole: int) {
    && Layout(im.pages, |c|)
    && (forall i :: 0 <= i < |im.pages| && i != hole ==> PageOK(im.pages[i], c))
    && (if im.disk.None? then Uncreated(im, c, hole) else Stored(im, c, hole))
  }

  // A new file: four empty buffers, nothing on disk.
  lemma NewGood(im: Image)
    requires im.disk.None? && |im.pages| == MAX_BUFS
    requires forall i :: 0 <= i < |im.pages| ==>
               im.pages[i].at == i * PAGE_SIZE && im.pages[i].lim == 0 && |im.pages[i].data| == PAGE_SIZE
    ensures Good(im, [], -1)
  {
    assert AllNew(im.pages) by {
      forall n | 0 <= n < MAX_BUFS ensures Held(im.pages, n * PAGE_SIZE) {
        assert im.pages[n].at == n * PAGE_SIZE;
      }
    }
  }

  // A file just opened: one clean buffer with the first page.
  lemma OldGood(im: Image, c: seq<Byte>)
    requires im.disk == Some(c) && |im.pages| == 1 && !im.pages[0].mod
    requires im.pages[0].at == 0 && |im.pages[0].data| == PAGE_SIZE
    requires im.pages[0].lim == Available(c, 0, PAGE_SIZE)
    requires forall i :: 0 <= i < im.pages[0].lim ==> im.pages[0].data[i] == c[i]
    ensures Good(im, c, -1)
  {
    forall q: nat | q % PAGE_SIZE == 0 ensures OnDisk(c, c, q) {}
  }

  // ---- The steps a file takes, on images ------------------------------------------

  function Flush(im: Image, k: nat): Image
    requires k < |im.pages| && im.disk.Some? && im.pages[k].lim <= |im.pages[k].data|
  {
    var p := im.pages[k];
    Image(im.pages[k := p.(mod := false)], Some(Overwrite(im.disk.value, p.at, p.data[..p.lim])))
  }

  lemma FlushGood(im: Image, c: seq<Byte>, k: nat)
    requires Good(im, c, -1) && k < |im.pages| && im.disk.Some?
    ensures Good(Flush(im, k), c, -1) && OnDisk(Flush(im, k).disk.value, c, im.pages[k].at)
    ensures PageSet(Flush(im, k).pages) == PageSet(im.pages)
  {
    var p, im' := im.pages[k], Flush(im, k);
    assert PageOK(p, c);
    Relaid(im.pages, im'.pages, |c|, |c|);
    SamePages(im.pages, im'.pages);
    hide Layout, PageSet;
    forall q: nat | q % PAGE_SIZE == 0
      ensures Dirty(im', q) || OnDisk(im'.disk.value, c, q)
    {
      if q != p.at {
        if Dirty(im, q) {
          var i :| 0 <= i < |im.pages| && im.pages[i].at == q && im.pages[i].mod;
          assert im'.pages[i].at == q && im'.pages[i].mod;
        } else {
          assert OnDisk(im.disk.value, c, q);
        }
      }
    }
  }

  // Buffer `k` now holds page `at`, with `data`, as read from disk.
  function Load(im: Image, k: nat, at: nat, data: seq<Byte>): Image
    requires k < |im.pages| && im.disk.Some?
  {
    im.(pages := im.pages[k := Page(at, Available(im.disk.value, at, PAGE_SIZE), false, data)])
  }

  // Buffer `k`'s own page is no longer needed: it is on disk and another page is wanted.
  ghost predicate Free(im: Image, c: seq<Byte>, k: nat, at: nat)
    requires k < |im.pages| && im.disk.Some?
  {
    && at % PAGE_SIZE == 0 && at <= |c| && OnDisk(im.disk.value, c, im.pages[k].at)
    && !Held(im.pages, at)
  }

  lemma AllWithin(im: Image, c: seq<Byte>, hole: int, at: nat)
    requires Good(im, c, hole) && !Held(im.pages, at) && at % PAGE_SIZE == 0 && at <= |c|
    ensures forall i :: 0 <= i < |im.pages| ==> im.pages[i].at <= |c|
  {
    var n := at / PAGE_SIZE;
    assert at == n * PAGE_SIZE && !Held(im.pages, n * PAGE_SIZE);
  }

  lemma LoadGood(im: Image, c: seq<Byte>, k: nat, at: nat, data: seq<Byte>)
    requires k < |im.pages| && im.disk.Some? && |data| == PAGE_SIZE
    requires Good(im, c, -1) && Free(im, c, k, at)
    requires forall i :: 0 <= i < Available(im.disk.value, at, PAGE_SIZE) ==> data[i] == im.disk.value[at + i]
    ensures Good(Load(im, k, at, data), c, -1)
  {
    var im', d := Load(im, k, at, data), im.disk.value;
    AllWithin(im, c, -1, at);
    assert OnDisk(d, c, at) by {
      assert Dirty(im, at) ==> Held(im.pages, at);
    }
    forall q: nat | q % PAGE_SIZE == 0
      ensures Dirty(im', q) || OnDisk(d, c, q)
    {
      if Dirty(im, q) && q != im.pages[k].at {
        var i :| 0 <= i < |im.pages| && im.pages[i].at == q && im.pages[i].mod;
        assert im'.pages[i].at == q && im'.pages[i].mod;
      }
    }
  }

  // The data of buffer `k` after `x` is stored at offset `ofs`, the file growing if it must.
  function Put(im: Image, c: seq<Byte>, k: nat, at: nat, data: seq<Byte>, ofs: nat, x: seq<Byte>): Image
    requires k < |im.pages| && ofs + |x| <= |data|
  {
    var len := if |c| < at + ofs + |x| then at + ofs + |x| else |c|;
    im.(pages := im.pages[k := Page(at, Lim(len, at), true, FlatPut(data, ofs, x))])
  }

  // Storing into the page buffer `k` already holds.
  lemma PutGood(im: Image, c: seq<Byte>, k: nat, ofs: nat, x: seq<Byte>)
    requires Good(im, c, -1) && k < |im.pages|
    requires ofs + |x| <= PAGE_SIZE && im.pages[k].at + ofs <= |c|
    ensures Good(Put(im, c, k, im.pages[k].at, im.pages[k].data, ofs, x), FlatPut(c, im.pages[k].at + ofs, x), -1)
  {
    hide PageOK, Layout, Uncreated, Stored, FlatPut, Put;
    PutLayout(im, c, k, ofs, x);
    PutPages(im, c, k, ofs, x);
    if im.disk.Some? {
      PutStored(im, c, k, ofs, x);
    } else {
      PutUncreated(im, c, k, ofs, x);
    }
  }

  lemma PutLayout(im: Image, c: seq<Byte>, k: nat, ofs: nat, x: seq<Byte>)
    requires Layout(im.pages, |c|) && k < |im.pages|
    requires ofs + |x| <= PAGE_SIZE && im.pages[k].at + ofs <= |c|
    ensures var im' := Put(im, c, k, im.pages[k].at, im.pages[k].data, ofs, x);
            im'.disk == im.disk && |im'.pages| == |im.pages|
            && Layout(im'.pages, |FlatPut(c, im.pages[k].at + ofs, x)|)
  {
    var p := im.pages[k];
    var im', c' := Put(im, c, k, p.at, p.data, ofs, x), FlatPut(c, p.at + ofs, x);
    hide Layout;
    assert |p.data| == PAGE_SIZE && |FlatPut(p.data, ofs, x)| == PAGE_SIZE && |c| <= |c'| by { LayoutSize(im.pages, |c|, k); }
    forall i | 0 <= i < |im.pages| ensures |im'.pages[i].data| == PAGE_SIZE { LayoutSize(im.pages, |c|, i); }
    Relaid(im.pages, im'.pages, |c|, |c'|);
  }

  lemma LayoutSize(ps: seq<Page>, len: nat, k: nat)
    requires Layout(ps, len) && k < |ps|
    ensures |ps[k].data| == PAGE_SIZE && ps[k].at % PAGE_SIZE == 0
    ensures forall i :: 0 <= i < |ps| && i != k ==> ps[i].at != ps[k].at
  {
  }

  lemma PutPages(im: Image, c: seq<Byte>, k: nat, ofs: nat, x: seq<Byte>)
    requires Layout(im.pages, |c|) && k < |im.pages| && forall i :: 0 <= i < |im.pages| ==> PageOK(im.pages[i], c)
    requires ofs + |x| <= PAGE_SIZE && im.pages[k].at + ofs <= |c|
    ensures |im.pages[k].data| == PAGE_SIZE
    ensures var im' := Put(im, c, k, im.pages[k].at, im.pages[k].data, ofs, x);
            forall i :: 0 <= i < |im.pages| ==> PageOK(im'.pages[i], FlatPut(c, im.pages[k].at + ofs, x))
  {
    hide PageOK, Layout, FlatPut;
    var p := im.pages[k];
    LayoutSize(im.pages, |c|, k);
    FlatPutSize(c, p.at + ofs, x);
    PutHere(p, c, ofs, x);
    forall i | 0 <= i < |im.pages| && i != k
      ensures PageOK(im.pages[i], FlatPut(c, p.at + ofs, x))
    {
      LayoutSize(im.pages, |c|, i);
      PutElsewhere(im.pages[i], c, p.at, ofs, x);
    }
  }

  lemma PutUncreated(im: Image, c: seq<Byte>, k: nat, ofs: nat, x: seq<Byte>)
    requires Uncreated(im, c, -1) && k < |im.pages| && |im.pages[k].data| == PAGE_SIZE
    requires ofs + |x| <= PAGE_SIZE && im.pages[k].at + ofs <= |c|
    ensures Uncreated(Put(im, c, k, im.pages[k].at, im.pages[k].data, ofs, x), FlatPut(c, im.pages[k].at + ofs, x), -1)
  {
    assert im.pages[k].at == k * PAGE_SIZE;
  }

  lemma PutHere(p: Page, c: seq<Byte>, ofs: nat, x: seq<Byte>)
    requires PageOK(p, c) && |p.data| == PAGE_SIZE
    requires ofs + |x| <= PAGE_SIZE && p.at + ofs <= |c|
    ensures var c' := FlatPut(c, p.at + ofs, x);
            PageOK(Page(p.at, Lim(|c'|, p.at), true, FlatPut(p.data, ofs, x)), c')
  {
    var c', data := FlatPut(c, p.at + ofs, x), FlatPut(p.data, ofs, x);
    forall j | 0 <= j < Lim(|c'|, p.at)
      ensures data[j] == c'[p.at + j]
    {
      if j < ofs { assert data[j] == p.data[j] && c'[p.at + j] == c[p.at + j]; }
    }
  }

  lemma PutElsewhere(p: Page, c: seq<Byte>, at: nat, ofs: nat, x: seq<Byte>)
    requires PageOK(p, c) && p.at != at && p.at % PAGE_SIZE == 0 && at % PAGE_SIZE == 0
    requires ofs + |x| <= PAGE_SIZE && at + ofs <= |c|
    ensures PageOK(p, FlatPut(c, at + ofs, x))
  {
    Apart(p.at, at, |c|, |FlatPut(c, at + ofs, x)|);
  }

  lemma PutStored(im: Image, c: seq<Byte>, k: nat, ofs: nat, x: seq<Byte>)
    requires Layout(im.pages, |c|) && k < |im.pages| && im.disk.Some? && Stored(im, c, -1)
    requires ofs + |x| <= PAGE_SIZE && im.pages[k].at + ofs <= |c|
    ensures Stored(Put(im, c, k, im.pages[k].at, im.pages[k].data, ofs, x), FlatPut(c, im.pages[k].at + ofs, x), -1)
  {
    var p, d := im.pages[k], im.disk.value;
    var im', c' := Put(im, c, k, p.at, p.data, ofs, x), FlatPut(c, p.at + ofs, x);
    forall q: nat | q % PAGE_SIZE == 0
      ensures Dirty(im', q) || OnDisk(d, c', q)
    {
      if q == p.at {
        assert im'.pages[k].mod;
      } else if Dirty(im, q) {
        var i :| 0 <= i < |im.pages| && im.pages[i].at == q && im.pages[i].mod;
        assert im'.pages[i].at == q && im'.pages[i].mod;
      } else {
        Apart(q, p.at, |c|, |c'|);
        assert OnDisk(d, c, q);
      }
    }
  }

  lemma Apart(p: nat, q: nat, len: nat, len': nat)
    requires p % PAGE_SIZE == 0 && q % PAGE_SIZE == 0 && p != q
    requires q <= len + PAGE_SIZE && len <= len'
    requires len' <= q + PAGE_SIZE || len' == len
    requires q <= len
    ensures Lim(len', p) == Lim(len, p)
    ensures p + PAGE_SIZE <= q || q + PAGE_SIZE <= p
  {
  }

  // A layout depends only on the page numbers, and survives growth.
  lemma Relaid(ps: seq<Page>, ps': seq<Page>, len: nat, len': nat)
    requires Layout(ps, len) && len <= len' && |ps| == |ps'|
    requires forall i :: 0 <= i < |ps| ==> ps[i].at == ps'[i].at && |ps'[i].data| == PAGE_SIZE
    ensures Layout(ps', len')
  {
    SamePages(ps, ps');
    if AllNew(ps) {
      forall n | 0 <= n < MAX_BUFS ensures Held(ps', n * PAGE_SIZE) { assert Held(ps, n * PAGE_SIZE); }
    }
  }

  lemma SamePages(ps: seq<Page>, ps': seq<Page>)
    requires |ps| == |ps'| && forall i :: 0 <= i < |ps| ==> ps[i].at == ps'[i].at
    ensures PageSet(ps) == PageSet(ps')
  {
    assert forall i :: 0 <= i < |ps| ==> ps[i].at in PageSet(ps') && ps'[i].at in PageSet(ps);
  }

  // A page held by a clean buffer is on disk.
  lemma CleanOnDisk(im: Image, c: seq<Byte>, k: nat)
    requires Good(im, c, -1) && k < |im.pages| && im.disk.Some? && !im.pages[k].mod
    ensures OnDisk(im.disk.value, c, im.pages[k].at)
  {
    assert Dirty(im, im.pages[k].at) || OnDisk(im.disk.value, c, im.pages[k].at);
  }

  // A new buffer, put second in the ring, holding page `at` as read from disk.
  function Insert(im: Image, at: nat, data: seq<Byte>): Image
    requires |im.pages| > 0 && im.disk.Some?
  {
    im.(pages := [im.pages[0], Page(at, Available(im.disk.value, at, PAGE_SIZE), false, data)] + im.pages[1..])
  }

  lemma InsertGood(im: Image, c: seq<Byte>, at: nat, data: seq<Byte>)
    requires Good(im, c, -1) && im.disk.Some? && |im.pages| < MAX_BUFS && |data| == PAGE_SIZE
    requires at % PAGE_SIZE == 0 && at <= |c| && !Held(im.pages, at)
    requires forall i :: 0 <= i < Available(im.disk.value, at, PAGE_SIZE) ==> data[i] == im.disk.value[at + i]
    ensures Good(Insert(im, at, data), c, -1)
  {
    var im', d := Insert(im, at, data), im.disk.value;
    AllWithin(im, c, -1, at);
    assert OnDisk(d, c, at) by {
      assert Dirty(im, at) ==> Held(im.pages, at);
    }
    assert PageOK(im'.pages[1], c);
    forall i | 0 <= i < |im'.pages| && i != 1
      ensures im'.pages[i] == im.pages[if i == 0 then 0 else i - 1] && im'.pages[i].at != at
    {
      assert im'.pages[i].at == at ==> Held(im.pages, at);
    }
    InsertStored(im, c, at, data);
  }

  lemma InsertStored(im: Image, c: seq<Byte>, at: nat, data: seq<Byte>)
    requires |im.pages| > 0 && im.disk.Some? && Stored(im, c, -1)
    ensures Stored(Insert(im, at, data), c, -1)
  {
    var im' := Insert(im, at, data);
    forall q: nat | q % PAGE_SIZE == 0
      ensures Dirty(im', q) || OnDisk(im.disk.value, c, q)
    {
      if Dirty(im, q) {
        var i :| 0 <= i < |im.pages| && im.pages[i].at == q && im.pages[i].mod;
        assert im'.pages[if i == 0 then 0 else i + 1] == im.pages[i];
      }
    }
  }

  // The last buffer becomes the first.
  function Rotate<T>(s: seq<T>): seq<T>
    requires |s| > 0
  {
    [s[|s| - 1]] + s[..|s| - 1]
  }

  lemma RotateAt<T>(s: seq<T>)
    requires |s| > 0
    ensures |Rotate(s)| == |s| && forall i :: 0 <= i < |s| ==> Rotate(s)[i] == s[if i == 0 then |s| - 1 else i - 1]
  {
  }

  lemma RotateGood(im: Image, c: seq<Byte>)
    requires Good(im, c, -1) && im.disk.Some?
    ensures Good(im.(pages := Rotate(im.pages)), c, -1)
    ensures PageSet(Rotate(im.pages)) == PageSet(im.pages)
  {
    RotateIndex(im.pages);
    RotateStored(im, c);
  }

  // Rotation keeps every page, wherever it goes.
  lemma RotateIndex(ps: seq<Page>)
    requires |ps| > 0
    ensures |Rotate(ps)| == |ps| && PageSet(Rotate(ps)) == PageSet(ps)
    ensures forall i :: 0 <= i < |ps| ==> Rotate(ps)[i] == ps[if i == 0 then |ps| - 1 else i - 1]
    ensures forall i :: 0 <= i < |ps| ==> ps[i] == Rotate(ps)[if i == |ps| - 1 then 0 else i + 1]
    ensures AllNew(ps) ==> AllNew(Rotate(ps))
  {
    forall q | q in PageSet(ps) ensures q in PageSet(Rotate(ps)) {
      var i :| 0 <= i < |ps| && ps[i].at == q;
      assert Rotate(ps)[if i == |ps| - 1 then 0 else i + 1].at == q;
    }
    forall q | q in PageSet(Rotate(ps)) ensures q in PageSet(ps) {
      var i :| 0 <= i < |ps| && Rotate(ps)[i].at == q;
      assert ps[if i == 0 then |ps| - 1 else i - 1].at == q;
    }
    if AllNew(ps) {
      forall m | 0 <= m < MAX_BUFS ensures Held(Rotate(ps), m * PAGE_SIZE) {
        assert Held(ps, m * PAGE_SIZE);
      }
    }
  }

  lemma RotateStored(im: Image, c: seq<Byte>)
    requires |im.pages| > 0 && im.disk.Some? && Stored(im, c, -1)
    ensures Stored(im.(pages := Rotate(im.pages)), c, -1)
  {
    var n, im' := |im.pages|, im.(pages := Rotate(im.pages));
    forall q: nat | q % PAGE_SIZE == 0
      ensures Dirty(im', q) || OnDisk(im.disk.value, c, q)
    {
      if Dirty(im, q) {
        var i :| 0 <= i < n && im.pages[i].at == q && im.pages[i].mod;
        assert im'.pages[if i == n - 1 then 0 else i + 1] == im.pages[i];
      }
    }
  }

  // Creating the disk file, before anything is written to it.
  lemma CreateGood(im: Image, c: seq<Byte>)
    requires Good(im, c, -1) && im.disk.None?
    ensures Good(im.(disk := Some([])), c, -1)
  {
    forall q: nat | q % PAGE_SIZE == 0 && q < |c|
      ensures Dirty(im, q)
    {
      var i := q / PAGE_SIZE;
      assert im.pages[i].at == q && PageOK(im.pages[i], c);
    }
    forall q: nat | q % PAGE_SIZE == 0
      ensures Dirty(im.(disk := Some([])), q) || OnDisk([], c, q)
    {
      if q < |c| { assert Dirty(im, q); }
    }
  }

  // With no buffer dirty, the disk is the flat array.
  lemma AllClean(im: Image, c: seq<Byte>)
    requires Good(im, c, -1) && im.disk.Some?
    requires forall i :: 0 <= i < |im.pages| ==> !im.pages[i].mod
    ensures im.disk.value == c
  {
    forall k | 0 <= k < |c|
      ensures k < |im.disk.value| && im.disk.value[k] == c[k]
    {
      assert Dirty(im, k - k % PAGE_SIZE) || OnDisk(im.disk.value, c, k - k % PAGE_SIZE);
    }
    assert |c| <= |im.disk.value| by {
      var last := |c| - 1;
      assert |c| > 0 ==> c[last] in c;
    }
  }

  // The image with another limit for buffer `k`.
  function Limited(im: Image, k: nat, lim: nat): Image
    requires k < |im.pages|
  {
    im.(pages := im.pages[k := im.pages[k].(lim := lim)])
  }

  lemma LimitedSame(im: Image, k: nat)
    requires k < |im.pages|
    ensures Limited(im, k, im.pages[k].lim) == im
  {
    assert im.pages[k := im.pages[k]] == im.pages;
  }

  // In a full ring without the page just past the end, every buffer holds a full page.
  lemma AllFull(im: Image, c: seq<Byte>)
    requires Good(im, c, -1) && |c| % PAGE_SIZE == 0 && !Held(im.pages, |c|)
    ensures forall i :: 0 <= i < |im.pages| ==> im.pages[i].lim == PAGE_SIZE
  {
    AllWithin(im, c, -1, |c|);
    forall i | 0 <= i < |im.pages| ensures im.pages[i].lim == PAGE_SIZE {
      assert PageOK(im.pages[i], c) && im.pages[i].at != |c|;
      Full(|c|, im.pages[i].at);
    }
  }

  lemma Full(len: nat, at: nat)
    requires len % PAGE_SIZE == 0 && at % PAGE_SIZE == 0 && at < len
    ensures Lim(len, at) == PAGE_SIZE
  {
  }

  // A buffer that is free to go takes the page just past the end, with nothing in it.
  lemma EmptyGood(im: Image, c: seq<Byte>, k: nat, data: seq<Byte>)
    requires k < |im.pages| && im.disk.Some? && |data| == PAGE_SIZE && Good(im, c, -1) && Free(im, c, k, |c|)
    ensures Good(im.(pages := im.pages[k := Page(|c|, 0, false, data)]), c, -1)
  {
    Within(im, c, k);
    LoadGood(im, c, k, |c|, data);
    assert Load(im, k, |c|, data) == im.(pages := im.pages[k := Page(|c|, 0, false, data)]);
  }

  // Only a new file is not yet on disk, and it has all its buffers.
  lemma Created(im: Image, c: seq<Byte>)
    requires Good(im, c, -1) && |im.pages| < MAX_BUFS
    ensures im.disk.Some? && |im.disk.value| <= |c|
  {
  }

  // How many bytes too many the length field gains when `n` bytes are written at `at` by
  // WriteBytes: those of the old last page that are written over.
  function Excess(len: nat, at: nat, n: nat): nat {
    if at < len < at + n && len % PAGE_SIZE != 0
    then var last := len - len % PAGE_SIZE; len - (if at < last then last else at)
    else 0
  }

  // `n` of the remaining `m` bytes go into the page at `page`, from offset `ofs`.
  lemma ExcessStep(len: nat, at: nat, i: nat, page: nat, ofs: nat, n: nat)
    requires page % PAGE_SIZE == 0 && page + ofs == at + i && ofs + n <= PAGE_SIZE && at <= len
    requires i == 0 || ofs == 0 || n == 0
    ensures var cur := if len < at + i then at + i else len;
            var lim := Lim(cur, page);
            Excess(len, at, i + n) == Excess(len, at, i) + (if lim < ofs + n && n > 0 then lim - ofs else 0)
  {
  }

  // A buffer's limit is the part of its page inside the file; the disk is no longer than the file.
  lemma Within(im: Image, c: seq<Byte>, k: nat)
    requires Good(im, c, -1) && k < |im.pages|
    ensures im.pages[k].lim == Lim(|c|, im.pages[k].at)
    ensures im.disk.Some? ==> |im.disk.value| <= |c|
  {
    assert PageOK(im.pages[k], c);
  }

  // An offset below a buffer's limit is inside the file, and the limit is as it should be.
  lemma LimitKept(im: Image, c: seq<Byte>, k: nat, ofs: nat)
    requires Good(im, c, -1) && k < |im.pages| && ofs < im.pages[k].lim
    ensures im == im.(pages := im.pages[k := im.pages[k].(lim := Lim(|c|, im.pages[k].at))])
    ensures im.pages[k].at + ofs < |c|
  {
    Within(im, c, k);
    var p := im.pages[k];
    assert p.(lim := Lim(|c|, p.at)) == p && im.pages[k := p] == im.pages;
  }

  // What a buffer of a good image holds.
  lemma Holds(im: Image, c: seq<Byte>, k: nat)
    requires Good(im, c, -1) && k < |im.pages|
    ensures im.pages[k].lim == Lim(|c|, im.pages[k].at) && |im.pages[k].data| == PAGE_SIZE
    ensures forall i :: 0 <= i < im.pages[k].lim ==> im.pages[k].data[i] == c[im.pages[k].at + i]
  {
    assert PageOK(im.pages[k], c);
  }

  // Before the file is on disk, every page of it is buffered.
  lemma AllHeld(im: Image, c: seq<Byte>, q: nat)
    requires Good(im, c, -1) && im.disk.None? && q % PAGE_SIZE == 0 && q < |c|
    ensures Held(im.pages, q)
  {
    assert im.pages[q / PAGE_SIZE].at == q;
  }

  lemma ExcessNone(len: nat, at: nat)
    ensures Excess(len, at, 0) == 0
  {
  }

  // How many bytes the length field misses when `n` are written from a stale page on: those that
  // went into that page.
  function Missing(late: bool, n: nat): nat {
    if !late then 0 else if n < PAGE_SIZE then n else PAGE_SIZE
  }

  // `n` more bytes go into a page that begins `d` bytes into the write.
  lemma MissingHere(late: bool, i: nat, n: nat, d: int)
    requires late ==> 0 <= d <= i && i + n <= d + PAGE_SIZE && d % PAGE_SIZE == 0
    ensures Missing(late, i + n) == Missing(late, i) + (if late && d == 0 then n else 0)
  {
  }

  // A rider that has written no more than a page from the start of one on is still in it.
  lemma SamePage(at: nat, page: nat, ofs: nat, i: nat)
    requires at % PAGE_SIZE == 0 && page % PAGE_SIZE == 0 && page + ofs == at + i && at <= page
    requires i <= PAGE_SIZE && (i == 0 || ofs > 0)
    ensures page == at
  {
  }

  // What storing does to the limit of the page stored into.
  lemma LimitGrows(c: seq<Byte>, page: nat, ofs: nat, x: seq<Byte>)
    requires ofs + |x| <= PAGE_SIZE && page + ofs <= |c|
    ensures var lim := Lim(|c|, page);
      Lim(|FlatPut(c, page + ofs, x)|, page) == if lim < ofs + |x| then ofs + |x| else lim
  {
  }

  // Writing the next bytes of `x` behind those already written.
  lemma FlatPutMore(s: seq<Byte>, pos: nat, x: seq<Byte>, i: nat, j: nat)
    requires pos <= |s| && i <= j <= |x|
    ensures pos + i <= |FlatPut(s, pos, x[..i])|
    ensures FlatPut(FlatPut(s, pos, x[..i]), pos + i, x[i..j]) == FlatPut(s, pos, x[..j])
  {
  }

  lemma FlatPutSize(s: seq<Byte>, pos: nat, x: seq<Byte>)
    requires pos <= |s|
    ensures |FlatPut(s, pos, x)| == if |s| < pos + |x| then pos + |x| else |s|
  {
  }

  lemma FlatPutNone(s: seq<Byte>, pos: nat, x: seq<Byte>)
    requires pos <= |s|
    ensures FlatPut(s, pos, x[..0]) == s
  {
  }

  // The length WriteBytes keeps, as `n` more bytes go into the page at `page`.
  lemma WriteLength(c: seq<Byte>, at: nat, x: seq<Byte>, i: nat, page: nat, ofs: nat, n: nat)
    requires page % PAGE_SIZE == 0 && page + ofs == at + i && ofs + n <= PAGE_SIZE && at <= |c| && i + n <= |x|
    requires i == 0 || ofs == 0
    ensures var cur, cur' := FlatPut(c, at, x[..i]), FlatPut(c, at, x[..i + n]);
            && page + ofs <= |cur|
            && |cur'| + Excess(|c|, at, i + n)
               == |cur| + Excess(|c|, at, i) + (if ofs + n > Lim(|cur|, page) then n else 0)
  {
    ExcessStep(|c|, at, i, page, ofs, n);
  }

  // The limit of the buffer that WriteBytes has reached.
  function Reached(len: nat, page: nat, at: nat, late: bool): nat {
    if late && page == at then PAGE_SIZE else Lim(len, page)
  }

  // The books WriteBytes keeps, as `n` more bytes go into the page at `page`: the length field
  // and the buffer's limit.
  lemma WriteStep(c: seq<Byte>, at: nat, x: seq<Byte>, i: nat, page: nat, ofs: nat, n: nat, late: bool, length: nat)
    requires page % PAGE_SIZE == 0 && page + ofs == at + i && ofs + n <= PAGE_SIZE && at <= |c| && i + n <= |x|
    requires (i == 0 || ofs == 0) && (late ==> at == |c| <= page && at % PAGE_SIZE == 0)
    requires length + Missing(late, i) == |FlatPut(c, at, x[..i])| + Excess(|c|, at, i)
    ensures var cur, cur' := FlatPut(c, at, x[..i]), FlatPut(c, at, x[..i + n]);
      var lim := Reached(|cur|, page, at, late);
      && page + ofs <= |cur| && cur' == FlatPut(cur, page + ofs, x[i..i + n])
      && length + (if ofs + n > lim then n else 0) + Missing(late, i + n) == |cur'| + Excess(|c|, at, i + n)
      && (if lim < ofs + n then ofs + n else lim) == Reached(|cur'|, page, at, late)
  {
    hide Excess, FlatPut, Missing;
    var cur := FlatPut(c, at, x[..i]);
    WriteLength(c, at, x, i, page, ofs, n);
    MissingHere(late, i, n, page - at);
    FlatPutMore(c, at, x, i, i + n);
    LimitGrows(cur, page, ofs, x[i..i + n]);
    FlatPutSize(c, at, x[..i]);
    FlatPutSize(cur, page + ofs, x[i..i + n]);
  }
}
