// Buffered files: a ring of at most four page buffers per file, shared by any
// number of riders, over the flat store of FileDir.
module Files {
  import opened Words
  import opened FileDir
  import opened FileImage

  class Buffer {
    var page: nat
    var lim: nat
    var mod: bool
    var next: Buffer?
    const data: array<Byte>

    constructor ()
      ensures page == 0 && lim == 0 && !mod && next == null
      ensures fresh(data) && data.Length == PAGE_SIZE
    {
      page, lim, mod, next := 0, 0, false, null;
      data := new Byte[PAGE_SIZE];
    }
  }

  ghost predicate Shows(b: Buffer, p: Page)
    reads b, b.data
  {
    p == Snap(b) && b.lim <= PAGE_SIZE == b.data.Length
  }

  ghost function Snap(b: Buffer): Page
    reads b, b.data
  {
    Page(b.page, b.lim, b.mod, b.data[..])
  }

  // The buffers follow one another by `next`, the last by the first.
  ghost predicate Cycle(rs: seq<Buffer>)
    reads rs`next
  {
    forall i :: 0 <= i < |rs| ==> rs[i].next == rs[if i == |rs| - 1 then 0 else i + 1]
  }

  ghost predicate Distinct(rs: seq<Buffer>) {
    forall i, j :: 0 <= i < j < |rs| ==> rs[i] != rs[j] && rs[i].data != rs[j].data
  }

  lemma RotateRing(rs: seq<Buffer>)
    requires |rs| > 0 && Cycle(rs) && Distinct(rs)
    ensures Cycle(Rotate(rs)) && Distinct(Rotate(rs))
  {
    RotateAt(rs);
    hide Rotate;
    forall i | 0 <= i < |rs| ensures Rotate(rs)[i].next == Rotate(rs)[if i == |rs| - 1 then 0 else i + 1] {
      var j := if i == 0 then |rs| - 1 else i - 1;
      assert rs[j].next == rs[if j == |rs| - 1 then 0 else j + 1];
    }
  }

  lemma InsertDistinct(rs: seq<Buffer>, buf: Buffer)
    requires |rs| > 0 && Distinct(rs) && forall i :: 0 <= i < |rs| ==> rs[i] != buf && rs[i].data != buf.data
    ensures Distinct([rs[0], buf] + rs[1..])
  {
    var rs' := [rs[0], buf] + rs[1..];
    assert forall i :: 0 <= i < |rs'| ==> rs'[i] == if i == 1 then buf else rs[if i == 0 then 0 else i - 1];
  }

  // Put `buf` behind the first buffer of the ring `rs`.
  method Splice(first: Buffer, buf: Buffer, ghost rs: seq<Buffer>)
    requires |rs| > 0 && Cycle(rs) && Distinct(rs) && first == rs[0] && buf !in rs
    modifies first`next, buf`next
    ensures Cycle([rs[0], buf] + rs[1..])
  {
    ghost var rs' := [rs[0], buf] + rs[1..];
    assert forall i :: 0 <= i < |rs'| ==> rs'[i] == if i == 1 then buf else rs[if i == 0 then 0 else i - 1];
    buf.next := first.next;
    first.next := buf;
  }

  // All the buffers of a new file, linked into a ring.
  method AllocateBuffers() returns (h: Buffer, ghost rs: seq<Buffer>)
    ensures |rs| == MAX_BUFS && h == rs[0]
    ensures fresh(rs) && forall i :: 0 <= i < |rs| ==> fresh(rs[i].data) && rs[i].data.Length == PAGE_SIZE
    ensures forall i, j :: 0 <= i < j < |rs| ==> rs[i] != rs[j] && rs[i].data != rs[j].data
    ensures forall i :: 0 <= i < |rs| ==> rs[i].page == i * PAGE_SIZE && rs[i].lim == 0
    ensures forall i :: 0 <= i < |rs| ==> rs[i].next == rs[(i + 1) % MAX_BUFS]
  {
    h := new Buffer();
    h.mod := true;
    rs := [h];
    var bp, i := h, 1;
    while i < MAX_BUFS
      invariant 1 <= i == |rs| <= MAX_BUFS && h == rs[0] && bp == rs[i - 1]
      invariant fresh(rs) && forall i :: 0 <= i < |rs| ==> fresh(rs[i].data) && rs[i].data.Length == PAGE_SIZE
      invariant forall i, j :: 0 <= i < j < |rs| ==> rs[i] != rs[j] && rs[i].data != rs[j].data
      invariant forall i :: 0 <= i < |rs| ==> rs[i].page == i * PAGE_SIZE && rs[i].lim == 0
      invariant forall i :: 0 <= i < |rs| - 1 ==> rs[i].next == rs[i + 1]
    {
      var buf := new Buffer();
      bp.next := buf;
      bp := buf;
      bp.page := i * PAGE_SIZE;
      rs := rs + [buf];
      i := i + 1;
    }
    bp.next := h;
  }

  method CopyBytes(to: array<Byte>, ofs: nat, from: array<Byte>, src: nat, n: nat)
    requires to != from && ofs + n <= to.Length && src + n <= from.Length
    modifies to
    ensures to[..] == FlatPut(old(to[..]), ofs, from[src..src + n])
  {
    ghost var data := to[..];
    for i := 0 to n
      invariant forall j :: ofs <= j < ofs + i ==> to[j] == from[src + (j - ofs)]
      invariant forall j :: 0 <= j < to.Length && !(ofs <= j < ofs + i) ==> to[j] == data[j]
    {
      to[ofs + i] := from[src + i];
    }
    assert to[..] == FlatPut(data, ofs, from[src..src + n]);
  }

  class File {
    var firstbuf: Buffer
    var length: nat
    var handle: Handle?
    var nofbufs: nat
    ghost var ring: seq<Buffer>     // the buffers, in `next` order from firstbuf
    ghost var now: Image            // their fields and the disk, as values
    ghost var contents: seq<Byte>   // the flat file this file stands for
    ghost var Repr: set<object>     // the objects that make up this file

    // The ring is well linked, and `now` says what it and the disk hold.
    ghost predicate Shape()
      reads this, Repr
    {
      && this in Repr && (handle != null ==> handle in Repr)
      && 1 <= |ring| <= MAX_BUFS && nofbufs == |ring| == |now.pages| && firstbuf == ring[0]
      && (forall i :: 0 <= i < |ring| ==> ring[i] in Repr && ring[i].data in Repr && Shows(ring[i], now.pages[i]))
      && Cycle(ring) && Distinct(ring)
      && now.disk == if handle == null then None else Some(handle.bytes)
    }

    // The file's buffers and disk stand for `contents`.
    ghost predicate Inv()
      reads this, Repr
    {
      Shape() && Good(now, contents, -1)
    }

    ghost predicate Valid()
      reads this, Repr
    {
      Inv() && length == |contents|
    }

    // Rider `r` is positioned in this file, at or before its end.
    ghost predicate Rides(r: Rider)
      reads this, r
    {
      && r !in Repr && r.file == this && r.buf in ring
      && r.page % PAGE_SIZE == 0 && r.pageofs <= PAGE_SIZE && r.Pos() <= |contents|
    }

    // The one page GetBuf gets wrong: past the end, unbuffered, and the ring full.
    ghost predicate Stale(page: nat)
      reads this
    {
      |ring| == MAX_BUFS && page >= |contents| && !Held(now.pages, page)
    }

    // All is as it should be, except that buffer `b` counts as full.
    ghost predicate Late(b: Buffer, k: int)
      reads this, b
    {
      && 0 <= k < |ring| == |now.pages| && ring[k] == b && b.lim == PAGE_SIZE
      && Good(Limited(now, k, Lim(|contents|, b.page)), contents, -1)
    }

    lemma Ring()
      requires Shape()
      ensures this in Repr && (handle != null ==> handle in Repr)
      ensures 1 <= |ring| == |now.pages| == nofbufs <= MAX_BUFS && firstbuf == ring[0]
      ensures now.disk == if handle == null then None else Some(handle.bytes)
    {
    }

    // What Shape() says of the buffer at `k` and of following its `next`.
    lemma At(k: nat)
      requires Shape() && k < |ring|
      ensures ring[k] in Repr && ring[k].data in Repr && |ring| == |now.pages| && Shows(ring[k], now.pages[k])
      ensures ring[k].next == firstbuf <==> k == |ring| - 1
      ensures k < |ring| - 1 ==> ring[k].next == ring[k + 1]
    {
      assert ring[k].next == ring[if k == |ring| - 1 then 0 else k + 1];
    }

    constructor New()
      ensures Valid() && contents == [] && handle == null && fresh(Repr)
    {
      hide Good;
      var h, rs := AllocateBuffers();
      firstbuf, length, handle, nofbufs := h, 0, null, MAX_BUFS;
      ring, contents := rs, [];
      Repr := {this, rs[0], rs[1], rs[2], rs[3], rs[0].data, rs[1].data, rs[2].data, rs[3].data};
      now := Image([Page(0, 0, rs[0].mod, rs[0].data[..]), Page(PAGE_SIZE, 0, rs[1].mod, rs[1].data[..]),
                    Page(2 * PAGE_SIZE, 0, rs[2].mod, rs[2].data[..]), Page(3 * PAGE_SIZE, 0, rs[3].mod, rs[3].data[..])], None);
      new;
      NewGood(now);
    }

    constructor Old(h: Handle)
      modifies h`pos
      ensures Valid() && contents == h.bytes && handle == h && fresh(Repr - {h})
    {
      hide Good;
      var b := new Buffer();
      b.next := b;
      h.Seek(0);
      b.lim := h.Read(PAGE_SIZE, b.data);
      firstbuf, length, handle, nofbufs := b, |h.bytes|, h, 1;
      ring, contents := [b], h.bytes;
      Repr := {this, b, b.data, h};
      now := Image([Page(0, b.lim, false, b.data[..])], Some(h.bytes));
      new;
      OldGood(now, contents);
    }

    // Write buffer `b` to its place on disk.
    method PutBack(b: Buffer, ghost k: nat)
      requires Shape() && k < |ring| && b == ring[k] && handle != null
      modifies handle, b`mod, this`now
      ensures Shape() && !b.mod && k < |old(now).pages| && old(now).disk.Some?
      ensures old(now).pages[k].lim <= |old(now).pages[k].data|
      ensures now == Flush(old(now), k)
    {
      hide Overwrite;
      At(k);
      handle.Seek(b.page);
      handle.Write(b.lim, b.data);
      b.mod := false;
      now := Flush(now, k);
    }

    method WriteBuf(b: Buffer, ghost k: nat)
      requires Inv() && k < |ring| && b == ring[k] && handle != null
      modifies handle, b`mod, this`now
      ensures Inv() && now == Flush(old(now), k) && !b.mod && PageSet(now.pages) == old(PageSet(now.pages))
      ensures now.disk.Some? && OnDisk(now.disk.value, contents, b.page)
    {
      hide Overwrite, Good, OnDisk, PageSet, Shape;
      Ring(); At(k);
      FlushGood(now, contents, k);
      PutBack(b, k);
    }

    method Fetch(b: Buffer, at: nat)
      requires handle != null && b.data.Length == PAGE_SIZE
      modifies b`page, b`lim, b`mod, b.data, handle`pos
      ensures b.page == at && !b.mod && b.lim == Available(handle.bytes, at, PAGE_SIZE)
      ensures forall i :: 0 <= i < b.lim ==> b.data[i] == handle.bytes[at + i]
    {
      handle.Seek(at);
      b.lim := handle.Read(PAGE_SIZE, b.data);
      b.page, b.mod := at, false;
    }

    // Fill buffer `b` from the page at `at`.
    method ReadBuf(b: Buffer, at: nat, ghost k: nat)
      requires Shape() && k < |ring| && b == ring[k] && handle != null
      modifies b`page, b`lim, b`mod, b.data, handle`pos, this`now
      ensures Shape() && now == Load(old(now), k, at, b.data[..])
      ensures b.page == at && !b.mod && b.lim == Available(handle.bytes, at, PAGE_SIZE)
      ensures forall i :: 0 <= i < b.lim ==> b.data[i] == handle.bytes[at + i]
    {
      hide Cycle;
      Fetch(b, at);
      now := Load(now, k, at, b.data[..]);
      forall i | 0 <= i < |ring| ensures Shows(ring[i], now.pages[i]) {
        if i != k {
          assert old(Shows(ring[i], now.pages[i]));
        }
      }
    }

    // Give buffer `b` another page.
    method Retarget(b: Buffer, page: nat, lim: nat, ghost k: nat)
      requires Shape() && k < |ring| && b == ring[k] && lim <= PAGE_SIZE
      modifies b`page, b`lim, this`now
      ensures Shape() && b.page == page && b.lim == lim
      ensures now == old(now).(pages := old(now).pages[k := Page(page, lim, b.mod, b.data[..])])
    {
      b.page, b.lim := page, lim;
      now := now.(pages := now.pages[k := Snap(b)]);
    }

    // Make the last buffer the first.
    method MakeFirst(buf: Buffer)
      requires Inv() && buf == ring[|ring| - 1] && handle != null
      modifies this`firstbuf, this`ring, this`now
      ensures Inv() && firstbuf == buf == ring[0] && ring == Rotate(old(ring))
      ensures now == old(now).(pages := Rotate(old(now.pages))) && PageSet(now.pages) == old(PageSet(now.pages))
    {
      hide Good, PageSet, Shape;
      Ring();
      RotateGood(now, contents);
      TurnRing(buf);
    }

    method TurnRing(buf: Buffer)
      requires Shape() && buf == ring[|ring| - 1]
      modifies this`firstbuf, this`ring, this`now
      ensures Shape() && firstbuf == buf && |old(now.pages)| > 0 && ring == Rotate(old(ring))
      ensures now == old(now).(pages := Rotate(old(now.pages)))
    {
      RotateRing(ring);
      RotateAt(ring);
      RotateAt(now.pages);
      hide Rotate, Cycle, Distinct;
      firstbuf := buf;
      ring, now := Rotate(ring), now.(pages := Rotate(now.pages));
    }

    // The buffer that holds the page at `pos`, if there is one.
    method Buf(pos: nat) returns (b: Buffer?, ghost k: nat)
      requires Shape()
      ensures b == null <==> !Held(now.pages, pos)
      ensures b != null ==> k < |ring| && b == ring[k] && b.page == pos
    {
      b, k := firstbuf, 0;
      while pos != b.page
        invariant k < |ring| && b == ring[k]
        invariant forall i :: 0 <= i < k ==> now.pages[i].at != pos
        decreases |ring| - k
      {
        At(k);
        b := b.next;
        if b == firstbuf {
          return null, 0;
        }
        k := k + 1;
      }
    }

    // Create the file on disk, still empty.
    method CreateHandle()
      requires Inv() && handle == null
      modifies this`handle, this`Repr, this`now
      ensures Inv() && handle != null && Repr == old(Repr) + {handle} && fresh(handle)
      ensures now == old(now).(disk := Some([]))
    {
      hide Good;
      handle := new Handle.Create();
      Repr := Repr + {handle};
      CreateGood(now, contents);
      now := now.(disk := Some([]));
    }

    // Create the file on disk and write out the buffers that hold bytes.
    method CreateFile()
      requires Inv() && handle == null
      modifies Repr
      ensures Inv() && handle != null && Repr == old(Repr) + {handle} && fresh(handle)
      ensures ring == old(ring) && contents == old(contents) && length == old(length)
      ensures PageSet(now.pages) == old(PageSet(now.pages))
      ensures ring[|ring| - 1].lim == old(ring[|ring| - 1].lim)
    {
      hide Good, Flush, Shape, PageSet;
      Ring();
      CreateHandle();
      Ring();
      var buf, done := firstbuf, false;
      ghost var k := 0;
      while !done
        invariant Inv() && handle != null && Repr == old(Repr) + {handle} && fresh(handle)
        invariant ring == old(ring) != [] && contents == old(contents) && length == old(length)
        invariant PageSet(now.pages) == old(PageSet(now.pages))
        invariant ring[|ring| - 1].lim == old(ring[|ring| - 1].lim)
        invariant done || (k < |ring| && buf == ring[k])
        decreases !done, |ring| - k
      {
        At(k);
        WriteBuf(buf, k);
        At(k);
        buf := buf.next;
        k := k + 1;
        done := buf == firstbuf || buf.lim == 0;
      }
    }

    // Link buffer `buf` into the ring, behind the first.
    method Link(buf: Buffer)
      requires Shape() && |ring| < MAX_BUFS
      requires buf !in Repr && buf.data !in Repr && buf.lim <= PAGE_SIZE == buf.data.Length
      modifies this`nofbufs, this`Repr, this`ring, this`now, firstbuf`next, buf`next
      ensures Shape() && Repr == old(Repr) + {buf, buf.data}
      ensures ring == [old(ring)[0], buf] + old(ring)[1..]
      ensures now == old(now).(pages := [old(now.pages)[0], Snap(buf)] + old(now.pages)[1..])
    {
      ghost var r, ps := ring, now.pages;
      InsertDistinct(r, buf);
      Splice(firstbuf, buf, r);
      hide Cycle, Distinct;
      nofbufs := nofbufs + 1;
      Repr := Repr + {buf, buf.data};
      ring := [r[0], buf] + r[1..];
      now := now.(pages := [ps[0], Snap(buf)] + ps[1..]);
      forall i | 0 <= i < |ring|
        ensures ring[i] in Repr && ring[i].data in Repr && Shows(ring[i], now.pages[i])
      {
        if i != 1 {
          var j := if i == 0 then 0 else i - 1;
          assert ring[i] == r[j] && now.pages[i] == ps[j] && old(Shows(r[j], ps[j]));
        }
      }
    }

    // A new buffer for page `page`, still empty.
    method Allocate(page: nat) returns (buf: Buffer)
      requires Shape() && |ring| < MAX_BUFS
      modifies this`nofbufs, this`Repr, this`ring, this`now, firstbuf`next
      ensures Shape() && fresh(buf) && fresh(buf.data) && Repr == old(Repr) + {buf, buf.data}
      ensures ring == [old(ring)[0], buf] + old(ring)[1..] && buf.page == page && buf.lim == 0
      ensures now == old(now).(pages := [old(now.pages)[0], Page(page, 0, false, buf.data[..])] + old(now.pages)[1..])
    {
      hide Shape;
      buf := new Buffer();
      buf.page := page;
      assert Shape();
      Link(buf);
    }

    // ReadBuf, where buffer `b` is free to take the page at `at`.
    method Reload(b: Buffer, at: nat, ghost k: nat)
      requires Inv() && k < |ring| && b == ring[k] && handle != null
      requires now.disk.Some? && Free(now, contents, k, at)
      modifies b`page, b`lim, b`mod, b.data, handle`pos, this`now
      ensures Inv() && b.page == at && now.disk == old(now.disk)
      ensures now.pages == old(now.pages)[k := now.pages[k]]
    {
      hide Good, Free, Shape;
      Ring();
      ReadBuf(b, at, k);
      Ring(); At(k);
      LoadGood(old(now), contents, k, at, b.data[..]);
    }

    // GetBuf with a full ring: the last buffer becomes the first and is written out.
    method Evict(buf: Buffer)
      requires Inv() && buf == ring[|ring| - 1]
      modifies Repr
      ensures Inv() && handle != null && contents == old(contents) && length == old(length)
      ensures buf == ring[0] && ring == Rotate(old(ring)) && buf.lim == old(buf.lim)
      ensures now.disk.Some? && OnDisk(now.disk.value, contents, buf.page) && !buf.mod
      ensures PageSet(now.pages) == old(PageSet(now.pages)) && fresh(Repr - old(Repr))
    {
      hide Good, PageSet, Flush, OnDisk, Shape, Rotate;
      Ring(); At(|ring| - 1);
      if handle == null {
        CreateFile();
      }
      MakeFirst(buf);
      Ring(); At(0);
      if buf.mod {
        WriteBuf(buf, 0);
      } else {
        CleanOnDisk(now, contents, 0);
      }
    }

    // GetBuf with a full ring: `buf` is now the buffer for page `page`.
    method Replace(buf: Buffer, page: nat)
      requires Valid() && buf == ring[|ring| - 1]
      requires page % PAGE_SIZE == 0 && page <= |contents| && !Held(now.pages, page)
      modifies Repr
      ensures Shape() && contents == old(contents) && length == old(length)
      ensures buf == ring[0] && buf.page == page && ring == Rotate(old(ring))
      ensures page < |contents| ==> Valid()
      ensures page == |contents| ==> Late(buf, 0)
      ensures handle != null && fresh(Repr - old(Repr))
    {
      hide Good, PageSet, OnDisk, Shape, Rotate;
      Ring(); At(|ring| - 1);
      if page == |contents| { AllFull(now, contents); }
      Evict(buf);
      Ring(); At(0);
      if page < length {
        Reload(buf, page, 0);
      } else {
        EmptyGood(now, contents, 0, buf.data[..]);
        ghost var g := now;
        Retarget(buf, page, buf.lim, 0);
        Ring(); At(0);
        assert Limited(now, 0, 0) == g.(pages := g.pages[0 := Page(page, 0, false, buf.data[..])]);
      }
    }

    // GetBuf with buffers to spare: a new one for page `page`.
    method Extend(page: nat) returns (buf: Buffer)
      requires Valid() && |ring| < MAX_BUFS
      requires page % PAGE_SIZE == 0 && page <= |contents| && !Held(now.pages, page)
      modifies Repr
      ensures Valid() && contents == old(contents) && length == old(length)
      ensures |old(ring)| > 0 && ring == [old(ring)[0], buf] + old(ring)[1..]
      ensures buf.page == page && handle != null && fresh(Repr - old(Repr))
    {
      hide Good, PageSet, Shape;
      Ring(); At(0);
      Created(now, contents);
      assert |old(ring)| > 0;
      ghost var im := now;
      buf := Allocate(page);
      Ring(); At(1);
      if page < length {
        ReadBuf(buf, page, 1);
        Ring(); At(1);
      }
      InsertGood(im, contents, page, now.pages[1].data);
      assert now == Insert(im, page, now.pages[1].data);
    }

    // The buffer for page `page`.  Past the end, with the ring full and the page not
    // buffered, it keeps the limit of the page it held before.
    method GetBuf(page: nat) returns (buf: Buffer, ghost k: nat)
      requires Valid() && page % PAGE_SIZE == 0 && page <= |contents|
      modifies Repr
      ensures Shape() && contents == old(contents) && length == old(length)
      ensures k < |ring| && buf == ring[k] && buf.page == page
      ensures fresh(Repr - old(Repr)) && forall b :: b in old(ring) ==> b in ring
      ensures !old(Stale(page)) ==> Valid()
      ensures handle == null ==> old(handle) == null && now == old(now)
      ensures old(Held(now.pages, page)) ==> handle == old(handle)
      ensures old(Stale(page)) ==> Late(buf, k)
    {
      hide Good, Shape;
      Ring();
      buf, k := firstbuf, 0;
      while page != buf.page
        invariant Valid() && Repr == old(Repr) && ring == old(ring) && now == old(now) && contents == old(contents)
        invariant length == old(length) && handle == old(handle)
        invariant k < |ring| && buf == ring[k]
        invariant forall i :: 0 <= i < k ==> now.pages[i].at != page
        decreases |ring| - k
      {
        At(k); Ring();
        if buf.next == firstbuf {
          if nofbufs < MAX_BUFS {
            buf := Extend(page);
            k := 1;
          } else {
            Replace(buf, page);
            k := 0;
          }
          return;
        }
        buf := buf.next;
        k := k + 1;
      }
      At(k);
    }

    // Store one byte in buffer `b`.
    method PutByte(b: Buffer, ofs: nat, x: Byte, ghost k: nat)
      requires Shape() && k < |ring| && b == ring[k] && ofs < PAGE_SIZE
      modifies b`mod, b.data, this`now
      ensures Shape()
      ensures now == old(now).(pages :=
        old(now).pages[k := old(now).pages[k].(mod := true, data := FlatPut(old(now).pages[k].data, ofs, [x]))])
    {
      b.data[ofs] := x;
      b.mod := true;
      assert b.data[..] == FlatPut(old(now.pages[k].data), ofs, [x]);
      now := now.(pages := now.pages[k := Snap(b)]);
    }

    // Store `n` bytes of `x`, from `src` on, in buffer `b`, whose limit becomes `lim`.
    method PutBytes(b: Buffer, lim: nat, ofs: nat, x: array<Byte>, src: nat, n: nat, ghost k: nat)
      requires Shape() && k < |ring| && b == ring[k] && ofs + n <= PAGE_SIZE && lim <= PAGE_SIZE
      requires x !in Repr && src + n <= x.Length
      modifies b`mod, b`lim, b.data, this`now
      ensures Shape()
      ensures now == old(now).(pages :=
        old(now).pages[k := Page(b.page, lim, true, FlatPut(old(now).pages[k].data, ofs, x[src..src + n]))])
    {
      At(k);
      hide FlatPut;
      CopyBytes(b.data, ofs, x, src, n);
      b.mod, b.lim := true, lim;
      now := now.(pages := now.pages[k := Snap(b)]);
    }

    method Grow(n: nat)
      requires Shape()
      modifies this`length
      ensures Shape() && length == old(length) + n
    {
      length := length + n;
    }

    ghost method Become(c: seq<Byte>)
      requires Shape()
      modifies this`contents
      ensures Shape() && contents == c
    {
      contents := c;
    }

    // Buffer `b` is written out and takes the unbuffered page `page`.
    method TurnPage(b: Buffer, page: nat, ghost k: nat)
      requires Inv() && k < |ring| && b == ring[k] && (|contents| <= length || page == |contents|)
      requires page % PAGE_SIZE == 0 && page <= |contents| && !Held(now.pages, page)
      modifies Repr
      ensures Inv() && contents == old(contents) && length == old(length) && ring == old(ring)
      ensures k < |ring| && b == ring[k] && b.page == page && b.lim == Lim(|contents|, page)
      ensures fresh(Repr - old(Repr))
    {
      hide Good, Shape, Flush, OnDisk, PageSet;
      Ring();
      if handle == null {
        CreateFile();
      }
      Ring(); At(k);
      WriteBuf(b, k);
      Ring(); At(k);
      if page < length {
        Reload(b, page, k);
      } else {
        Within(now, contents, k);
        LoadGood(now, contents, k, page, b.data[..]);
        Retarget(b, page, 0, k);
      }
      Ring(); At(k);
      Within(now, contents, k);
    }

    // The buffer for page `page`, the one after the page of the full buffer `b`.
    method NextPage(b: Buffer, page: nat, ghost k: nat) returns (buf: Buffer, ghost j: nat)
      requires Inv() && k < |ring| && b == ring[k] && (|contents| <= length || page == |contents|)
      requires page % PAGE_SIZE == 0 && page <= |contents|
      modifies Repr
      ensures Inv() && contents == old(contents) && length == old(length) && ring == old(ring)
      ensures j < |ring| && buf == ring[j] && buf.page == page && buf.lim == Lim(|contents|, page)
      ensures fresh(Repr - old(Repr)) && (old(Held(now.pages, page)) ==> handle == old(handle))
    {
      hide Good, Shape, PageSet;
      Ring();
      var found, i := Buf(page);
      if found == null {
        TurnPage(b, page, k);
        buf, j := b, k;
      } else {
        At(i);
        Within(now, contents, i);
        buf, j := found, i;
      }
    }

    // Make the rider's buffer the one for the rider's page.
    method Locate(r: Rider) returns (ghost k: nat)
      requires Valid() && Rides(r)
      modifies Repr, r`buf
      ensures Shape() && contents == old(contents) && length == old(length)
      ensures k < |ring| && r.buf == ring[k] && r.buf.page == r.page && r !in Repr
      ensures fresh(Repr - old(Repr)) && forall b :: b in old(ring) ==> b in ring
      ensures !old(Stale(r.page)) ==> Valid()
      ensures handle == null ==> old(handle) == null && now == old(now)
      ensures old(Held(now.pages, r.page)) ==> handle == old(handle)
      ensures old(Stale(r.page)) ==> Late(r.buf, k) && r.pageofs == 0
    {
      hide Good, Shape;
      Ring();
      k :| 0 <= k < |ring| && ring[k] == r.buf;
      At(k);
      if r.page != r.buf.page {
        r.buf, k := GetBuf(r.page);
      }
    }

    // One more byte belongs to buffer `b`, and to the file.
    method Lengthen(b: Buffer, ghost k: nat)
      requires Shape() && k < |ring| && b == ring[k] && b.lim < PAGE_SIZE && b.page + b.lim == |contents|
      modifies b`page, b`lim, this`now, this`length
      ensures Shape() && length == old(length) + 1 && b.page == old(b.page)
      ensures now == old(now).(pages := old(now).pages[k := old(now).pages[k].(lim := Lim(|contents| + 1, b.page))])
    {
      hide Shape;
      Ring(); At(k);
      Retarget(b, b.page, b.lim + 1, k);
      Grow(1);
    }

    // The rider's buffer is used up: extend it, or go on with the next page.
    // The image `g` is the file before the extension.
    method Room(r: Rider, ghost k: nat) returns (ghost g: Image, ghost j: nat)
      requires Valid() && Rides(r) && k < |ring| && r.buf == ring[k] && r.page == r.buf.page && r.pageofs >= r.buf.lim
      modifies Repr, r
      ensures Shape() && contents == old(contents) && r.file == this && r.Pos() == old(r.Pos()) && r.pageofs < PAGE_SIZE
      ensures fresh(Repr - old(Repr)) && ring == old(ring) && r !in Repr
      ensures j < |ring| == |g.pages| && r.buf == ring[j] && g.pages[j].at == r.page && r.page % PAGE_SIZE == 0
      ensures Good(g, contents, -1)
      ensures length == if r.Pos() < |contents| then |contents| else |contents| + 1
      ensures now == Limited(g, j, Lim(length, r.page))
      ensures old(r.pageofs == PAGE_SIZE ==> Held(now.pages, r.page + PAGE_SIZE)) ==> handle == old(handle)
    {
      hide Good, Shape, PageSet;
      Ring(); At(k);
      Within(now, contents, k);
      j := k;
      var buf := r.buf;
      if r.pageofs == PAGE_SIZE {
        r.page := r.page + PAGE_SIZE;
        buf, j := NextPage(buf, r.page, k);
        r.buf, r.pageofs := buf, 0;
        Ring(); At(j);
      }
      assert Inv() && buf == ring[j] && buf.lim == Lim(|contents|, r.page);
      g := now;
      if r.pageofs >= buf.lim {
        Lengthen(buf, j);
      } else {
        LimitedSame(g, j);
      }
    }

    // Store the byte; the file now has it. The image `g` differs from the file's only in the
    // limit of buffer `b`.
    method StoreByte(b: Buffer, ofs: nat, x: Byte, ghost k: nat, ghost g: Image)
      requires Shape() && k < |ring| && b == ring[k] && ofs < PAGE_SIZE && b.page + ofs <= |contents|
      requires Good(g, contents, -1) && k < |g.pages| && g.pages[k].at == b.page && now == Limited(g, k, b.lim)
      modifies b`mod, b.data, this`now, this`contents
      ensures Shape() && contents == FlatPut(old(contents), b.page + ofs, [x]) && |ring| == |now.pages|
      ensures Good(Limited(now, k, Lim(|contents|, b.page)), contents, -1)
    {
      hide Good, Shape, FlatPut, Lim;
      Ring(); At(k);
      PutByte(b, ofs, x, k);
      PutGood(g, contents, k, ofs, [x]);
      FlatPutSize(contents, b.page + ofs, [x]);
      Become(FlatPut(contents, b.page + ofs, [x]));
      Ring(); At(k);
      assert Limited(now, k, Lim(|contents|, b.page)) == Put(g, old(contents), k, b.page, g.pages[k].data, ofs, [x]);
    }

    // The length with one more byte at `pos`.
    ghost function Longer(pos: nat): nat
      reads this
    {
      if pos < |contents| then |contents| else |contents| + 1
    }

    // Get ready to store one byte. The image `g` differs from the file's only in the limit of the
    // rider's buffer.
    method Prepare(r: Rider) returns (ghost g: Image, ghost k: nat)
      requires Valid() && Rides(r)
      modifies Repr, r
      ensures Shape() && contents == old(contents) && r.file == this && r !in Repr && r.Pos() == old(r.Pos())
      ensures r.page % PAGE_SIZE == 0 && r.pageofs < PAGE_SIZE
      ensures k < |ring| && r.buf == ring[k] && r.buf.page == r.page
      ensures Good(g, contents, -1) && k < |g.pages| && g.pages[k].at == r.page && now == Limited(g, k, r.buf.lim)
      ensures old(Stale(r.page)) ==> r.Pos() == length == |contents| && r.buf.lim == PAGE_SIZE
      ensures !old(Stale(r.page)) ==> length == Longer(r.Pos()) && r.buf.lim == Lim(length, r.page)
      ensures fresh(Repr - old(Repr)) && forall b :: b in old(ring) ==> b in ring
      ensures old(handle == null && Held(now.pages, r.page)) && old(r.pageofs == PAGE_SIZE ==> Held(now.pages, r.page + PAGE_SIZE))
        ==> handle == null
    {
      hide Good, Shape, PageSet, Lim;
      ghost var stale := Stale(r.page);
      k := Locate(r);
      Ring(); At(k);
      g := now;
      if r.pageofs >= r.buf.lim {
        g, k := Room(r, k);
        Ring(); At(k);
      } else if stale {
        g := Limited(now, k, Lim(|contents|, r.page));
        assert Limited(g, k, r.buf.lim) == now;
      } else {
        LimitKept(now, contents, k, r.pageofs);
        LimitedSame(now, k);
        Within(now, contents, k);
      }
    }

    // The byte is written in any case; with a stale page, neither the length nor the limit of the
    // buffer counts it.
    method Write(r: Rider, x: Byte)
      requires Valid() && Rides(r)
      modifies Repr, r
      ensures Shape() && Rides(r) && r.Pos() == old(r.Pos()) + 1 && r.pageofs > 0
      ensures contents == FlatPut(old(contents), old(r.Pos()), [x])
      ensures fresh(Repr - old(Repr)) && forall b :: b in old(ring) ==> b in ring
      ensures !old(Stale(r.page)) ==> Valid()
      ensures old(Stale(r.page)) ==> length == |contents| - 1 && r.buf != null && exists k :: Late(r.buf, k)
      ensures old(handle == null && Held(now.pages, r.page)) && old(r.pageofs == PAGE_SIZE ==> Held(now.pages, r.page + PAGE_SIZE))
        ==> handle == null
    {
      hide Good, Shape, FlatPut, PageSet, Lim;
      ghost var g, k := Prepare(r);
      Ring(); At(k);
      FlatPutSize(contents, r.Pos(), [x]);
      StoreByte(r.buf, r.pageofs, x, k, g);
      Ring(); At(k);
      r.pageofs := r.pageofs + 1;
      assert r.buf.lim == PAGE_SIZE ==> Late(r.buf, k);
      if r.buf.lim == Lim(|contents|, r.page) {
        LimitedSame(now, k);
      }
    }

    // At the very end of the file, having used up the last page.
    ghost predicate Spent(r: Rider)
      reads this, r
    {
      r.Pos() == |contents| && r.pageofs == PAGE_SIZE
    }

    // Read's own eviction: the rider's buffer takes the next page.
    method Refill(b: Buffer, page: nat, ghost k: nat)
      requires Inv() && k < |ring| && b == ring[k] && handle != null
      requires page % PAGE_SIZE == 0 && page <= |contents| && !Held(now.pages, page)
      modifies Repr
      ensures Inv() && contents == old(contents) && length == old(length) && ring == old(ring) && Repr == old(Repr)
      ensures b.page == page && b.lim == Lim(|contents|, page) && handle == old(handle)
    {
      hide Good, Shape, PageSet, OnDisk, Flush;
      Ring(); At(k);
      if b.mod {
        WriteBuf(b, k);
      } else {
        CleanOnDisk(now, contents, k);
      }
      Ring(); At(k);
      Reload(b, page, k);
      Ring(); At(k);
      Within(now, contents, k);
    }

    // There is no page where this rider would read on, and no disk file to look for it in.
    ghost predicate Adrift(r: Rider)
      reads this, r
    {
      Spent(r) && handle == null && !Held(now.pages, |contents|)
    }

    // Read, from the first byte of the next page; `nil` if the page is looked for on a disk file
    // that does not exist.
    method ReadOn(r: Rider, ghost k: nat) returns (x: Byte, nil: bool)
      requires Valid() && Rides(r) && k < |ring| && r.buf == ring[k]
      requires r.page + PAGE_SIZE <= |contents|
      modifies Repr, r
      ensures Valid() && contents == old(contents) && length == old(length) && r.file == this
      ensures Repr == old(Repr) && ring == old(ring)
      ensures nil == (r.page == |contents| && old(handle == null && !Held(now.pages, |contents|)))
      ensures r.page == old(r.page) + PAGE_SIZE && r.buf in ring && (!nil ==> r.pageofs == 1)
      ensures r.page < |contents| ==> x == contents[r.page]
    {
      hide Good, Shape, PageSet;
      Ring(); At(k);
      r.page := r.page + PAGE_SIZE;
      if now.disk.None? && r.page < |contents| { AllHeld(now, contents, r.page); }
      var buf, j := Buf(r.page);
      nil := buf == null && handle == null;
      if nil {
        x := 0;
        return;
      }
      if buf == null {
        j := k;
        Refill(r.buf, r.page, k);
      } else {
        r.buf := buf;
      }
      Ring(); At(j);
      Holds(now, contents, j);
      x := r.buf.data[0];
      r.pageofs := 1;
      r.eof := r.page + r.pageofs >= length;
    }

    // `nil` stands for the trap that using a NIL handle is.
    method Read(r: Rider) returns (x: Byte, nil: bool)
      requires Valid() && Rides(r)
      modifies Repr, r
      ensures contents == old(contents) && length == old(length) && r.file == this && nil == old(Adrift(r))
      ensures fresh(Repr - old(Repr)) && forall b :: b in old(ring) ==> b in ring
      ensures !old(Stale(r.page)) ==> Valid()
      ensures old(r.Pos()) < |contents| ==> x == contents[old(r.Pos())] && r.Pos() == old(r.Pos()) + 1 && Rides(r)
      ensures old(r.Pos()) == |contents| && !old(Stale(r.page)) && !old(Spent(r)) ==>
                x == 0 && r.eof && r.Pos() == old(r.Pos()) && Rides(r)
      ensures (old(Stale(r.page)) || old(Spent(r))) && !nil ==> r.Pos() == |contents| + 1 && !Rides(r)
    {
      hide Good, Shape, PageSet;
      ghost var stale := Stale(r.page);
      nil := false;
      Ring();
      if now.disk.None? && r.page < |contents| { AllHeld(now, contents, r.page); }
      ghost var k := Locate(r);
      Ring(); At(k);
      if !stale { Holds(now, contents, k); }
      if r.pageofs < r.buf.lim {
        x := r.buf.data[r.pageofs];
        r.pageofs := r.pageofs + 1;
      } else if r.page / PAGE_SIZE < length / PAGE_SIZE {
        assert old(Spent(r)) <==> r.page + PAGE_SIZE == |contents|;
        x, nil := ReadOn(r, k);
      } else {
        x, r.eof := 0, true;
      }
    }

    // Fill buffer `b` from offset `ofs` with `n` bytes of `x`; the file now has them.
    method StoreBytes(b: Buffer, ofs: nat, x: array<Byte>, src: nat, n: nat, ghost k: nat)
      requires Shape() && k < |ring| == |now.pages| && b == ring[k] && ofs + n <= PAGE_SIZE && b.page + ofs <= |contents|
      requires Good(Limited(now, k, Lim(|contents|, b.page)), contents, -1)
      requires x !in Repr && src + n <= x.Length
      modifies b`mod, b`lim, b.data, this`now, this`contents
      ensures Shape() && contents == FlatPut(old(contents), b.page + ofs, x[src..src + n]) && |ring| == |now.pages|
      ensures b.lim == if old(b.lim) < ofs + n then ofs + n else old(b.lim)
      ensures Good(Limited(now, k, Lim(|contents|, b.page)), contents, -1)
    {
      hide Good, Shape, Lim, FlatPut;
      Ring(); At(k);
      ghost var g := Limited(now, k, Lim(|contents|, b.page));
      var lim := if b.lim < ofs + n then ofs + n else b.lim;
      PutBytes(b, lim, ofs, x, src, n, k);
      PutGood(g, contents, k, ofs, x[src..src + n]);
      FlatPutSize(contents, b.page + ofs, x[src..src + n]);
      Become(FlatPut(contents, b.page + ofs, x[src..src + n]));
      Ring(); At(k);
      assert Limited(now, k, Lim(|contents|, b.page)) == Put(g, old(contents), k, b.page, g.pages[k].data, ofs, x[src..src + n]);
    }

    // Where rider `r` is when the first `i` bytes of `x` are written, from position `at` of `c`.
    ghost predicate Placed(r: Rider, k: int, x: array<Byte>, i: int, c: seq<Byte>, at: nat)
      reads this, r, r.buf
    {
      && x !in Repr && r !in Repr && r.file == this
      && 0 <= k < |ring| == |now.pages| && r.buf == ring[k] && r.buf.page == r.page
      && r.page % PAGE_SIZE == 0 && r.pageofs <= PAGE_SIZE && 0 <= i <= x.Length
      && at <= |c| && r.Pos() == at + i
    }

    // What the file is then; it was stale at the page that starts at the end of `c` if `late`. As
    // long as the rider is in that page, its buffer counts as full.
    ghost predicate Written(r: Rider, k: int, x: array<Byte>, i: int, c: seq<Byte>, at: nat, late: bool)
      reads this, r, r.buf, x, Repr
    {
      && Shape() && Placed(r, k, x, i, c, at) && contents == FlatPut(c, at, x[..i])
      && length + Missing(late, i) == |contents| + Excess(|c|, at, i)
      && (late ==> at == |c| <= r.page && at % PAGE_SIZE == 0)
      && Good(Limited(now, k, Lim(|contents|, r.page)), contents, -1)
      && r.buf.lim == Reached(|contents|, r.page, at, late)
    }

    // WriteBytes: `n` more bytes, which fit in the rider's page.
    method WriteHere(r: Rider, x: array<Byte>, i: nat, n: nat, ghost k: nat, ghost c: seq<Byte>, ghost at: nat, ghost late: bool)
      requires Written(r, k, x, i, c, at, late) && (i == 0 || r.pageofs == 0) && r.pageofs + n <= PAGE_SIZE && i + n <= x.Length
      modifies Repr, r`pageofs
      ensures Written(r, k, x, i + n, c, at, late) && Repr == old(Repr) && ring == old(ring)
      ensures r.page == old(r.page) && r.pageofs == old(r.pageofs) + n
    {
      hide Good, Shape, PageSet, Excess, FlatPut, Lim, Limited, Missing, Reached;
      WriteStep(c, at, x[..], i, r.page, r.pageofs, n, late, length);
      Ring(); At(k);
      if r.pageofs + n > r.buf.lim {
        Grow(n);
      }
      StoreBytes(r.buf, r.pageofs, x, i, n, k);
      Ring();
      r.pageofs := r.pageofs + n;
    }

    // WriteBytes: the page is full, go on with the next.
    method TurnOver(r: Rider, x: array<Byte>, i: nat, ghost k: nat, ghost c: seq<Byte>, ghost at: nat, ghost late: bool)
        returns (ghost j: nat)
      requires Written(r, k, x, i, c, at, late) && r.pageofs == PAGE_SIZE
      modifies Repr, r
      ensures Written(r, j, x, i, c, at, late) && r.pageofs == 0 && ring == old(ring) && fresh(Repr - old(Repr))
    {
      hide Good, Shape, PageSet, Excess, FlatPut;
      FlatPutSize(c, at, x[..i]);
      Ring(); At(k);
      LimitedSame(now, k);
      r.page, r.pageofs := r.page + PAGE_SIZE, 0;
      var buf;
      buf, j := NextPage(r.buf, r.page, k);
      r.buf := buf;
      Ring(); At(j);
      LimitedSame(now, j);
    }

    lemma Started(r: Rider, k: nat, x: array<Byte>, late: bool)
      requires Shape() && Placed(r, k, x, 0, contents, r.Pos()) && length == |contents|
      requires if late then Late(r.buf, k) && r.pageofs == 0 && r.page == |contents| else Good(now, contents, -1)
      ensures Written(r, k, x, 0, contents, r.Pos(), late)
    {
      hide Good, Shape, Excess, FlatPut;
      ExcessNone(|contents|, r.Pos());
      FlatPutNone(contents, r.Pos(), x[..]);
      Ring(); At(k);
      if !late {
        Within(now, contents, k);
        LimitedSame(now, k);
      }
    }

    lemma Finished(r: Rider, k: nat, x: array<Byte>, i: nat, c: seq<Byte>, at: nat, late: bool)
      requires Written(r, k, x, i, c, at, late) && (i == 0 || r.pageofs > 0)
      ensures Shape() && Rides(r) && r.Pos() == at + i && contents == FlatPut(c, at, x[..i])
      ensures length + Missing(late, i) == |contents| + Excess(|c|, at, i)
      ensures !late || i >= PAGE_SIZE ==> Inv()
      ensures late && i <= PAGE_SIZE ==> Late(r.buf, k)
    {
      hide Good, Shape, Excess, FlatPut, Missing;
      FlatPutSize(c, at, x[..i]);
      Ring(); At(k);
      LimitedSame(now, k);
      if late && i <= PAGE_SIZE {
        SamePage(at, r.page, r.pageofs, i);
      }
    }

    // Write `n` bytes of `x`. The bytes are always right. The length is too large by Excess when
    // the write begins before the end and goes on past it; from a stale page, it is too small by
    // what went into that page, and the page counts as full.
    method WriteBytes(r: Rider, x: array<Byte>, n: int)
      requires Valid() && Rides(r) && n <= x.Length && x !in Repr
      modifies Repr, r
      ensures var m := if n < 0 then 0 else n;
              && Shape() && Rides(r) && r.Pos() == old(r.Pos()) + m
              && contents == FlatPut(old(contents), old(r.Pos()), x[..m])
              && length + Missing(old(Stale(r.page)), m) == |contents| + Excess(|old(contents)|, old(r.Pos()), m)
              && (!old(Stale(r.page)) || m >= PAGE_SIZE ==> Inv())
              && (old(Stale(r.page)) && m <= PAGE_SIZE ==> r.buf != null && exists k :: Late(r.buf, k))
      ensures fresh(Repr - old(Repr)) && forall b :: b in old(ring) ==> b in ring
    {
      hide Good, Shape, PageSet, Excess, FlatPut;
      ghost var c, at, late := contents, r.Pos(), Stale(r.page);
      ghost var k := Locate(r);
      var i := 0;
      Ring();
      Started(r, k, x, late);
      hide Written;
      while i < n
        invariant Written(r, k, x, i, c, at, late) && (i <= n || i == 0) && (i == 0 || r.pageofs == 0 || i == n)
        invariant i == 0 || i < n || r.pageofs > 0
        invariant fresh(Repr - old(Repr)) && forall b :: b in old(ring) ==> b in ring
        decreases n - i, r.pageofs
      {
        var m := r.pageofs + n - i;
        if m <= PAGE_SIZE {
          WriteHere(r, x, i, n - i, k, c, at, late);
          i := n;
        } else {
          m := PAGE_SIZE - r.pageofs;
          WriteHere(r, x, i, m, k, c, at, late);
          i := i + m;
          k := TurnOver(r, x, i, k, c, at, late);
        }
      }
      Finished(r, k, x, i, c, at, late);
    }

    method Unbuffer()
      requires Inv() && handle != null
      modifies Repr
      ensures Inv() && contents == old(contents) && length == old(length) && ring == old(ring)
      ensures handle == old(handle) && handle.bytes == contents && Repr == old(Repr)
    {
      hide Good, Shape, OnDisk, PageSet, Overwrite;
      Ring();
      var buf, done := firstbuf, false;
      ghost var k := 0;
      while !done
        invariant Inv() && contents == old(contents) && length == old(length) && ring == old(ring) != []
        invariant handle == old(handle) && handle != null && Repr == old(Repr)
        invariant k <= |ring| == |now.pages| && (if done then k == |ring| else k < |ring| && buf == ring[k])
        invariant forall i :: 0 <= i < k ==> !now.pages[i].mod
        decreases !done, |ring| - k
      {
        Ring(); At(k);
        if buf.mod {
          WriteBuf(buf, k);
        }
        Ring(); At(k);
        buf := buf.next;
        k := k + 1;
        done := buf == firstbuf;
      }
      Ring();
      AllClean(now, contents);
    }

    method Register()
      requires Inv()
      modifies Repr
      ensures Inv() && contents == old(contents) && length == old(length) && ring == old(ring)
      ensures handle != null && handle.bytes == contents && fresh(Repr - old(Repr))
    {
      hide Good, Shape, PageSet;
      Ring();
      if handle == null {
        CreateFile();
      }
      Unbuffer();
    }

    method Close()
      requires Inv()
      modifies Repr
      ensures Inv() && contents == old(contents) && length == old(length) && ring == old(ring)
      ensures handle == old(handle) && (handle != null ==> handle.bytes == contents) && Repr == old(Repr)
    {
      if handle != null {
        Unbuffer();
      }
    }
  }

  class Rider {
    var eof: bool
    var file: File?
    var page: nat
    var pageofs: nat
    var buf: Buffer?

    constructor ()
      ensures file == null
    {
      eof, file, page, pageofs, buf := false, null, 0, 0, null;
    }

    function Pos(): nat
      reads this
    {
      page + pageofs
    }

    // Position at `pos`, or at the nearer end of the file.
    method Set(f: File?, pos: int)
      requires f != null ==> f.Valid() && this !in f.Repr
      modifies this
      ensures file == f
      ensures f != null ==> f.Rides(this) && pageofs < PAGE_SIZE
      ensures f != null ==> Pos() == if pos <= 0 then 0 else if pos < |f.contents| then pos else |f.contents|
    {
      eof := false;
      if f != null {
        if pos <= 0 {
          page, pageofs := 0, 0;
        } else if pos < f.length {
          page, pageofs := PAGE_SIZE * (pos / PAGE_SIZE), pos % PAGE_SIZE;
        } else {
          page, pageofs := PAGE_SIZE * (f.length / PAGE_SIZE), f.length % PAGE_SIZE;
        }
        file, buf := f, f.firstbuf;
      } else {
        file := null;
      }
    }
  }
}
