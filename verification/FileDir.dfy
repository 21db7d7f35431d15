// The host file store below Files (FileDir): a flat sequence of bytes and a
// file position.  Everything above it is proved against this interface.
module FileDir {
  import opened Words

  // Bytes that a read of `n` bytes at `at` delivers.
  function Available(s: seq<Byte>, at: nat, n: nat): nat {
    if |s| <= at then 0 else if |s| - at < n then |s| - at else n
  }

  // POSIX write: extends the store, filling a gap with zeros; writing nothing changes nothing.
  function Overwrite(s: seq<Byte>, at: nat, data: seq<Byte>): (r: seq<Byte>)
    ensures |data| == 0 ==> r == s
    ensures |data| > 0 ==> |r| == if |s| < at + |data| then at + |data| else |s|
    ensures forall k :: at <= k < at + |data| ==> r[k] == data[k - at]
    ensures forall k :: 0 <= k < |s| && !(at <= k < at + |data|) ==> r[k] == s[k]
  {
    if |data| == 0 then s
    else
      var head := if at <= |s| then s[..at] else s + seq(at - |s|, i => 0);
      head + data + (if at + |data| < |s| then s[at + |data|..] else [])
  }

  class Handle {
    var bytes: seq<Byte>
    var pos: nat

    constructor Create()
      ensures bytes == [] && pos == 0
    {
      bytes, pos := [], 0;
    }

    method Seek(p: nat)
      modifies this`pos
      ensures pos == p
    {
      pos := p;
    }

    method Read(n: nat, buf: array<Byte>) returns (read: nat)
      requires n <= buf.Length
      modifies this`pos, buf
      ensures read == Available(bytes, old(pos), n)
      ensures forall k :: 0 <= k < read ==> buf[k] == bytes[old(pos) + k]
      ensures forall k :: read <= k < buf.Length ==> buf[k] == old(buf[k])
    {
      read := Available(bytes, pos, n);
      for i := 0 to read
        invariant pos == old(pos)
        invariant forall k :: 0 <= k < i ==> buf[k] == bytes[pos + k]
        invariant forall k :: i <= k < buf.Length ==> buf[k] == old(buf[k])
      {
        buf[i] := bytes[pos + i];
      }
      pos := pos + read;
    }

    method Write(n: nat, buf: array<Byte>)
      requires n <= buf.Length
      modifies this
      ensures bytes == Overwrite(old(bytes), old(pos), buf[..n])
    {
      bytes := Overwrite(bytes, pos, buf[..n]);
      pos := pos + n;
    }
  }
}
