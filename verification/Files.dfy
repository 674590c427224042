/** The byte files underneath the write-ahead log. */
module Files {
  import opened Bytes

  function Zeros(n: nat): (z: Bytes)
    ensures |z| == n && forall i :: 0 <= i < n ==> z[i] == 0
  {
    seq(n, _ => 0)
  }

  /** Writing past the end grows the file, filling any gap with zeros. */
  function Written(data: Bytes, off: nat, buf: Bytes): (r: Bytes)
    ensures |r| == if off + |buf| > |data| then off + |buf| else |data|
    ensures forall i :: 0 <= i < |r| ==>
      r[i] == if off <= i < off + |buf| then buf[i - off] else if i < |data| then data[i] else 0
  {
    var end := off + |buf|;
    var grown := if end > |data| then data + Zeros(end - |data|) else data;
    grown[..off] + buf + grown[end..]
  }

  function Truncated(data: Bytes, size: nat): (r: Bytes)
    ensures |r| == size
    ensures forall i :: 0 <= i < size ==> r[i] == if i < |data| then data[i] else 0
  {
    if size <= |data| then data[..size] else data + Zeros(size - |data|)
  }

  /** Bytes that a write does not reach stay as they were. */
  lemma WrittenElsewhere(data: Bytes, off: nat, buf: Bytes, a: nat, b: nat)
    requires a <= b <= |data| && (b <= off || off + |buf| <= a)
    ensures Written(data, off, buf)[a..b] == data[a..b]
  {
  }

  lemma WrittenThere(data: Bytes, off: nat, buf: Bytes)
    ensures Written(data, off, buf)[off..off + |buf|] == buf
  {
  }

  /** Writing two adjacent pieces is writing them at once. */
  lemma WrittenTwice(data: Bytes, off: nat, x: Bytes, y: Bytes)
    ensures Written(Written(data, off, x), off + |x|, y) == Written(data, off, x + y)
  {
  }

  class MemoryFile {
    var data: Bytes

    constructor ()
      ensures data == []
    {
      data := [];
    }

    /** Reads n bytes; fails at or past the end of the file. */
    method ReadAt(n: nat, offset: int) returns (buf: Bytes, ok: bool)
      ensures ok <==> 0 <= offset < |data| && offset + n <= |data|
      ensures ok ==> buf == data[offset..offset + n]
    {
      buf, ok := [], false;
      if offset < 0 || offset >= |data| || offset + n > |data| {
        return;
      }
      buf, ok := data[offset..offset + n], true;
    }

    method WriteAt(buf: Bytes, offset: int) returns (ok: bool)
      modifies this
      ensures ok <==> 0 <= offset
      ensures data == if ok then Written(old(data), offset, buf) else old(data)
    {
      if offset < 0 {
        return false;
      }
      var end := offset + |buf|;
      var grown := data;
      if end > |data| {
        grown := data + Zeros(end - |data|);
      }
      data := grown[..offset] + buf + grown[end..];
      ok := true;
    }

    method Truncate(size: int) returns (ok: bool)
      modifies this
      ensures ok <==> 0 <= size
      ensures data == if ok then Truncated(old(data), size) else old(data)
    {
      if size < 0 {
        return false;
      }
      data := if size <= |data| then data[..size] else data + Zeros(size - |data|);
      ok := true;
    }
  }
}
