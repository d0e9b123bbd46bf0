/**
 The FIFO buffer (buffer.c): a byte queue kept in one block of memory that is compacted and
 grown when room is needed.
 */
module Buffers {
  import opened Bytes
  import Memmove

  lemma SameSlice(a: seq<byte>, b: seq<byte>, n: nat, from: nat, to: nat)
    requires from <= to <= n <= |a| && n <= |b| && a[..n] == b[..n]
    ensures a[from..to] == b[from..to]
  {
    assert forall k :: from <= k < to ==> a[k] == a[..n][k] && b[k] == b[..n][k];
  }

  class Buffer {
    /** The block of memory; its length is the field alloc. */
    var buf: array<byte>
    var offset: nat
    var end: nat

    ghost predicate Valid()
      reads this
    {
      offset <= end <= buf.Length
    }

    /** The queue: what was appended and not yet consumed. */
    function Contents(): (s: seq<byte>)
      requires Valid()
      reads this, buf
      ensures |s| == end - offset
    {
      buf[offset..end]
    }

    /** buffer_init */
    constructor ()
      ensures Valid() && fresh(buf) && Contents() == []
    {
      buf := new byte[4096];
      offset, end := 0, 0;
    }

    /** buffer_clear */
    method Clear()
      modifies this
      ensures Valid() && Contents() == [] && buf == old(buf)
    {
      offset, end := 0, 0;
    }

    /** buffer_len */
    method Len() returns (n: nat)
      requires Valid()
      ensures n == |Contents()|
    {
      n := end - offset;
    }

    /**
     buffer_append_space: room for len more octets, from index at on.  The loop around the label
     restart ends after at most one compaction and one growth.
     */
    method AppendSpace(len: nat) returns (at: nat, ghost compactions: nat, ghost growths: nat)
      requires Valid()
      modifies this, buf
      ensures Valid() && (buf == old(buf) || fresh(buf))
      ensures at + len == end < buf.Length && offset <= at
      ensures buf[offset..at] == old(Contents())
      ensures compactions <= 1 && growths <= 1
    {
      compactions, growths := 0, 0;
      if offset == end {
        offset, end := 0, 0;
      }
      ghost var q := old(Contents());
      assert Contents() == q;
      while true
        invariant Valid() && (buf == old(buf) || fresh(buf)) && Contents() == q
        invariant compactions <= 1 && growths <= 1
        invariant compactions == 1 ==> offset == 0
        invariant growths == 1 ==> end + len < buf.Length
        decreases 1 - growths, 1 - compactions
      {
        if end + len < buf.Length {
          at := end;
          end := end + len;
          return;
        }
        if offset > buf.Length / 2 {
          Compact();
          compactions := compactions + 1;
        } else {
          Grow(len + 4096);
          growths := growths + 1;
        }
      }
    }

    /** Moves the data to the beginning. */
    method Compact()
      requires Valid() && offset > 0
      modifies this, buf
      ensures Valid() && buf == old(buf) && offset == 0 && Contents() == old(Contents())
    {
      Memmove.Move(buf, 0, offset, end - offset);
      end := end - offset;
      offset := 0;
      assert buf[offset..end] == old(buf[offset..end]);
    }

    /** xrealloc: a larger block that starts with the old one. */
    method Grow(more: nat)
      requires Valid()
      modifies this
      ensures Valid() && fresh(buf) && buf.Length == old(buf.Length) + more
      ensures offset == old(offset) && end == old(end) && Contents() == old(Contents())
    {
      var larger := new byte[buf.Length + more];
      var k := 0;
      while k < buf.Length
        invariant k <= buf.Length && larger[..k] == buf[..k]
        modifies larger
      {
        larger[k] := buf[k];
        k := k + 1;
      }
      SameSlice(larger[..], buf[..], k, offset, end);
      buf := larger;
    }

    /** buffer_append */
    method Append(data: seq<byte>)
      requires Valid()
      modifies this, buf
      ensures Valid() && (buf == old(buf) || fresh(buf))
      ensures Contents() == old(Contents()) + data
    {
      ghost var q := Contents();
      var at;
      ghost var c, g;
      at, c, g := AppendSpace(|data|);
      Put(at, data);
    }

    /** Copies data into room that was appended. */
    method Put(at: nat, data: seq<byte>)
      requires Valid() && offset <= at && at + |data| == end
      modifies buf
      ensures Valid() && Contents() == old(buf[offset..at]) + data
    {
      ghost var q := buf[offset..at];
      var k := 0;
      while k < |data|
        invariant k <= |data|
        invariant buf[offset..at] == q && buf[at..at + k] == data[..k]
      {
        buf[at + k] := data[k];
        k := k + 1;
      }
      assert buf[offset..end] == buf[offset..at] + buf[at..end];
      assert data[..k] == data;
    }

    /** buffer_get; the program stops when there is too little data. */
    method Get(len: nat) returns (ok: bool, data: seq<byte>)
      requires Valid()
      modifies this
      ensures Valid() && buf == old(buf)
      ensures ok <==> len <= |old(Contents())|
      ensures ok ==> data + Contents() == old(Contents()) && |data| == len
      ensures !ok ==> Contents() == old(Contents())
    {
      if len > end - offset {
        return false, [];
      }
      ok, data := true, buf[offset..offset + len];
      offset := offset + len;
    }

    /** buffer_consume */
    method Consume(bytes: nat) returns (ok: bool)
      requires Valid()
      modifies this
      ensures Valid() && buf == old(buf)
      ensures ok <==> bytes <= |old(Contents())|
      ensures Contents() == if ok then old(Contents())[bytes..] else old(Contents())
    {
      if bytes > end - offset {
        return false;
      }
      offset := offset + bytes;
      ok := true;
    }

    /** buffer_consume_end */
    method ConsumeEnd(bytes: nat) returns (ok: bool)
      requires Valid()
      modifies this
      ensures Valid() && buf == old(buf)
      ensures ok <==> bytes <= |old(Contents())|
      ensures Contents() == if ok then old(Contents())[..|old(Contents())| - bytes] else old(Contents())
    {
      if bytes > end - offset {
        return false;
      }
      end := end - bytes;
      ok := true;
    }
  }
}
