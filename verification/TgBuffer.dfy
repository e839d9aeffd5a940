// src/buffer.c: a growable byte buffer.

module TgBuffer {
  import opened Common

  // data written over the bytes of s from pos on
  function Splice(s: seq<byte>, pos: nat, data: seq<byte>): (r: seq<byte>)
    requires pos <= |s|
    ensures |r| == if pos + |data| > |s| then pos + |data| else |s|
  {
    s[..pos] + data + if pos + |data| < |s| then s[pos + |data|..] else []
  }

  // Each byte comes from the data or stays as it was.
  lemma SpliceAt(s: seq<byte>, pos: nat, data: seq<byte>, i: nat)
    requires pos <= |s| && i < |Splice(s, pos, data)|
    ensures Splice(s, pos, data)[i] == if pos <= i < pos + |data| then data[i - pos] else s[i]
  {
  }

  // Memory before and after data was written at pos, as far as the contents go.
  lemma Written(before: seq<byte>, size: nat, pos: nat, data: seq<byte>, after: seq<byte>)
    requires size <= |before| == |after| && pos + |data| <= |before|
    requires after[..pos] == before[..pos] && after[pos..pos + |data|] == data
    requires after[pos + |data|..] == before[pos + |data|..]
    ensures var end := if size < pos + |data| then pos + |data| else size;
      && (pos <= size ==> after[..end] == Splice(before[..size], pos, data))
      && (pos > size ==> after[..end][..size] == before[..size] && after[..end][pos..] == data)
  {
    assert after == before[..pos] + data + before[pos + |data|..];
  }

  class Buffer {
    var ptr: array<byte>
    var size: nat

    ghost predicate Valid()
      reads this
    {
      size <= ptr.Length  // the capacity
    }

    ghost function Contents(): seq<byte>
      requires Valid()
      reads this, ptr
    {
      ptr[..size]
    }

    // buffer_new
    constructor ()
      ensures Valid() && Contents() == [] && fresh(ptr) && ptr.Length == 100
    {
      ptr, size := new byte[100], 0;
    }

    // realloc: what fitted before is kept.
    method Grow(capacity: nat)
      requires Valid() && capacity >= ptr.Length
      modifies `ptr
      ensures Valid() && fresh(ptr) && ptr.Length == capacity && Contents() == old(Contents())
    {
      var p := new byte[capacity];
      for i := 0 to size
        invariant fresh(p) && ptr == old(ptr) && ptr[..] == old(ptr[..]) && size == old(size)
        invariant forall k :: 0 <= k < i ==> p[k] == ptr[k]
      {
        p[i] := ptr[i];
      }
      ptr := p;
    }

    // buffer_append
    method Append(data: seq<byte>)
      requires Valid()
      modifies this, ptr
      ensures Valid() && Contents() == old(Contents()) + data
      ensures if old(size) + |data| >= old(ptr.Length) then fresh(ptr) && ptr.Length == old(ptr.Length) + |data|
              else ptr == old(ptr)
    {
      if size + |data| >= ptr.Length {
        Grow(ptr.Length + |data|);
      }
      Copy(size, data);
      size := size + |data|;
    }

    // memcpy into the buffer
    method Copy(pos: nat, data: seq<byte>)
      requires Valid() && pos + |data| <= ptr.Length
      modifies ptr
      ensures ptr[..pos] == old(ptr[..pos]) && ptr[pos..pos + |data|] == data
      ensures ptr[pos + |data|..] == old(ptr[pos + |data|..])
    {
      for i := 0 to |data|
        invariant ptr[..pos] == old(ptr[..pos]) && ptr[pos..pos + i] == data[..i]
        invariant ptr[pos + |data|..] == old(ptr[pos + |data|..])
      {
        ptr[pos + i] := data[i];
      }
    }

    // buffer_insert. Behind the end it leaves a gap of whatever the memory held.
    method Insert(pos: nat, data: seq<byte>)
      requires Valid()
      modifies this, ptr
      ensures Valid()
      ensures if pos + |data| >= old(ptr.Length) then fresh(ptr) && ptr.Length == pos + |data| else ptr == old(ptr)
      ensures size == if pos + |data| > old(size) then pos + |data| else old(size)
      ensures pos <= old(size) ==> Contents() == Splice(old(Contents()), pos, data)
      ensures pos > old(size) ==> Contents()[..old(size)] == old(Contents()) && Contents()[pos..] == data
    {
      if pos + |data| >= ptr.Length {
        Grow(pos + |data|);
      }
      ghost var before := ptr[..];
      assert before[..size] == old(Contents());
      Copy(pos, data);
      Written(before, size, pos, data, ptr[..]);
      assert ptr[..][..pos] == ptr[..pos] && ptr[..][pos..pos + |data|] == ptr[pos..pos + |data|];
      if size < pos + |data| {
        size := pos + |data|;
      }
    }
  }
}
