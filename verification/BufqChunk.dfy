// curl-8.13.0/lib/bufq.c: one chunk of a byte queue, and lists of chunks.

module BufqChunk {
  import opened Common

  // The part of CURLcode that the queue inspects. A callback may report any other code.
  datatype Code = Ok | Again | OutOfMemory | Other(code: nat)

  // struct buf_chunk: a fixed buffer whose unread content is data[r..w].
  class Chunk {
    var next: Chunk?
    var r: nat
    var w: nat
    const data: array<byte>

    constructor (dlen: nat)
      ensures next == null && r == w == 0 && data.Length == dlen && fresh(data)
    {
      next := null;
      r, w := 0, 0;
      data := new byte[dlen](_ => 0);
    }

    ghost predicate Sane()
      reads this`r, this`w
    {
      r <= w <= data.Length && (r == w ==> r == 0)
    }

    // The unread bytes.
    ghost function View(): (v: seq<byte>)
      requires Sane()
      reads this`r, this`w, data
      ensures |v| == w - r
    {
      data[r..w]
    }

    predicate IsEmpty()
      reads this`r, this`w
    {
      r >= w
    }

    predicate IsFull()
      reads this`w
    {
      w >= data.Length
    }

    method Reset()
      modifies this
      ensures next == null && r == w == 0
    {
      next := null;
      r, w := 0, 0;
    }

    // chunk_append
    method Append(buf: seq<byte>) returns (n: nat)
      requires Sane()
      modifies this`w, data
      ensures Sane()
      ensures n == Min(|buf|, data.Length - old(w))
      ensures w == old(w) + n
      ensures View() == old(View()) + buf[..n]
    {
      n := data.Length - w;
      if n != 0 {
        n := Min(n, |buf|);
        forall i | 0 <= i < n {
          data[w + i] := buf[i];
        }
        w := w + n;
      }
    }

    // chunk_read: `out` is what the caller's buffer receives.
    method Read(len: nat) returns (out: seq<byte>)
      requires Sane()
      modifies this`r, this`w
      ensures Sane()
      ensures var n := Min(len, |old(View())|); out == old(View())[..n] && View() == old(View())[n..]
      ensures View() == [] || w == old(w)
    {
      ghost var v := View();
      var n := w - r;
      if n == 0 {
        out := [];
      } else if n <= len {
        out := data[r..w];
        r, w := 0, 0;
      } else {
        out := data[r..r + len];
        assert out == v[..len];
        r := r + len;
      }
    }

    // chunk_unwrite
    method Unwrite(len: nat) returns (n: nat)
      requires Sane()
      modifies this`r, this`w
      ensures Sane()
      ensures n == Min(len, |old(View())|) && View() == old(View())[..|old(View())| - n]
    {
      n := w - r;
      if n == 0 {
      } else if n <= len {
        r, w := 0, 0;
      } else {
        w := w - len;
        n := len;
      }
    }

    // chunk_skip
    method Skip(amount: nat) returns (n: nat)
      requires Sane()
      modifies this`r, this`w
      ensures Sane()
      ensures n == Min(amount, |old(View())|) && View() == old(View())[n..]
      ensures View() == [] || w == old(w)
    {
      n := w - r;
      if n != 0 {
        n := Min(n, amount);
        r := r + n;
        if r == w {
          r, w := 0, 0;
        }
      }
    }
  }

  // `anchor` starts a NULL-terminated list of exactly the chunks of s.
  ghost predicate Linked(anchor: Chunk?, s: seq<Chunk>)
    reads s`next
  {
    && anchor == (if s == [] then null else s[0])
    && forall i {:trigger s[i].next} :: 0 <= i < |s| ==> s[i].next == After(s, i)
  }

  ghost function After(s: seq<Chunk>, i: nat): Chunk? {
    if i + 1 < |s| then s[i + 1] else null
  }

  // Chunks of capacity dlen, no two of which share memory.
  ghost predicate Apart(s: seq<Chunk>, dlen: nat) {
    && (forall i, j :: 0 <= i < j < |s| ==> s[i].data != s[j].data)
    && (forall i :: 0 <= i < |s| ==> s[i].data.Length == dlen)
  }

  // A well formed, hence acyclic, list of chunks of capacity dlen.
  ghost predicate List(anchor: Chunk?, s: seq<Chunk>, dlen: nat)
    reads s`next
  {
    Linked(anchor, s) && Apart(s, dlen)
  }

  // c is not one of the chunks of s and shares no memory with them.
  ghost predicate Outside(c: Chunk, s: seq<Chunk>) {
    forall x :: x in s ==> x.data != c.data
  }

  // No chunk of a shares memory with a chunk of b.
  ghost predicate Disjoint(a: seq<Chunk>, b: seq<Chunk>) {
    forall x, y :: x in a && y in b ==> x.data != y.data
  }

  // Putting a chunk in front of a list.
  lemma ListPush(c: Chunk, rest: Chunk?, s: seq<Chunk>, dlen: nat)
    requires List(rest, s, dlen) && Outside(c, s) && c.data.Length == dlen && c.next == rest
    ensures List(c, [c] + s, dlen)
  {
    var t := [c] + s;
    assert forall i :: 0 < i < |t| ==> t[i] == s[i - 1] && t[i] in s;
  }

  // Taking the first chunk off a list.
  lemma ListPop(anchor: Chunk?, s: seq<Chunk>, dlen: nat)
    requires s != [] && List(anchor, s, dlen)
    ensures anchor == s[0] && s[0].data.Length == dlen
    ensures List(s[0].next, s[1..], dlen) && Outside(s[0], s[1..])
  {
    assert forall i {:trigger s[1..][i]} :: 0 <= i < |s| - 1 ==> s[1..][i] == s[i + 1];
  }

  lemma DisjointPop(s: seq<Chunk>, b: seq<Chunk>)
    requires s != [] && Disjoint(s, b)
    ensures Disjoint(s[1..], b) && Outside(s[0], b)
  {
  }

  lemma DisjointSnoc(s: seq<Chunk>, c: Chunk, b: seq<Chunk>)
    requires Disjoint(s, b) && Outside(c, b)
    ensures Disjoint(s + [c], b)
  {
  }

  lemma FootSnoc(s: seq<Chunk>, c: Chunk)
    ensures Foot(s + [c]) == Foot(s) + {c, c.data}
    ensures Arrays(s + [c]) == Arrays(s) + {c.data}
  {
    assert forall x :: x in s + [c] <==> x in s || x == c;
  }

  lemma FootPop(s: seq<Chunk>)
    requires s != []
    ensures Foot(s) == Foot(s[1..]) + {s[0], s[0].data}
  {
    assert s == [s[0]] + s[1..];
  }

  // Linking a chunk behind the last one; `c.next` is NULL and the old last chunk now points at c.
  lemma ListSnoc(anchor: Chunk, s: seq<Chunk>, c: Chunk, dlen: nat)
    requires s != [] && Apart(s, dlen) && Outside(c, s) && c.data.Length == dlen
    requires anchor == s[0] && c.next == null && s[|s| - 1].next == c
    requires forall i {:trigger s[i].next} :: 0 <= i < |s| - 1 ==> s[i].next == s[i + 1]
    ensures List(anchor, s + [c], dlen)
  {
    var t := s + [c];
    assert t[|s|] == c;
    forall i | 0 <= i < |t|
      ensures t[i].next == After(t, i)
    {
      if i < |s| - 1 {
        assert t[i] == s[i] && t[i + 1] == s[i + 1];
      }
    }
    assert forall i :: 0 <= i < |s| ==> t[i] == s[i] && s[i] in s;
  }

  // Cutting the last chunk off, its predecessor pointing nowhere now.
  lemma ListCut(anchor: Chunk, s: seq<Chunk>, dlen: nat)
    requires |s| > 1 && Apart(s, dlen) && anchor == s[0]
    requires forall i {:trigger s[i].next} :: 0 <= i < |s| - 2 ==> s[i].next == s[i + 1]
    requires s[|s| - 2].next == null
    ensures List(anchor, s[..|s| - 1], dlen)
  {
    var t := s[..|s| - 1];
    forall i | 0 <= i < |t|
      ensures t[i].next == After(t, i)
    {
      assert t[i] == s[i];
      if i + 1 < |t| {
        assert t[i + 1] == s[i + 1];
      }
    }
  }

  lemma LastOnce(s: seq<Chunk>, i: nat, dlen: nat)
    requires Apart(s, dlen) && i < |s| && s[i] == s[|s| - 1]
    ensures i == |s| - 1
  {
  }

  lemma ListOne(c: Chunk, dlen: nat)
    requires c.next == null && c.data.Length == dlen
    ensures List(c, [c], dlen)
  {
  }

  lemma ListAnchor(anchor: Chunk?, s: seq<Chunk>, dlen: nat)
    requires List(anchor, s, dlen)
    ensures anchor == null <==> s == []
    ensures s != [] ==> anchor == s[0]
  {
  }

  // The buffers of the chunks of s, and all their memory.
  ghost function Arrays(s: seq<Chunk>): (f: set<object>)
    ensures forall c :: c in s ==> c.data in f
  {
    set c | c in s :: c.data as object
  }

  ghost function Foot(s: seq<Chunk>): (f: set<object>)
    ensures forall c :: c in s ==> c in f && c.data in f
  {
    (set c | c in s :: c as object) + Arrays(s)
  }

  lemma DisjointFoot(a: seq<Chunk>, b: seq<Chunk>)
    ensures Disjoint(a, b) <==> Foot(a) !! Foot(b)
  {
    forall x, y | Disjoint(a, b) && x in a && y in b
      ensures x != y && x.data != y.data
    {
    }
  }

  lemma OutsideFoot(c: Chunk, s: seq<Chunk>)
    requires Outside(c, s)
    ensures c !in s && c !in Foot(s) && c.data !in Foot(s)
  {
  }

  // struct bufc_pool: spare chunks shared by any number of queues.
  class BufcPool {
    var spare: Chunk?
    const chunkSize: nat
    var spareCount: nat
    const spareMax: nat
    const plenty: bool  // no allocation ever fails
    ghost var list: seq<Chunk>

    // Curl_bufcp_init
    constructor (chunkSize: nat, spareMax: nat, plenty: bool)
      requires 0 < chunkSize && 0 < spareMax
      ensures Valid() && list == [] && fresh(Repr())
      ensures this.chunkSize == chunkSize && this.spareMax == spareMax && this.plenty == plenty
    {
      spare := null;
      this.chunkSize := chunkSize;
      spareCount := 0;
      this.spareMax := spareMax;
      this.plenty := plenty;
      list := [];
    }

    ghost function Repr(): set<object>
      reads this
    {
      {this} + Foot(list)
    }

    ghost predicate Valid()
      reads this, list`next
    {
      && 0 < chunkSize && 0 < spareMax
      && List(spare, list, chunkSize)
      && spareCount == |list| <= spareMax
    }

    // bufcp_take: null when the allocation fails.
    method Take() returns (c: Chunk?)
      requires Valid()
      modifies this, if list == [] then {} else {list[0]}
      ensures Valid()
      ensures old(list) != [] ==> c == old(list)[0] && list == old(list)[1..]
      ensures old(list) == [] ==> list == [] && (c != null ==> fresh(c) && fresh(c.data))
      ensures c != null ==> c !in list && c.next == null && c.r == c.w == 0 && c.data.Length == chunkSize
      ensures plenty ==> c != null
    {
      if spare != null {
        c := spare;
        spare := c.next;
        spareCount := spareCount - 1;
        ListPop(c, list, chunkSize);
        list := list[1..];
        c.Reset();
        return;
      }
      if !plenty {
        if * {
          return null;  // out of memory
        }
      }
      c := new Chunk(chunkSize);
    }

    // bufcp_put: keeps the chunk unless the pool holds its maximum already.
    method Put(c: Chunk)
      requires Valid() && Outside(c, list) && c.data.Length == chunkSize
      modifies this, c
      ensures Valid()
      ensures list == if |old(list)| < spareMax then [c] + old(list) else old(list)
    {
      if spareCount >= spareMax {
      } else {
        c.Reset();
        c.next := spare;
        ListPush(c, spare, list, chunkSize);
        spare := c;
        spareCount := spareCount + 1;
        list := [c] + list;
      }
    }
  }
}
