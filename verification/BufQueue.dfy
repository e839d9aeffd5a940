// curl-8.13.0/lib/bufq.c: a queue of bytes kept in a list of chunks.

module BufQueue {
  import opened Common
  import opened BufqChunk
  import opened BufqCallbacks

  // The chunks hold `parts`. Only the first may have been read empty, and only the last may have been
  // cut short.
  ghost predicate Holds(hs: seq<Chunk>, parts: seq<seq<byte>>, dlen: nat)
    reads hs`r, hs`w, Arrays(hs)
  {
    && |parts| == |hs|
    && (forall i :: 0 <= i < |hs| ==> hs[i].Sane() && hs[i].View() == parts[i])
    && (forall i :: 0 <= i < |hs| - 1 ==> if parts[i] == [] then i == 0 else hs[i].w == dlen)
  }

  // struct bufq
  class Bufq {
    var head: Chunk?
    var tail: Chunk?
    var spare: Chunk?
    const pool: BufcPool?
    var chunkCount: nat
    const maxChunks: nat
    const chunkSize: nat
    const soft: bool      // BUFQ_OPT_SOFT_LIMIT
    const noSpares: bool  // BUFQ_OPT_NO_SPARES
    const plenty: bool    // no allocation ever fails

    ghost var hs: seq<Chunk>          // the chunks from head to tail
    ghost var ss: seq<Chunk>          // the spare chunks
    ghost var parts: seq<seq<byte>>   // what each chunk of hs holds

    // bufq_init
    constructor (pool: BufcPool?, chunkSize: nat, maxChunks: nat, soft: bool, noSpares: bool, plenty: bool)
      requires 0 < chunkSize && 0 < maxChunks
      requires pool != null ==> pool.Valid() && pool.chunkSize == chunkSize && pool.plenty == plenty
      ensures Valid() && Content() == [] && fresh(Repr())
      ensures this.pool == pool && this.chunkSize == chunkSize && this.maxChunks == maxChunks
      ensures this.soft == soft && this.noSpares == noSpares && this.plenty == plenty
    {
      head, tail, spare := null, null, null;
      this.pool := pool;
      chunkCount := 0;
      this.maxChunks := maxChunks;
      this.chunkSize := chunkSize;
      this.soft := soft;
      this.noSpares := noSpares;
      this.plenty := plenty;
      hs, ss, parts := [], [], [];
    }

    // The memory of this queue, and that together with the memory of its pool.
    ghost function Repr(): set<object>
      reads `hs, `ss
    {
      {this} + Foot(hs) + Foot(ss)
    }

    ghost function Mem(): (m: set<object>)
      reads `hs, `ss, pool
      ensures this in m && Foot(hs) <= m && Foot(ss) <= m
      ensures pool != null ==> pool.Repr() <= m
    {
      Repr() + if pool == null then {} else pool.Repr()
    }

    // The bytes in the queue, oldest first.
    ghost function Content(): seq<byte>
      reads `parts
    {
      Flatten(parts)
    }

    // The two lists are well formed and share no memory.
    ghost predicate Lists()
      reads `head, `tail, `spare, `hs, `ss, hs`next, ss`next
    {
      && List(head, hs, chunkSize) && List(spare, ss, chunkSize) && Disjoint(hs, ss)
      && tail == (if hs == [] then null else hs[|hs| - 1])
    }

    // The counters agree with the lists while `loose` chunks are counted but in no list.
    ghost predicate Counted(loose: nat)
      reads `chunkCount, `hs, `ss
    {
      && 0 < chunkSize && 0 < maxChunks
      && chunkCount == |hs| + |ss| + loose
      && (!soft ==> chunkCount <= maxChunks)
    }

    ghost predicate Shape(loose: nat)
      reads this, hs, Arrays(hs), ss`next
    {
      Lists() && Counted(loose) && Holds(hs, parts, chunkSize)
    }

    ghost predicate PoolOk()
      reads `hs, `ss, pool, (if pool == null then [] else pool.list)`next
    {
      pool != null ==>
        && pool.Valid() && pool.chunkSize == chunkSize && pool.plenty == plenty
        && Disjoint(hs, pool.list) && Disjoint(ss, pool.list)
    }

    // Between operations no chunk but the last is empty.
    ghost predicate Valid()
      reads this, hs, Arrays(hs), ss`next, pool, (if pool == null then [] else pool.list)`next
    {
      && Shape(0) && PoolOk()
      && (|hs| > 1 ==> parts[0] != [])
    }

    // c is counted but in no list.
    ghost predicate Loose(c: Chunk)
      reads `hs, `ss, pool
    {
      && c.data.Length == chunkSize
      && Outside(c, hs) && Outside(c, ss)
      && (pool != null ==> Outside(c, pool.list))
    }

    // How many more bytes the queue takes under a hard limit.
    ghost function Room(): nat
      reads `tail, `hs, tail
    {
      (if tail == null || tail.w > chunkSize then 0 else chunkSize - tail.w) + Capacity(chunkSize, maxChunks, |hs|)
    }

    // ---- chunk housekeeping ----

    // The shared tail of the loops in prune_head and prune_tail: where an emptied chunk goes.
    method Recycle(c: Chunk)
      requires Shape(1) && PoolOk() && Loose(c)
      modifies this`spare, this`chunkCount, this`ss, c, pool
      ensures Shape(0) && PoolOk()
      ensures Mem() <= old(Mem()) + {c, c.data}
      ensures var keep := pool == null && old(chunkCount) <= maxChunks && !noSpares;
        && ss == (if keep then [c] + old(ss) else old(ss))
        && chunkCount == old(chunkCount) - if keep then 0 else 1
      ensures pool != null ==>
        pool.list == if |old(pool.list)| < pool.spareMax then [c] + old(pool.list) else old(pool.list)
    {
      hide List, Holds;
      if pool != null {
        GiveToPool(c);
      } else if chunkCount > maxChunks || noSpares {
        assert this !in Foot(hs);
        chunkCount := chunkCount - 1;
        assert Holds(hs, parts, chunkSize);
      } else {
        KeepSpare(c);
      }
    }

    method GiveToPool(c: Chunk)
      requires pool != null && Shape(1) && PoolOk() && Loose(c)
      modifies this`chunkCount, c, pool
      ensures Shape(0) && PoolOk()
      ensures Foot(pool.list) <= old(Foot(pool.list)) + {c, c.data}
      ensures chunkCount == old(chunkCount) - 1
      ensures pool.list == if |old(pool.list)| < pool.spareMax then [c] + old(pool.list) else old(pool.list)
    {
      hide List, Holds;
      OutsideFoot(c, hs);
      pool.Put(c);
      chunkCount := chunkCount - 1;
      assert List(head, hs, chunkSize) && List(spare, ss, chunkSize);
      assert Holds(hs, parts, chunkSize);
    }

    method KeepSpare(c: Chunk)
      requires pool == null && Shape(1) && Loose(c)
      modifies this`spare, this`ss, c`next
      ensures Shape(0)
      ensures ss == [c] + old(ss)
    {
      hide List, Holds;
      OutsideFoot(c, hs);
      c.next := spare;
      assert Holds(hs, parts, chunkSize);
      ListPush(c, spare, ss, chunkSize);
      spare := c;
      ss := [c] + ss;
      assert List(head, hs, chunkSize);
    }

    // Takes the emptied head chunk off the list.
    method UnlinkHead() returns (c: Chunk)
      requires Shape(0) && PoolOk() && hs != [] && parts[0] == []
      modifies this`head, this`tail, this`hs, this`parts
      ensures Shape(1) && PoolOk() && Loose(c)
      ensures hs == old(hs)[1..] && parts == old(parts)[1..] && Content() == old(Content())
      ensures Mem() + {c, c.data} <= old(Mem())
    {
      hide List, Holds, Foot, Disjoint, Outside, BufcPool.Valid;
      HeadFacts();
      c := head;
      head := c.next;
      if tail == c {
        tail := head;
      }
      hs, parts := hs[1..], parts[1..];
    }

    lemma HeadFacts()
      requires Shape(0) && PoolOk() && hs != []
      ensures head == hs[0] && |parts| == |hs| && this !in Arrays(hs[1..])
      ensures List(head.next, hs[1..], chunkSize) && Holds(hs[1..], parts[1..], chunkSize)
      ensures Foot(hs) == Foot(hs[1..]) + {head, head.data}
      ensures head.data.Length == chunkSize
      ensures Outside(head, hs[1..]) && Outside(head, ss) && Disjoint(hs[1..], ss)
      ensures pool != null ==> Outside(head, pool.list) && Disjoint(hs[1..], pool.list)
      ensures tail == head <==> |hs| == 1
      ensures |hs| == 1 ==> head.next == null
    {
      ListPop(head, hs, chunkSize);
      DisjointPop(hs, ss);
      if pool != null {
        DisjointPop(hs, pool.list);
      }
      FootPop(hs);
    }

    // prune_head
    method PruneHead()
      requires Shape(0) && PoolOk()
      modifies Mem()
      ensures Valid() && Mem() <= old(Mem())
      ensures Content() == old(Content())
      ensures hs != [] ==> parts[0] != []
    {
      hide List, Holds, Loose, PoolOk, Shape, Foot;
      HeadState();
      while head != null && head.IsEmpty()
        invariant Shape(0) && PoolOk() && Mem() <= old(Mem())
        invariant HeadSeen()
        invariant Content() == old(Content())
        decreases |hs|
      {
        var c := UnlinkHead();
        Recycle(c);
        HeadState();
      }
    }

    // What a look at `head` tells.
    ghost predicate HeadSeen()
      reads this, head
    {
      && (head == null <==> hs == []) && |parts| == |hs|
      && (head != null ==> head == hs[0] && (head.IsEmpty() <==> parts[0] == []))
    }

    lemma HeadState()
      requires Shape(0)
      ensures HeadSeen()
    {
    }

    // chunk_prev: the chunk before c, NULL for the first.
    method ChunkPrev(c: Chunk) returns (p: Chunk?)
      requires List(head, hs, chunkSize) && hs != [] && c == hs[|hs| - 1]
      ensures p == if |hs| == 1 then null else hs[|hs| - 2]
    {
      var cur := head;
      ghost var i := 0;
      while cur != null
        invariant i == 0 || i < |hs| - 1
        invariant cur == hs[i]
        decreases |hs| - i
      {
        if cur == c {
          LastOnce(hs, i, chunkSize);
          return null;
        }
        if cur.next == c {
          LastOnce(hs, i + 1, chunkSize);
          return cur;
        }
        cur := cur.next;
        i := i + 1;
      }
      return null;
    }

    lemma TailFacts()
      requires Shape(0) && PoolOk() && hs != []
      ensures var n := |hs| - 1;
        && tail == hs[n] && |parts| == |hs| && List(head, hs, chunkSize)
        && this !in Arrays(hs[..n])
        && Holds(hs[..n], parts[..n], chunkSize)
        && Foot(hs) == Foot(hs[..n]) + {tail, tail.data}
        && tail.data.Length == chunkSize
        && (n > 0 ==> var p := hs[n - 1];
             && p !in ss && p !in Arrays(hs[..n]) && (pool != null ==> p !in pool.list))
        && Outside(tail, hs[..n]) && Outside(tail, ss) && Disjoint(hs[..n], ss)
        && (pool != null ==> Outside(tail, pool.list) && Disjoint(hs[..n], pool.list))
    {
      assert hs == hs[..|hs| - 1] + [hs[|hs| - 1]];
    }

    // Relinks the list without its last chunk.
    method CutTail() returns (c: Chunk)
      requires List(head, hs, chunkSize) && hs != [] && tail == hs[|hs| - 1]
      modifies this`head, this`tail, (if |hs| > 1 then {hs[|hs| - 2]} else {})`next
      ensures c == old(tail) && List(head, hs[..|hs| - 1], chunkSize)
      ensures tail == if |hs| == 1 then null else hs[|hs| - 2]
    {
      c := tail;
      tail := ChunkPrev(c);
      if tail != null {
        tail.next := null;
        ListCut(head, hs, chunkSize);
      }
      if head == c {
        LastOnce(hs, 0, chunkSize);
        head := tail;
      }
    }

    // Takes the emptied tail chunk off the list.
    method UnlinkTail() returns (c: Chunk)
      requires Shape(0) && PoolOk() && hs != [] && parts[|hs| - 1] == []
      modifies this`head, this`tail, this`hs, this`parts, (if |hs| > 1 then {hs[|hs| - 2]} else {})`next
      ensures Shape(1) && PoolOk() && Loose(c)
      ensures hs == old(hs)[..|old(hs)| - 1] && parts == old(parts)[..|old(hs)| - 1]
      ensures Content() == old(Content())
      ensures Mem() + {c, c.data} <= old(Mem())
    {
      hide List, Holds, Foot, Disjoint, Outside, BufcPool.Valid, Flatten;
      TailFacts();
      FlattenLast(parts);
      c := CutTail();
      hs, parts := hs[..|hs| - 1], parts[..|hs| - 1];
    }

    // prune_tail
    method PruneTail()
      requires Shape(0) && PoolOk()
      modifies Mem()
      ensures Shape(0) && PoolOk() && Mem() <= old(Mem())
      ensures Content() == old(Content())
      ensures hs != [] ==> parts[|hs| - 1] != []
      ensures hs <= old(hs) && parts <= old(parts)
    {
      hide List, Holds, Loose, PoolOk, Shape, Foot;
      TailState();
      while tail != null && tail.IsEmpty()
        invariant Shape(0) && PoolOk() && Mem() <= old(Mem())
        invariant TailSeen()
        invariant Content() == old(Content())
        invariant hs <= old(hs) && parts <= old(parts)
        decreases |hs|
      {
        var c := UnlinkTail();
        Recycle(c);
        TailState();
      }
    }

    // What a look at `tail` tells.
    ghost predicate TailSeen()
      reads `tail, `hs, `parts, tail
    {
      && (tail == null <==> hs == []) && |parts| == |hs|
      && (tail != null ==> tail == hs[|hs| - 1] && (tail.IsEmpty() <==> parts[|hs| - 1] == []))
    }

    lemma TailState()
      requires Shape(0)
      ensures TailSeen()
    {
    }

    // What chunk operations on head and tail rely on.
    lemma HeadHeld()
      requires Shape(0) && hs != []
      ensures head == hs[0] && |parts| == |hs| && head.Sane() && head.View() == parts[0]
      ensures Holds(hs[1..], parts[1..], chunkSize)
      ensures |hs| > 2 ==> parts[1] != []
      ensures |hs| > 1 ==> parts[0] == [] || head.w == chunkSize
      ensures head !in hs[1..] && head !in Arrays(hs[1..]) && this !in Arrays(hs)
    {
      HoldsDrop(hs, parts, chunkSize);
    }

    lemma TailHeld()
      requires Shape(0) && hs != []
      ensures var n := |hs| - 1;
        && tail == hs[n] && |parts| == |hs| && tail.Sane() && tail.View() == parts[n]
        && Holds(hs[..n], parts[..n], chunkSize)
        && (n > 0 ==> if parts[n - 1] == [] then n == 1 else hs[n - 1].w == chunkSize)
        && tail !in hs[..n] && tail.data !in Arrays(hs[..n]) && this !in Arrays(hs)
        && tail.data.Length == chunkSize
    {
    }

    // chunk_read on the head chunk
    method ReadHead(len: nat) returns (out: seq<byte>)
      requires Shape(0) && hs != []
      modifies `parts, head`r, head`w
      ensures Shape(0)
      ensures |parts| == |old(parts)| > 0
      ensures |out| == Min(len, |old(parts)[0]|) && old(parts)[0] == out + parts[0]
      ensures parts[1..] == old(parts)[1..]
    {
      hide List, Holds, Disjoint, Foot, Lists, Counted, Chunk.View, Chunk.Sane;
      HeadHeld();
      ghost var was := parts;
      out := head.Read(len);
      FirstCut(was, |out|);
      HoldsFirst(hs, was, was[0][|out|..], chunkSize);
      parts := was[0 := was[0][|out|..]];
    }

    // chunk_skip on the head chunk
    method SkipHead(amount: nat) returns (n: nat, ghost out: seq<byte>)
      requires Shape(0) && hs != []
      modifies `parts, head`r, head`w
      ensures Shape(0)
      ensures |parts| == |old(parts)| > 0
      ensures n == |out| == Min(amount, |old(parts)[0]|) && old(parts)[0] == out + parts[0]
      ensures parts[1..] == old(parts)[1..]
    {
      hide List, Holds, Disjoint, Foot, Lists, Counted, Chunk.View, Chunk.Sane;
      HeadHeld();
      ghost var was := parts;
      n := head.Skip(amount);
      out := was[0][..n];
      FirstCut(was, n);
      HoldsFirst(hs, was, was[0][n..], chunkSize);
      parts := was[0 := was[0][n..]];
    }

    // chunk_unwrite on the tail chunk
    method UnwriteTail(len: nat) returns (n: nat, ghost cut: seq<byte>)
      requires Shape(0) && hs != []
      modifies `parts, tail`r, tail`w
      ensures Shape(0)
      ensures |parts| == |old(parts)| == |hs|
      ensures var last := |parts| - 1;
        && parts[..last] == old(parts)[..last] && old(parts)[last] == parts[last] + cut
        && n == |cut| == Min(len, |old(parts)[last]|)
    {
      hide List, Holds, Disjoint, Foot, Lists, Counted, Chunk.View, Chunk.Sane;
      TailHeld();
      n := tail.Unwrite(len);
      ghost var last := parts[|parts| - 1];
      cut := last[|last| - n..];
      HoldsLast(hs, parts, last[..|last| - n], chunkSize);
      parts := parts[|parts| - 1 := last[..|last| - n]];
    }

    // chunk_append on the tail chunk
    method AppendTail(buf: seq<byte>) returns (n: nat)
      requires Shape(0) && hs != []
      modifies `parts, tail`w, tail.data
      ensures Shape(0)
      ensures |parts| == |old(parts)| > 0
      ensures n == Min(|buf|, chunkSize - old(tail.w)) && tail.w == old(tail.w) + n
      ensures var last := |parts| - 1; parts == old(parts)[last := old(parts)[last] + buf[..n]]
    {
      hide List, Holds, Disjoint, Foot, Lists, Counted, Chunk.View, Chunk.Sane;
      TailHeld();
      n := tail.Append(buf);
      HoldsLast(hs, parts, parts[|parts| - 1] + buf[..n], chunkSize);
      parts := parts[|parts| - 1 := parts[|parts| - 1] + buf[..n]];
    }

    // The three sources of a chunk in get_spare.
    method PopSpare() returns (c: Chunk)
      requires Shape(0) && PoolOk() && ss != []
      modifies `spare, `ss, ss[0]
      ensures Shape(1) && PoolOk() && Loose(c)
      ensures c == old(ss)[0] && ss == old(ss)[1..] && c.next == null && c.r == c.w == 0
      ensures Mem() + {c, c.data} <= old(Mem())
      ensures c !in hs
    {
      hide List, Holds, Foot, Disjoint, Outside, BufcPool.Valid;
      SpareFacts();
      c := spare;
      spare := c.next;
      c.Reset();
      ss := ss[1..];
    }

    lemma SpareFacts()
      requires Shape(0) && PoolOk() && ss != []
      ensures spare == ss[0] && spare.data.Length == chunkSize
      ensures List(spare.next, ss[1..], chunkSize)
      ensures spare !in ss[1..] && spare !in hs && spare !in Arrays(hs) && this !in Arrays(hs)
      ensures Foot(ss) == Foot(ss[1..]) + {spare, spare.data}
      ensures Outside(spare, hs) && Outside(spare, ss[1..]) && Disjoint(hs, ss[1..])
      ensures pool != null ==> spare !in pool.list && Outside(spare, pool.list) && Disjoint(ss[1..], pool.list)
    {
      ListPop(spare, ss, chunkSize);
      DisjointPop(ss, hs);
      if pool != null {
        DisjointPop(ss, pool.list);
      }
      FootPop(ss);
    }

    lemma PoolFacts()
      requires Shape(0) && PoolOk() && pool != null
      ensures this !in Arrays(hs) && pool !in Arrays(hs)
      ensures pool.list != [] ==> var p := pool.list[0];
        && p !in hs && p !in ss && p !in Arrays(hs) && Outside(p, hs) && Outside(p, ss)
        && Disjoint(hs, pool.list[1..]) && Disjoint(ss, pool.list[1..]) && Outside(p, pool.list[1..])
        && Foot(pool.list) == Foot(pool.list[1..]) + {p, p.data}
    {
      if pool.list != [] {
        ListPop(pool.spare, pool.list, chunkSize);
        DisjointPop(pool.list, hs);
        DisjointPop(pool.list, ss);
        FootPop(pool.list);
      }
    }

    method TakeFromPool() returns (c: Chunk?)
      requires Shape(0) && PoolOk() && pool != null && (chunkCount < maxChunks || soft)
      modifies `chunkCount, pool, if pool.list == [] then {} else {pool.list[0]}
      ensures c == null ==> Shape(0) && PoolOk() && chunkCount == old(chunkCount)
      ensures c != null ==> Shape(1) && PoolOk() && Loose(c) && c.next == null && c.r == c.w == 0
      ensures forall o :: o in Mem() && o !in old(Mem()) ==> fresh(o)
      ensures c != null ==> (c in old(Mem()) || fresh(c)) && (c.data in old(Mem()) || fresh(c.data))
      ensures old(pool.list) != [] ==> old(pool.list)[0] !in hs && c == old(pool.list)[0]
      ensures c != null ==> chunkCount == old(chunkCount) + 1
      ensures plenty ==> c != null
    {
      hide List, Holds, Foot, Disjoint;
      PoolFacts();
      c := pool.Take();
      if c != null {
        chunkCount := chunkCount + 1;
      }
    }

    method NewChunk() returns (c: Chunk?)
      requires Shape(0) && PoolOk() && (chunkCount < maxChunks || soft)
      modifies `chunkCount
      ensures c == null ==> Shape(0) && PoolOk() && chunkCount == old(chunkCount)
      ensures c != null ==> Shape(1) && PoolOk() && Loose(c) && c.next == null && c.r == c.w == 0
      ensures c != null ==> fresh(c) && fresh(c.data) && chunkCount == old(chunkCount) + 1
      ensures plenty ==> c != null
    {
      hide List, Holds, Foot, Disjoint;
      SpareSeen();
      if !plenty {
        if * {
          return null;  // out of memory
        }
      }
      c := new Chunk(chunkSize);
      chunkCount := chunkCount + 1;
    }

    // get_spare
    method GetSpare() returns (c: Chunk?)
      requires Shape(0) && PoolOk()
      modifies `spare, `ss, `chunkCount, if ss == [] then {} else {ss[0]}
      modifies pool, if pool == null || pool.list == [] then {} else {pool.list[0]}
      ensures c == null ==> Shape(0) && PoolOk() && ss == old(ss) == [] && chunkCount == old(chunkCount)
      ensures c != null ==> Shape(1) && PoolOk() && Loose(c) && c.next == null && c.r == c.w == 0
      ensures forall o :: o in Mem() && o !in old(Mem()) ==> fresh(o)
      ensures c != null ==> (c in old(Mem()) || fresh(c)) && (c.data in old(Mem()) || fresh(c.data))
      ensures tail != null ==> tail.w == old(if tail == null then 0 else tail.w)
      ensures c != null && !soft ==> |hs| < maxChunks
      ensures old(ss) != [] ==> c == old(ss)[0] && ss == old(ss)[1..] && chunkCount == old(chunkCount)
      ensures old(ss) == [] && c != null ==> ss == [] && chunkCount == old(chunkCount) + 1
      ensures c == null && (soft || chunkCount < maxChunks) ==> !plenty
    {
      hide List, Holds, Foot, Disjoint, Loose, PoolOk;
      SpareSeen();
      if spare != null {
        c := PopSpare();
        return;
      }
      if chunkCount >= maxChunks && !soft {
        return null;
      }
      if pool != null {
        c := TakeFromPool();
      } else {
        c := NewChunk();
      }
    }

    lemma SpareSeen()
      requires Shape(0)
      ensures spare == null <==> ss == []
      ensures this !in Arrays(hs)
      ensures tail != null ==> tail in hs
    {
    }

    // The linking step of get_non_full_tail.
    method LinkTail(c: Chunk)
      requires List(head, hs, chunkSize) && tail == (if hs == [] then null else hs[|hs| - 1])
      requires Outside(c, hs) && c.data.Length == chunkSize && c.next == null
      modifies `head, `tail, if tail == null then {} else {tail}`next
      ensures List(head, hs + [c], chunkSize) && tail == c
    {
      if tail != null {
        tail.next := c;
        ListSnoc(head, hs, c, chunkSize);
        tail := c;
      } else {
        ListOne(c, chunkSize);
        head, tail := c, c;
      }
    }

    // Links a new, empty chunk behind the tail.
    method PushTail(c: Chunk)
      requires Shape(1) && PoolOk() && Loose(c) && c.next == null && c.r == c.w == 0
      requires hs != [] ==> tail.w >= chunkSize
      modifies `head, `tail, `hs, `parts, if tail == null then {} else {tail}`next
      ensures Shape(0) && PoolOk() && tail == c
      ensures hs == old(hs) + [c] && parts == old(parts) + [[]]
      ensures Content() == old(Content())
      ensures Mem() <= old(Mem()) + {c, c.data}
    {
      hide List, Holds, Foot, Disjoint, Outside, BufcPool.Valid, Loose, Arrays;
      PushFacts(c);
      FlattenSnoc(parts, []);
      HoldsPush(hs, parts, c, chunkSize);
      LinkTail(c);
      hs, parts := hs + [c], parts + [[]];
    }

    lemma PushFacts(c: Chunk)
      requires Shape(1) && PoolOk() && Loose(c)
      ensures tail == (if hs == [] then null else hs[|hs| - 1])
      ensures c.data.Length == chunkSize && Outside(c, hs)
      ensures this !in Arrays(hs + [c]) && forall o :: o in Arrays(hs + [c]) ==> allocated(o)
      ensures Disjoint(hs + [c], ss) && (pool != null ==> Disjoint(hs + [c], pool.list))
      ensures Foot(hs + [c]) == Foot(hs) + {c, c.data}
      ensures hs != [] ==>
        && tail.w <= chunkSize
        && tail !in ss && tail !in Arrays(hs + [c]) && (pool != null ==> tail !in pool.list)
    {
      hide Linked;
      FootSnoc(hs, c);
      DisjointSnoc(hs, c, ss);
      if pool != null {
        DisjointSnoc(hs, c, pool.list);
      }
    }

    // get_non_full_tail: NULL when no chunk can be had.
    method GetNonFullTail() returns (t: Chunk?)
      requires Valid()
      modifies Mem()
      ensures Valid() && (forall o :: o in Mem() && o !in old(Mem()) ==> fresh(o))
      ensures Content() == old(Content()) && (!soft ==> Room() == old(Room()))
      ensures t != null ==> hs != [] && t == tail && t.w < chunkSize && t in Mem() && t.data in Mem()
      ensures t == null ==> hs == old(hs) && chunkCount == old(chunkCount)
      ensures t != null ==> |hs| == |old(hs)| + if old(tail != null && tail.w < chunkSize) then 0 else 1
      ensures t == null && !soft ==> (Room() == 0 <==> chunkCount >= maxChunks)
      ensures t == null && (soft || chunkCount < maxChunks) ==> !plenty
      ensures t != null ==> t.w == old(if tail != null && tail.w < chunkSize then tail.w else 0)
    {
      hide List, Holds, PoolOk, Disjoint, Capacity;
      TailLook();
      if tail != null && !tail.IsFull() {
        return tail;
      }
      t := GrowTail();
    }

    method GrowTail() returns (t: Chunk?)
      requires Valid() && (hs != [] ==> tail.w >= chunkSize)
      modifies Mem()
      ensures Valid() && (forall o :: o in Mem() && o !in old(Mem()) ==> fresh(o))
      ensures Content() == old(Content()) && (!soft ==> Room() == old(Room()))
      ensures t != null ==> hs != [] && t == tail && t.w == 0 && t in Mem() && t.data in Mem()
      ensures t != null ==> |hs| == |old(hs)| + 1
      ensures t == null ==> hs == old(hs) && chunkCount == old(chunkCount)
      ensures t == null && !soft ==> (Room() == 0 <==> chunkCount >= maxChunks)
      ensures t == null && (soft || chunkCount < maxChunks) ==> !plenty
    {
      hide Shape, Loose, PoolOk, Capacity, Foot, Mem, Repr;
      TailLook();
      CapacityStep(chunkSize, maxChunks, |hs|);
      t := GetSpare();
      if t != null {
        PushTail(t);
      }
    }

    lemma TailLook()
      requires Shape(0)
      ensures TailSeen()
      ensures chunkCount == |hs| + |ss| && 0 < chunkSize
      ensures hs != [] ==> tail in Mem() && tail.w <= chunkSize == tail.data.Length
      ensures hs != [] && tail.w == chunkSize ==> parts[|hs| - 1] != []
      ensures ss != [] ==> ss[0] in Mem()
      ensures pool != null ==> pool in Mem()
      ensures pool != null && pool.list != [] ==> pool.list[0] in Mem()
    {
    }

    // Curl_bufq_write. `stored` counts the bytes taken also when the result is an error.
    method Write(buf: seq<byte>) returns (n: int, err: Code, ghost stored: nat)
      requires Valid()
      modifies Mem()
      ensures Valid() && (forall o :: o in Mem() && o !in old(Mem()) ==> fresh(o))
      ensures stored <= |buf| && Content() == old(Content()) + buf[..stored]
      ensures n == if err == Ok then stored else -1
      ensures err == Ok || err == Again || err == OutOfMemory
      ensures err != OutOfMemory ==> stored == if soft then |buf| else Min(|buf|, old(Room()))
      ensures err == OutOfMemory ==> !plenty && stored < |buf| && (!soft ==> stored < old(Room()))
      ensures err != OutOfMemory ==> (err == Again <==> stored == 0 && buf != [])
      ensures !soft ==> Room() == old(Room()) - stored
    {
      hide Shape, PoolOk, Holds, List, Foot, Room, Mem, Repr;
      var done := 0;
      while done < |buf|
        invariant Valid() && (forall o :: o in Mem() && o !in old(Mem()) ==> fresh(o))
        invariant done <= |buf| && Content() == old(Content()) + buf[..done]
        invariant !soft ==> Room() == old(Room()) - done
      {
        var t := GetNonFullTail();
        if t == null {
          if chunkCount < maxChunks || soft {
            return -1, OutOfMemory, done;
          }
          break;
        }
        var k := WriteTail(buf[done..]);
        if k == 0 {
          break;
        }
        assert buf[..done] + buf[done..][..k] == buf[..done + k];
        done := done + k;
      }
      if done == 0 && buf != [] {
        return -1, Again, 0;
      }
      return done, Ok, done;
    }

    // One step of the loop in Curl_bufq_write.
    method WriteTail(buf: seq<byte>) returns (n: nat)
      requires Valid() && hs != []
      modifies `parts, tail`w, tail.data
      ensures Valid()
      ensures n == Min(|buf|, chunkSize - old(tail.w)) && tail.w == old(tail.w) + n
      ensures Content() == old(Content()) + buf[..n] && Room() == old(Room()) - n
      ensures Mem() == old(Mem())
    {
      hide List, Holds, Foot, Disjoint;
      TailLook();
      FlattenLast(parts);
      n := AppendTail(buf);
      FlattenLast(parts);
    }

    // ---- taking bytes out ----

    // One step of the loops in Curl_bufq_read and Curl_bufq_skip.
    method ReadStep(len: nat) returns (out: seq<byte>)
      requires Valid() && hs != [] && 0 < len
      modifies Mem()
      ensures Valid() && Mem() <= old(Mem())
      ensures |out| <= len && old(Content()) == out + Content()
      ensures out == [] ==> hs == []
    {
      hide Shape, PoolOk, Mem, Repr, Foot, Flatten;
      FirstLook();
      ghost var was := parts;
      out := ReadHead(len);
      FirstTaken(was, out, parts);
      PruneHead();
      FirstLook();
    }

    method SkipStep(amount: nat) returns (n: nat, ghost out: seq<byte>)
      requires Valid() && hs != [] && 0 < amount
      modifies Mem()
      ensures Valid() && Mem() <= old(Mem())
      ensures n == |out| <= amount && old(Content()) == out + Content()
      ensures n == 0 ==> hs == []
    {
      hide Shape, PoolOk, Mem, Repr, Foot, Flatten;
      FirstLook();
      ghost var was := parts;
      n, out := SkipHead(amount);
      FirstTaken(was, out, parts);
      PruneHead();
      FirstLook();
    }

    // One step of the loop in Curl_bufq_unwrite.
    method UnwriteStep(len: nat) returns (n: nat, ghost cut: seq<byte>)
      requires Valid() && hs != [] && 0 < len
      modifies Mem()
      ensures Valid() && Mem() <= old(Mem())
      ensures n == |cut| <= len && old(Content()) == Content() + cut
      ensures |hs| <= |old(hs)| && (n == 0 ==> |hs| < |old(hs)|)
    {
      hide Shape, PoolOk, Mem, Repr, Foot;
      FirstLook();
      FlattenLast(parts);
      n, cut := UnwriteTail(len);
      FlattenLast(parts);
      PruneTail();
      EmptyLook();
    }

    lemma FirstLook()
      requires Valid()
      ensures |parts| == |hs|
      ensures hs != [] ==>
        && head in Mem() && tail in Mem()
        && Content() == parts[0] + Flatten(parts[1..])
        && (parts[0] == [] ==> Content() == [])
    {
    }

    lemma EmptyLook()
      requires Shape(0)
      ensures (head == null <==> hs == []) && (tail == null <==> hs == [])
      ensures |parts| == |hs|
    {
    }

    // Curl_bufq_read: returns -1 with CURLE_AGAIN when nothing was read.
    method Read(len: nat) returns (n: int, err: Code, out: seq<byte>)
      requires Valid()
      modifies Mem()
      ensures Valid() && Mem() <= old(Mem())
      ensures out == old(Content())[..Min(len, |old(Content())|)]
      ensures Content() == old(Content())[|out|..]
      ensures if out == [] then n == -1 && err == Again else n == |out| && err == Ok
    {
      hide Shape, PoolOk, Mem, Repr;
      out := [];
      EmptyLook();
      while |out| < len && head != null
        invariant Valid() && Mem() <= old(Mem())
        invariant |out| <= len && old(Content()) == out + Content()
        invariant (head == null <==> hs == []) && |parts| == |hs|
        decreases len - |out|, |hs|
      {
        var more := ReadStep(len - |out|);
        out := out + more;
        EmptyLook();
      }
      if out == [] {
        return -1, Again, out;
      }
      return |out|, Ok, out;
    }

    // Curl_bufq_skip
    method Skip(amount: nat)
      requires Valid()
      modifies Mem()
      ensures Valid() && Mem() <= old(Mem())
      ensures Content() == old(Content())[Min(amount, |old(Content())|)..]
    {
      hide Shape, PoolOk, Mem, Repr;
      var left := amount;
      ghost var out := [];
      EmptyLook();
      while left != 0 && head != null
        invariant Valid() && Mem() <= old(Mem())
        invariant |out| + left == amount && old(Content()) == out + Content()
        invariant (head == null <==> hs == []) && |parts| == |hs|
        decreases left, |hs|
      {
        var n;
        ghost var more;
        n, more := SkipStep(left);
        left := left - n;
        out := out + more;
        EmptyLook();
      }
    }

    // Curl_bufq_unwrite: CURLE_AGAIN when fewer than len bytes were there.
    method Unwrite(len: nat) returns (err: Code)
      requires Valid()
      modifies Mem()
      ensures Valid() && Mem() <= old(Mem())
      ensures Content() == old(Content())[..|old(Content())| - Min(len, |old(Content())|)]
      ensures err == if len <= |old(Content())| then Ok else Again
    {
      hide Shape, PoolOk, Mem, Repr;
      var left := len;
      ghost var out := [];
      EmptyLook();
      while left != 0 && tail != null
        invariant Valid() && Mem() <= old(Mem())
        invariant |out| + left == len && old(Content()) == Content() + out
        invariant (tail == null <==> hs == []) && |parts| == |hs|
        decreases left, |hs|
      {
        var n;
        ghost var cut;
        n, cut := UnwriteStep(left);
        left := left - n;
        out := cut + out;
        EmptyLook();
      }
      err := if left != 0 then Again else Ok;
    }

    // ---- looking without taking ----

    // Curl_bufq_is_empty looks at the first chunk only.
    predicate IsEmpty()
      reads this, head
    {
      head == null || head.IsEmpty()
    }

    lemma IsEmptyMeaning()
      requires Valid()
      ensures IsEmpty() <==> Content() == []
    {
      HeadState();
      FirstLook();
    }

    // Curl_bufq_is_full
    predicate IsFull()
      reads this, tail
    {
      if tail == null || spare != null then false
      else if chunkCount < maxChunks then false
      else if chunkCount > maxChunks then true
      else tail.IsFull()
    }

    // Under a hard limit a full queue is one that takes no byte; see Write.
    lemma IsFullMeaning()
      requires Valid() && !soft
      ensures IsFull() <==> Room() == 0
    {
      CapacityStep(chunkSize, maxChunks, |hs|);
      SpareSeen();
      TailLook();
    }

    // The promise of bufq.h:72-73: no more than maxChunks * chunkSize bytes under a hard limit.
    lemma CapacityBound()
      requires Valid() && !soft
      ensures |Content()| + Room() <= maxChunks * chunkSize
    {
      hide List, Disjoint, PoolOk, Foot, Capacity;
      TailLook();
      LimitLook();
      if hs != [] {
        var n := |hs| - 1;
        assert forall i :: 0 <= i <= n ==> |hs[i].View()| <= hs[i].w;
        FlattenLast(parts);
        FlattenBound(parts[..n], chunkSize);
        CapacitySum(chunkSize, maxChunks, n, tail.w, |Content()|);
      } else {
        CapacitySum(chunkSize, maxChunks, 0, 0, 0);
        CapacityStep(chunkSize, maxChunks, 0);
      }
    }

    // Curl_bufq_len
    method Len() returns (len: nat)
      requires Valid()
      ensures len == |Content()|
    {
      var cur := head;
      len := 0;
      ghost var i := 0;
      while cur != null
        invariant 0 <= i <= |hs| && len == |Flatten(parts[..i])|
        invariant cur == if i < |hs| then hs[i] else null
        decreases |hs| - i
      {
        FlattenLast(parts[..i + 1]);
        assert parts[..i + 1][..i] == parts[..i];
        len := len + (cur.w - cur.r);
        cur := cur.next;
        i := i + 1;
      }
      assert parts[..i] == parts;
    }

    // Curl_bufq_peek: the first bytes there are; an empty head chunk is dropped on the way.
    method Peek() returns (ok: bool, buf: seq<byte>)
      requires Valid()
      modifies Mem()
      ensures Valid() && Mem() <= old(Mem()) && Content() == old(Content())
      ensures ok <==> Content() != []
      ensures ok <==> buf != []
      ensures buf <= Content()
      ensures ok ==> head != null && |parts| > 0 && buf == parts[0] && IsFull() == old(IsFull())
    {
      hide Shape, PoolOk, Foot;
      HeadState();
      if head != null && head.IsEmpty() {
        FirstLook();
        PruneHead();
      }
      HeadState();
      FirstLook();
      if head != null && !head.IsEmpty() {
        ChunkLook(0);
        return true, head.data[head.r..head.w];
      }
      return false, [];
    }

    // The offset of the first byte of chunk i.
    ghost function StartOf(i: nat): nat
      requires i <= |parts|
      reads `parts
    {
      |Flatten(parts[..i])|
    }

    // Curl_bufq_peek_at: bytes from the given offset on, as far as one chunk goes.
    method PeekAt(offset: nat) returns (ok: bool, buf: seq<byte>)
      requires Valid()
      ensures ok <==> offset < |Content()|
      ensures ok ==> buf != [] && buf <= Content()[offset..]
      ensures !ok ==> buf == []
      ensures ok ==>
        exists i :: 0 <= i < |parts| && StartOf(i) <= offset && offset + |buf| == StartOf(i) + |parts[i]|
    {
      hide Shape, PoolOk, Foot;
      var cur, off := head, offset;
      ghost var i := 0;
      HeadState();
      while cur != null
        invariant Valid() && 0 <= i <= |hs| == |parts|
        invariant cur == if i < |hs| then hs[i] else null
        invariant 0 <= off && |Flatten(parts[..i])| + off == offset
        decreases |hs| - i
      {
        ChunkLook(i);
        SplitContent(i);
        SplitContent(i + 1);
        var clen := cur.w - cur.r;
        if clen == 0 {
          break;
        }
        if off >= clen {
          off := off - clen;
          cur := cur.next;
          i := i + 1;
          continue;
        }
        buf := cur.data[cur.r + off..cur.w];
        assert Content()[offset..] == parts[i][off..] + Flatten(parts[i + 1..]);
        assert StartOf(i) <= offset && offset + |buf| == StartOf(i) + |parts[i]|;
        return true, buf;
      }
      SplitContent(i);
      return false, [];
    }

    lemma ChunkLook(i: nat)
      requires Valid() && i < |hs|
      ensures |parts| == |hs| && hs[i].Sane() && hs[i].View() == parts[i]
      ensures hs[i].next == if i + 1 < |hs| then hs[i + 1] else null
      ensures parts[i] == [] ==> i == |hs| - 1
    {
    }

    lemma SplitContent(i: nat)
      requires i <= |parts|
      ensures Content() == Flatten(parts[..i]) + Flatten(parts[i..])
      ensures i > 0 ==> Flatten(parts[..i]) == Flatten(parts[..i - 1]) + parts[i - 1]
      ensures i == |parts| - 1 ==> Flatten(parts[i..]) == parts[i]
    {
      assert parts == parts[..i] + parts[i..];
      FlattenConcat(parts[..i], parts[i..]);
      if i > 0 {
        FlattenLast(parts[..i]);
        assert parts[..i][..i - 1] == parts[..i - 1];
      }
      if i == |parts| - 1 {
        assert parts[i..] == [parts[i]] && Flatten([parts[i]]) == parts[i] + Flatten([]);
      }
    }

    // ---- passing bytes on ----

    lemma WriterApart(writer: Writer)
      ensures writer !in Mem()
    {
    }

    lemma ReaderApart(reader: Reader)
      ensures reader !in Mem() && reader !in Arrays(hs)
    {
    }

    // The last answer of the writer was to take nothing of what was offered, which was all the first
    // chunk holds.
    ghost predicate Refused(writer: Writer)
      reads writer, `parts
    {
      writer.lastN <= 0 && parts != [] && writer.offer == parts[0] != []
    }

    // Curl_bufq_pass. `err` keeps its old value err0 when the writer is not asked.
    method Pass(writer: Writer, err0: Code) returns (n: int, err: Code)
      requires Valid()
      modifies Mem(), writer
      ensures Valid() && Mem() <= old(Mem())
      ensures old(writer.taken) <= writer.taken
      ensures writer.taken + Content() == old(writer.taken + Content())
      ensures n == -1 || n == |writer.taken| - |old(writer.taken)|
      ensures n == -1 && err == Again ==> writer.taken == old(writer.taken)
      ensures n == 0 ==> old(Content()) == []
      ensures n == -1 && err == Again ==> IsFull() == old(IsFull())
      ensures writer.calls >= old(writer.calls) && (writer.calls == old(writer.calls) <==> old(Content()) == [])
      ensures old(Content()) == [] ==> n == 0 && err == err0
      ensures old(Content()) != [] ==>
        var nothing := writer.taken == old(writer.taken);
        && (Content() == [] || Refused(writer))
        && (n == -1 <==> Refused(writer) && (nothing || (writer.lastN < 0 && writer.lastErr != Again)))
        && err == if writer.lastN == 0 && nothing then Again else writer.lastErr
    {
      hide Valid, Mem, IsFull;
      WriterApart(writer);
      n, err := 0, err0;
      while true
        invariant Valid() && Mem() <= old(Mem())
        invariant old(writer.taken) <= writer.taken
        invariant writer.taken + Content() == old(writer.taken + Content())
        invariant n == |writer.taken| - |old(writer.taken)|
        invariant writer.calls >= old(writer.calls)
        invariant n == 0 ==> IsFull() == old(IsFull())
        invariant if n == 0 then writer.calls == old(writer.calls) && err == err0
                  else writer.calls > old(writer.calls) && writer.lastN > 0 && err == writer.lastErr
        decreases |Content()|
      {
        var ok, buf := Peek();
        if !ok {
          break;
        }
        var k;
        k, err := writer.Write(buf);
        if k < 0 {
          if n == 0 || err != Again {
            n := -1;
          }
          break;
        }
        if k == 0 {
          if n == 0 {
            err := Again;
            n := -1;
          }
          break;
        }
        Skip(k);
        n := n + k;
      }
    }

    lemma FullLook()
      requires Valid()
      ensures !soft ==> (IsFull() <==> Room() == 0)
      ensures !soft && Content() == [] ==> Room() > 0
    {
      hide List, Holds, Foot, Disjoint, Capacity;
      if !soft {
        IsFullMeaning();
        CapacityStep(chunkSize, maxChunks, |hs|);
        TailLook();
        LimitLook();
        FirstLook();
      }
    }

    // The first half of the loop in Curl_bufq_write_pass.
    method MakeRoom(writer: Writer) returns (n: int, err: Code)
      requires Valid()
      modifies Mem(), writer
      ensures Valid() && Mem() <= old(Mem())
      ensures old(writer.taken) <= writer.taken
      ensures writer.taken + Content() == old(writer.taken + Content())
      ensures writer.calls >= old(writer.calls) && (n < 0 ==> writer.calls > old(writer.calls))
      ensures !old(IsFull()) ==>
        n == 0 && writer.calls == old(writer.calls) && Room() == old(Room())
      ensures !soft && Room() == 0 ==> writer.calls > old(writer.calls) && writer.lastN <= 0
      ensures n < 0 && err == Again ==> writer.lastN <= 0 && IsFull()
      ensures n < 0 && err != Again ==> writer.lastN < 0 && writer.lastErr == err
    {
      hide Valid, Mem, Room, IsFull, Capacity;
      FullLook();
      n, err := 0, Ok;
      if IsFull() {
        n, err := Pass(writer, Ok);
        FullLook();
      }
    }

    // Curl_bufq_write_pass. `stored` counts the bytes of buf taken over also when an error is returned.
    method WritePass(buf: seq<byte>, writer: Writer) returns (n: int, err: Code, ghost stored: nat)
      requires Valid()
      modifies Mem(), writer
      ensures Valid() && forall o :: o in Mem() && o !in old(Mem()) ==> fresh(o)
      ensures old(writer.taken) <= writer.taken && stored <= |buf|
      ensures writer.taken + Content() == old(writer.taken + Content()) + buf[..stored]
      ensures n == -1 || n == stored
      ensures n >= 0 ==> err == Ok
      ensures err == Again ==> stored == 0 && buf != []
      ensures (n >= 0 || err == Again) && stored < |buf| ==>
        IsFull() && writer.calls > old(writer.calls) && writer.lastN <= 0
      ensures n == -1 && err != Again && (plenty || err != OutOfMemory) ==>
        writer.calls > old(writer.calls) && writer.lastN < 0 && writer.lastErr == err
      ensures !old(IsFull()) && (soft || |buf| <= old(Room())) ==> writer.calls == old(writer.calls)
    {
      hide Valid, Mem, Room, IsFull, Capacity;
      WriterApart(writer);
      var done := 0;
      stored := 0;
      while done < |buf|
        invariant Valid() && forall o :: o in Mem() && o !in old(Mem()) ==> fresh(o)
        invariant old(writer.taken) <= writer.taken && stored == done <= |buf|
        invariant writer.taken + Content() == old(writer.taken + Content()) + buf[..done]
        invariant writer.calls >= old(writer.calls)
        invariant done == 0 ==>
          writer.calls == old(writer.calls) && IsFull() == old(IsFull()) && Room() == old(Room())
        invariant done > 0 && !old(IsFull()) && (soft || |buf| <= old(Room())) ==>
          done == |buf| && writer.calls == old(writer.calls)
        decreases |buf| - done
      {
        var k, e := MakeRoom(writer);
        if k < 0 {
          if e != Again {
            return -1, e, done;
          }
          break;
        }
        ghost var more, before := 0, Content();
        k, e, more := Write(buf[done..]);
        FullLook();
        Appended(writer.taken, before, old(writer.taken + Content()), buf, done, more);
        if k < 0 {
          if e != Again {
            return -1, e, done + more;
          }
          break;
        }
        if k == 0 {
          break;
        }
        done, stored := done + k, stored + more;
      }
      if done == 0 && buf != [] {
        return -1, Again, 0;
      }
      return done, Ok, done;
    }

    // ---- filling from a reader ----

    // The free bytes, as far as a limit other than 0 allows.
    ghost function Least(free: nat, maxLen: nat): nat {
      if maxLen != 0 && free > maxLen then maxLen else free
    }

    // chunk_slurpn on the tail chunk
    method SlurpTail(maxLen: nat, reader: Reader) returns (n: int, err: Code)
      requires Valid() && hs != []
      modifies `parts, tail`w, tail.data, reader
      ensures Valid() && Mem() == old(Mem())
      ensures old(reader.delivered) <= reader.delivered && |reader.script| <= |old(reader.script)|
      ensures Content() == old(Content()) + reader.delivered[|old(reader.delivered)|..]
      ensures n == -1 || n == |reader.delivered| - |old(reader.delivered)|
      ensures n == -1 ==> reader.delivered == old(reader.delivered)
      ensures n > 0 ==> |reader.script| < |old(reader.script)|
      ensures maxLen > 0 ==> n <= maxLen
      ensures reader.calls == old(reader.calls) + if old(tail.w) < chunkSize then 1 else 0
      ensures old(tail.w) < chunkSize ==>
        && reader.asked == Least(chunkSize - old(tail.w), maxLen)
        && n == reader.lastN && err == reader.lastErr
        && (n > 0 ==> tail.w == old(tail.w) + n)
      ensures !soft ==> Room() == old(Room()) - if n > 0 then n else 0
    {
      hide List, Holds, Disjoint, Mem, Repr, Foot, Content;
      TailLook();
      ReaderApart(reader);
      var free := chunkSize - tail.w;
      if free == 0 {
        return -1, Again;
      }
      if maxLen != 0 && free > maxLen {
        free := maxLen;
      }
      var bytes;
      n, bytes, err := reader.Read(free);
      if n > 0 {
        var k := WriteTail(bytes);
      }
    }

    lemma LimitLook()
      requires Valid()
      ensures !soft ==> |hs| <= maxChunks
    {
    }

    // Curl_bufq_sipn: at most one call of the reader.
    method Sipn(maxLen: nat, reader: Reader) returns (n: int, err: Code)
      requires Valid()
      modifies Mem(), reader
      ensures Valid() && forall o :: o in Mem() && o !in old(Mem()) ==> fresh(o)
      ensures old(reader.delivered) <= reader.delivered && |reader.script| <= |old(reader.script)|
      ensures Content() == old(Content()) + reader.delivered[|old(reader.delivered)|..]
      ensures n == -1 || n == |reader.delivered| - |old(reader.delivered)|
      ensures n == -1 ==> reader.delivered == old(reader.delivered)
      ensures n > 0 ==> |reader.script| < |old(reader.script)|
      ensures n > 0 ==> tail != null && tail.data.Length == chunkSize
      ensures n == 0 ==> err == Ok
      ensures maxLen > 0 ==> n <= maxLen
      ensures old(reader.calls) <= reader.calls <= old(reader.calls) + 1
      ensures reader.calls > old(reader.calls) ==>
        var free := old(if tail != null && tail.w < chunkSize then chunkSize - tail.w else chunkSize);
        && reader.asked == Least(free, maxLen) > 0
        && tail != null && (n > 0 ==> tail.w == chunkSize - free + n)
        && n == reader.lastN && (n != 0 ==> err == reader.lastErr)
      ensures reader.calls == old(reader.calls) ==>
        reader.asked == old(reader.asked) && reader.lastN == old(reader.lastN)
      ensures reader.calls == old(reader.calls) && plenty ==> !soft && Room() == 0 && err == Again
      ensures !soft ==> |hs| <= maxChunks
      ensures reader.calls > old(reader.calls) && old(tail == null || tail.w >= chunkSize) ==> |hs| > |old(hs)|
      ensures |hs| >= |old(hs)|
      ensures reader.calls == old(reader.calls) ==>
        n == -1 && chunkCount == old(chunkCount) && err == if chunkCount < maxChunks then OutOfMemory else Again
      ensures reader.calls == old(reader.calls) && !soft ==> (err == Again <==> Room() == 0) && Room() == old(Room())
    {
      hide Shape, PoolOk, Mem, Repr, Foot, Content, Room;
      ReaderApart(reader);
      TailLook();
      var t := GetNonFullTail();
      TailLook();
      LimitLook();
      if t == null {
        if chunkCount < maxChunks {
          return -1, OutOfMemory;
        }
        return -1, Again;
      }
      ReaderApart(reader);
      n, err := SlurpTail(maxLen, reader);
      TailLook();
      if n == 0 {
        err := Ok;
      }
    }

    // bufq_slurpn; Curl_bufq_slurp is the case maxLen == 0. Under a hard limit the number of calls of
    // the reader is bounded however much it has to deliver.
    method Slurpn(maxLen: nat, reader: Reader) returns (n: int, err: Code)
      requires Valid()
      modifies Mem(), reader
      ensures Valid() && forall o :: o in Mem() && o !in old(Mem()) ==> fresh(o)
      ensures old(reader.delivered) <= reader.delivered
      ensures Content() == old(Content()) + reader.delivered[|old(reader.delivered)|..]
      ensures n == -1 || n == |reader.delivered| - |old(reader.delivered)|
      ensures n == -1 && err == Again ==> reader.delivered == old(reader.delivered)
      ensures maxLen > 0 ==> |reader.delivered| - |old(reader.delivered)| <= maxLen
      ensures reader.calls >= old(reader.calls)
      ensures plenty && (maxLen == 0 || |reader.delivered| - |old(reader.delivered)| < maxLen) ==>
        || (reader.calls > old(reader.calls) && reader.lastN < reader.asked)
        || (!soft && Room() == 0)
      ensures reader.calls > old(reader.calls) && reader.lastN <= 0 ==>
        var nothing := reader.delivered == old(reader.delivered);
        && (n == -1 <==> reader.lastN < 0 && (nothing || reader.lastErr != Again))
        && err == if n == -1 then reader.lastErr else Ok
      ensures reader.calls > old(reader.calls) && reader.lastN > 0 && n == -1 ==> err == OutOfMemory && !plenty
      ensures reader.calls == old(reader.calls) ==> n == -1 && (plenty ==> err == Again)
      ensures !soft ==> reader.calls - old(reader.calls) <= 1 + maxChunks - |old(hs)|
    {
      hide Valid, Mem, Content, Room;
      n, err := 0, Again;
      var left := maxLen;
      ReaderApart(reader);
      LimitLook();
      while true
        invariant Valid() && forall o :: o in Mem() && o !in old(Mem()) ==> fresh(o)
        invariant reader !in Mem() && |hs| >= |old(hs)|
        invariant !soft ==> |hs| <= maxChunks
        invariant old(reader.delivered) <= reader.delivered
        invariant Content() == old(Content()) + reader.delivered[|old(reader.delivered)|..]
        invariant n == |reader.delivered| - |old(reader.delivered)|
        invariant maxLen > 0 ==> left > 0 && n + left == maxLen
        invariant maxLen == 0 ==> left == 0
        invariant n > 0 ==> tail != null && tail.w >= chunkSize
        invariant reader.calls - old(reader.calls) <= |hs| - |old(hs)| + if n == 0 then 0 else 1
        invariant if n == 0 then reader.calls == old(reader.calls)
                  else reader.calls > old(reader.calls) && reader.lastN > 0
        decreases |reader.script|
      {
        var k;
        k, err := Sipn(left, reader);
        if k < 0 {
          if n == 0 || err != Again {
            n := -1;
          } else {
            err := Ok;
          }
          break;
        }
        if k == 0 {
          err := Ok;
          break;
        }
        n := n + k;
        if maxLen != 0 {
          left := left - k;
          if left == 0 {
            break;
          }
        }
        if tail != null && !tail.IsFull() {
          break;
        }
      }
    }

    // Curl_bufq_reset: all chunks become spares, with or without a pool.
    method Reset()
      requires Valid()
      modifies Mem()
      ensures Valid() && Mem() <= old(Mem())
      ensures Content() == [] && hs == [] && chunkCount == old(chunkCount)
    {
      hide Valid, Draining, Foot, Mem, Repr;
      DrainStart();
      EmptyLook();
      FirstLook();
      while head != null
        invariant Draining() && Mem() <= old(Mem()) && chunkCount == old(chunkCount)
        invariant (head == null <==> hs == []) && (head != null ==> head in Mem())
        decreases |hs|
      {
        MoveToSpare();
      }
      tail := null;
      parts := [];
      DrainEnd();
    }

    lemma DrainStart()
      requires Valid()
      ensures Draining() && Shape(0)
    {
    }

    lemma DrainEnd()
      requires Draining() && hs == [] && parts == [] && tail == null
      ensures Valid()
    {
    }

    // Inside the loop of Curl_bufq_reset the tail is out of date.
    ghost predicate Draining()
      reads `head, `spare, `hs, `ss, `chunkCount, hs`next, ss`next, pool, (if pool == null then [] else pool.list)`next
    {
      && List(head, hs, chunkSize) && List(spare, ss, chunkSize) && Disjoint(hs, ss)
      && Counted(0) && PoolOk()
    }

    method MoveToSpare()
      requires Draining() && head != null
      modifies `head, `spare, `hs, `ss, head
      ensures Draining() && Mem() <= old(Mem())
      ensures |hs| < |old(hs)| && (head == null <==> hs == []) && (head != null ==> head in Mem())
    {
      hide Linked, Apart, Foot, Disjoint, Outside, BufcPool.Valid;
      DrainFacts();
      var c := head;
      head := c.next;
      c.next := spare;
      ListPush(c, spare, ss, chunkSize);
      spare := c;
      hs, ss := hs[1..], [c] + ss;
      ListAnchor(head, hs, chunkSize);
    }

    lemma DrainFacts()
      requires Draining() && head != null
      ensures hs != [] && head == hs[0] && List(head.next, hs[1..], chunkSize) && head.data.Length == chunkSize
      ensures Outside(head, ss) && head !in hs[1..] && head !in ss
      ensures Disjoint(hs[1..], [head] + ss)
      ensures Foot(hs) == Foot(hs[1..]) + {head, head.data} && Foot([head] + ss) == Foot(ss) + {head, head.data}
      ensures pool != null ==>
        head !in pool.list && Disjoint(hs[1..], pool.list) && Disjoint([head] + ss, pool.list)
    {
      ListAnchor(head, hs, chunkSize);
      ListPop(head, hs, chunkSize);
      FootPop(hs);
      FootPop([head] + ss);
      assert ([head] + ss)[1..] == ss;
      DisjointPop(hs, ss);
      if pool != null {
        DisjointPop(hs, pool.list);
      }
    }
  }

  lemma Appended(taken: seq<byte>, before: seq<byte>, start: seq<byte>, buf: seq<byte>, done: nat, more: nat)
    requires done + more <= |buf| && taken + before == start + buf[..done]
    ensures taken + (before + buf[done..][..more]) == start + buf[..done + more]
  {
    calc {
      taken + (before + buf[done..][..more]);
      (taken + before) + buf[done..][..more];
      start + (buf[..done] + buf[done..][..more]);
      { assert buf[..done + more] == buf[..done] + buf[done..][..more]; }
      start + buf[..done + more];
    }
  }

  // Bytes that fit in the chunks still to be had.
  ghost function Capacity(size: nat, maxChunks: nat, used: nat): nat {
    if used < maxChunks then size * (maxChunks - used) else 0
  }

  lemma CapacityStep(size: nat, maxChunks: nat, used: nat)
    ensures used < maxChunks ==> Capacity(size, maxChunks, used) == size + Capacity(size, maxChunks, used + 1)
    ensures used >= maxChunks ==> Capacity(size, maxChunks, used) == 0
  {
  }

  lemma CapacitySum(size: nat, maxChunks: nat, n: nat, w: nat, total: nat)
    requires n < maxChunks && w <= size && total <= n * size + w
    ensures total + (size - w) + Capacity(size, maxChunks, n + 1) <= maxChunks * size
  {
    assert Capacity(size, maxChunks, n + 1) == size * (maxChunks - n - 1);
    assert size * (maxChunks - n - 1) + n * size + size == maxChunks * size;
  }

  // The first part without its first n bytes.
  lemma FirstCut(parts: seq<seq<byte>>, n: nat)
    requires parts != [] && n <= |parts[0]|
    ensures var cut := parts[0 := parts[0][n..]];
      |cut| == |parts| && cut[0] == parts[0][n..] && cut[1..] == parts[1..] && parts[0] == parts[0][..n] + cut[0]
  {
  }

  // Bytes taken out of the first part are taken off the front of the whole.
  lemma FirstTaken(was: seq<seq<byte>>, out: seq<byte>, parts: seq<seq<byte>>)
    requires |was| == |parts| > 0 && was[0] == out + parts[0] && parts[1..] == was[1..]
    ensures Flatten(was) == out + Flatten(parts)
  {
    assert out + (parts[0] + Flatten(parts[1..])) == (out + parts[0]) + Flatten(parts[1..]);
  }

  // Only the first chunk changed.
  lemma HoldsFirst(hs: seq<Chunk>, parts: seq<seq<byte>>, v: seq<byte>, dlen: nat)
    requires hs != [] && |parts| == |hs| && Holds(hs[1..], parts[1..], dlen)
    requires hs[0].Sane() && hs[0].View() == v
    requires |hs| > 1 ==> v == [] || hs[0].w == dlen
    requires |hs| > 2 ==> parts[1] != []
    ensures Holds(hs, parts[0 := v], dlen)
  {
    assert forall i :: 0 < i < |hs| ==> hs[i] == hs[1..][i - 1] && parts[i] == parts[1..][i - 1];
  }

  // Only the last chunk changed.
  lemma HoldsLast(hs: seq<Chunk>, parts: seq<seq<byte>>, v: seq<byte>, dlen: nat)
    requires hs != [] && |parts| == |hs| && Holds(hs[..|hs| - 1], parts[..|hs| - 1], dlen)
    requires hs[|hs| - 1].Sane() && hs[|hs| - 1].View() == v
    requires var n := |hs| - 1; n > 0 ==> if parts[n - 1] == [] then n == 1 else hs[n - 1].w == dlen
    ensures Holds(hs, parts[|hs| - 1 := v], dlen)
  {
    var n := |hs| - 1;
    assert forall i :: 0 <= i < n ==> hs[i] == hs[..n][i] && parts[i] == parts[..n][i];
  }

  // A full chunk got an empty successor.
  lemma HoldsPush(hs: seq<Chunk>, parts: seq<seq<byte>>, c: Chunk, dlen: nat)
    requires Holds(hs, parts, dlen) && c.r == c.w == 0
    requires hs != [] ==> hs[|hs| - 1].w == dlen > 0
    ensures Holds(hs + [c], parts + [[]], dlen)
  {
    var t, u := hs + [c], parts + [[]];
    assert forall i :: 0 <= i < |hs| ==> t[i] == hs[i] && u[i] == parts[i];
    assert hs != [] ==> |parts[|hs| - 1]| == hs[|hs| - 1].w - hs[|hs| - 1].r;
    assert c.View() == [];
  }

  lemma HoldsDrop(hs: seq<Chunk>, parts: seq<seq<byte>>, dlen: nat)
    requires Holds(hs, parts, dlen) && hs != []
    ensures Holds(hs[1..], parts[1..], dlen)
  {
  }
}
