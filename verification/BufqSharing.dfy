// Any number of queues drawing on one pool (curl-8.13.0/lib/bufq.h:46-58), and what whole runs of
// operations on them do to the bytes.

module BufqSharing {
  import opened Common
  import opened BufqChunk
  import opened BufqCallbacks
  import opened BufQueue

  datatype Op =
    | Write(buf: seq<byte>)
    | Read(len: nat)
    | Skip(len: nat)
    | Unwrite(len: nat)
    | Peek
    | PeekAt(offset: nat)
    | Reset
    | Pass(replies: seq<Reply>)
    | WritePass(buf: seq<byte>, replies: seq<Reply>)
    | Slurp(maxLen: nat, supplies: seq<Supply>)

  // One call on queue q: its result n and err, the bytes that came out (or in, for Slurp), and the
  // number of bytes of `buf` that were taken over.
  datatype Event = Event(q: nat, op: Op, n: int, err: Code, bytes: seq<byte>, stored: nat)

  // What a call does to a queue holding `before`.
  predicate Effect(e: Event, before: seq<byte>, after: seq<byte>) {
    match e.op
    case Write(buf) =>
      && e.stored <= |buf| && after == before + buf[..e.stored]
      && e.n == (if e.err == Ok then e.stored else -1)
      && (e.err == Again ==> e.stored == 0)
    case Read(len) =>
      && e.bytes == before[..Min(len, |before|)] && after == before[|e.bytes|..]
      && if e.bytes == [] then e.n == -1 && e.err == Again else e.n == |e.bytes| && e.err == Ok
    case Skip(len) =>
      && e.bytes == before[..Min(len, |before|)] && after == before[|e.bytes|..]
    case Unwrite(len) =>
      && after == before[..|before| - Min(len, |before|)]
      && e.err == if len <= |before| then Ok else Again
    case Peek =>
      && after == before && e.bytes <= before && (e.bytes == [] <==> before == [])
    case PeekAt(offset) =>
      && after == before && (e.bytes != [] <==> offset < |before|)
      && (offset < |before| ==> e.bytes <= before[offset..])
    case Reset =>
      && after == []
    case Pass(_) =>
      && e.bytes + after == before && (e.n == 0 <==> before == [])
      && (e.n == -1 || e.n == |e.bytes|)
      && (e.n == -1 && e.err == Again ==> e.bytes == [])
    case WritePass(buf, _) =>
      && e.stored <= |buf| && e.bytes + after == before + buf[..e.stored]
      && (e.n == -1 || e.n == e.stored)
      && (e.err == Again ==> e.stored == 0)
    case Slurp(maxLen, _) =>
      && after == before + e.bytes && (maxLen > 0 ==> |e.bytes| <= maxLen)
      && (e.n == -1 || e.n == |e.bytes|)
      && (e.n == -1 && e.err == Again ==> e.bytes == [])
  }

  // Every queue is in order and none shares memory with another.
  ghost predicate Sharing(qs: seq<Bufq>, pool: BufcPool?)
    reads *
  {
    && (forall i :: 0 <= i < |qs| ==> qs[i].Valid() && qs[i].pool == pool)
    && (forall i, j :: 0 <= i < j < |qs| ==> qs[i].Repr() !! qs[j].Repr())
  }

  ghost function Contents(qs: seq<Bufq>): (c: seq<seq<byte>>)
    reads qs
    ensures |c| == |qs| && forall i :: 0 <= i < |qs| ==> c[i] == qs[i].Content()
  {
    seq(|qs|, i requires 0 <= i < |qs| reads qs => qs[i].Content())
  }

  ghost predicate Fits(q: Bufq, pool: BufcPool) {
    pool.chunkSize == q.chunkSize && pool.plenty == q.plenty
  }

  lemma MemApart(q: Bufq, other: Bufq)
    requires q.Valid() && other.Valid() && q.pool == other.pool
    requires q.Repr() !! other.Repr()
    ensures other.Repr() !! q.Mem()
    ensures other.pool != null ==> Fits(other, other.pool)
  {
    hide List, Holds, Disjoint, Foot, BufcPool.Valid;
    if q.pool != null {
      DisjointFoot(other.hs, q.pool.list);
      DisjointFoot(other.ss, q.pool.list);
      PoolObjectApart(q.pool, other.hs);
      PoolObjectApart(q.pool, other.ss);
      QueueObjectApart(other, q.pool.list);
    }
  }

  lemma PoolObjectApart(pool: BufcPool, s: seq<Chunk>)
    ensures pool !in Foot(s)
  {
  }

  lemma QueueObjectApart(q: Bufq, s: seq<Chunk>)
    ensures q !in Foot(s)
  {
  }

  // The pool changed, but `other` still shares nothing with it.
  lemma ValidAgain(q: Bufq, other: Bufq)
    requires q.Valid() && other.Shape(0) && q.pool == other.pool
    requires other.pool != null ==> Fits(other, other.pool)
    requires |other.hs| > 1 ==> other.parts[0] != []
    requires other.Repr() !! q.Mem()
    ensures other.Valid()
  {
    hide List, Holds, Disjoint, Foot, BufcPool.Valid;
    if q.pool != null {
      DisjointFoot(other.hs, q.pool.list);
      DisjointFoot(other.ss, q.pool.list);
    }
  }

  lemma MemShared(q: Bufq, other: Bufq)
    requires q.pool == other.pool
    ensures other.Mem() <= other.Repr() + q.Mem() && other.Repr() <= other.Mem()
  {
  }

  // One call on a queue.
  method Do(q: Bufq, i: nat, op: Op) returns (ghost e: Event)
    requires q.Valid()
    modifies q.Mem()
    ensures q.Valid() && forall o :: o in q.Mem() && o !in old(q.Mem()) ==> fresh(o)
    ensures e.q == i && e.op == op && Effect(e, old(q.Content()), q.Content())
  {
    hide Bufq.Valid, Bufq.Mem, Bufq.Content;
    ghost var before := q.Content();
    match op
    case Write(buf) =>
      var n, err;
      ghost var stored;
      n, err, stored := q.Write(buf);
      e := Event(i, op, n, err, [], stored);
    case Read(len) =>
      var n, err, out := q.Read(len);
      e := Event(i, op, n, err, out, 0);
    case Skip(len) =>
      q.Skip(len);
      e := Event(i, op, 0, Ok, before[..Min(len, |before|)], 0);
    case Unwrite(len) =>
      var err := q.Unwrite(len);
      e := Event(i, op, 0, err, [], 0);
    case Peek =>
      var ok, buf := q.Peek();
      e := Event(i, op, 0, Ok, buf, 0);
    case PeekAt(offset) =>
      var ok, buf := q.PeekAt(offset);
      e := Event(i, op, 0, Ok, buf, 0);
    case Reset =>
      q.Reset();
      e := Event(i, op, 0, Ok, [], 0);
    case _ =>
      e := Call(q, i, op);
  }

  // One call on a queue that takes a callback.
  method Call(q: Bufq, i: nat, op: Op) returns (ghost e: Event)
    requires q.Valid() && (op.Pass? || op.WritePass? || op.Slurp?)
    modifies q.Mem()
    ensures q.Valid() && forall o :: o in q.Mem() && o !in old(q.Mem()) ==> fresh(o)
    ensures e.q == i && e.op == op && Effect(e, old(q.Content()), q.Content())
  {
    hide Bufq.Valid, Bufq.Mem, Bufq.Content;
    match op
    case Pass(replies) =>
      var writer := new Writer(replies);
      var n, err := q.Pass(writer, Ok);
      e := Event(i, op, n, err, writer.taken, 0);
    case WritePass(buf, replies) =>
      var writer := new Writer(replies);
      var n, err;
      ghost var stored;
      n, err, stored := q.WritePass(buf, writer);
      e := Event(i, op, n, err, writer.taken, stored);
    case Slurp(maxLen, supplies) =>
      var reader := new Reader(supplies);
      var n, err := q.Slurpn(maxLen, reader);
      e := Event(i, op, n, err, reader.delivered, 0);
  }

  // One call on one of the queues: the others keep their bytes and everything stays apart, although
  // chunks may have moved between a queue and the pool.
  method Step(qs: seq<Bufq>, pool: BufcPool?, i: nat, op: Op) returns (ghost e: Event)
    requires Sharing(qs, pool) && i < |qs|
    modifies qs[i].Mem()
    ensures Sharing(qs, pool)
    ensures forall j, o :: 0 <= j < |qs| && o in qs[j].Mem() ==>
              o in old(qs[j].Mem()) || o in old(qs[i].Mem()) || fresh(o)
    ensures forall j :: 0 <= j < |qs| && j != i ==> qs[j].Content() == old(qs[j].Content())
    ensures e.q == i && e.op == op && Effect(e, old(qs[i].Content()), qs[i].Content())
  {
    hide Bufq.Shape, Bufq.PoolOk, Bufq.Mem, Bufq.Content, Effect;
    var q := qs[i];
    forall j | 0 <= j < |qs| && j != i
      ensures qs[j].Repr() !! q.Mem() && (pool != null ==> Fits(qs[j], pool))
    {
      MemApart(q, qs[j]);
    }
    forall j | 0 <= j < |qs|
      ensures qs[j].Repr() <= qs[j].Mem()
    {
      MemShared(q, qs[j]);
    }
    e := Do(q, i, op);
    forall j | 0 <= j < |qs| && j != i
      ensures qs[j].Valid() && qs[j].Repr() !! q.Repr()
      ensures qs[j].Mem() <= old(qs[j].Mem()) + q.Mem() && qs[j].Content() == old(qs[j].Content())
    {
      assert qs[j].Shape(0);
      ValidAgain(q, qs[j]);
      MemShared(q, qs[j]);
    }
  }

  // ---- whole runs ----

  // A run, as the contents of all queues before the first call and after each call.
  ghost predicate IsRun(states: seq<seq<seq<byte>>>, events: seq<Event>) {
    && |states| == |events| + 1
    && forall k :: 0 <= k < |events| ==> IsStep(events[k], states[k], states[k + 1])
  }

  ghost predicate IsStep(e: Event, before: seq<seq<byte>>, after: seq<seq<byte>>) {
    && |before| == |after| && e.q < |before|
    && Effect(e, before[e.q], after[e.q])
    && forall j :: 0 <= j < |before| && j != e.q ==> after[j] == before[j]
  }

  lemma RunSnoc(states: seq<seq<seq<byte>>>, events: seq<Event>, e: Event, after: seq<seq<byte>>)
    requires IsRun(states, events) && IsStep(e, states[|events|], after)
    ensures IsRun(states + [after], events + [e])
  {
  }

  ghost function AllMem(qs: seq<Bufq>): (m: set<object>)
    reads *
    ensures forall i :: 0 <= i < |qs| ==> qs[i].Mem() <= m
  {
    set i, o | 0 <= i < |qs| && o in qs[i].Mem() :: o
  }

  // Any sequence of calls is a run of independent byte sequences.
  method Run(qs: seq<Bufq>, pool: BufcPool?, calls: seq<(nat, Op)>)
    returns (ghost events: seq<Event>, ghost states: seq<seq<seq<byte>>>)
    requires Sharing(qs, pool) && forall k :: 0 <= k < |calls| ==> calls[k].0 < |qs|
    modifies AllMem(qs)
    ensures Sharing(qs, pool)
    ensures |events| == |calls| && IsRun(states, events)
    ensures states[0] == old(Contents(qs)) && states[|calls|] == Contents(qs)
    ensures forall k :: 0 <= k < |calls| ==> events[k].q == calls[k].0 && events[k].op == calls[k].1
  {
    hide Bufq.Valid, Bufq.Mem, Bufq.Content, Bufq.Repr, Effect, Sharing, Contents, AllMem, IsRun;
    events, states := [], [Contents(qs)];
    EmptyRun(Contents(qs));
    for n := 0 to |calls|
      invariant Sharing(qs, pool) && IsRun(states, events) && |events| == n && |states| == n + 1
      invariant states[0] == old(Contents(qs)) && states[n] == Contents(qs)
      invariant forall k :: 0 <= k < n ==> events[k].q == calls[k].0 && events[k].op == calls[k].1
      invariant forall i, o :: 0 <= i < |qs| && o in qs[i].Mem() ==> o in old(AllMem(qs)) || fresh(o)
    {
      ghost var e := Step(qs, pool, calls[n].0, calls[n].1);
      RunSnoc(states, events, e, Contents(qs));
      events, states := events + [e], states + [Contents(qs)];
    }
  }

  lemma EmptyRun(start: seq<seq<byte>>)
    ensures IsRun([start], [])
  {
  }

  // The bytes an event put in at the end of its queue, and those it took from the front.
  function Added(e: Event): seq<byte> {
    match e.op
    case Write(buf) => buf[..Min(e.stored, |buf|)]
    case WritePass(buf, _) => buf[..Min(e.stored, |buf|)]
    case Slurp(_, _) => e.bytes
    case _ => []
  }

  function Taken(e: Event): seq<byte> {
    match e.op
    case Read(_) => e.bytes
    case Skip(_) => e.bytes
    case Pass(_) => e.bytes
    case WritePass(_, _) => e.bytes
    case _ => []
  }

  function AllAdded(events: seq<Event>, q: nat): seq<byte> {
    if events == [] then []
    else AllAdded(events[..|events| - 1], q) + if events[|events| - 1].q == q then Added(events[|events| - 1]) else []
  }

  function AllTaken(events: seq<Event>, q: nat): seq<byte> {
    if events == [] then []
    else AllTaken(events[..|events| - 1], q) + if events[|events| - 1].q == q then Taken(events[|events| - 1]) else []
  }

  lemma StepBalance(e: Event, before: seq<byte>, after: seq<byte>)
    requires Effect(e, before, after) && !e.op.Unwrite? && !e.op.Reset?
    ensures before + Added(e) == Taken(e) + after
  {
  }

  // First in, first out, over any run of any number of queues: unless a queue is reset or unwritten,
  // what has been taken from it, followed by what is left, is what was there, followed by what was added.
  lemma {:induction false} Fifo(states: seq<seq<seq<byte>>>, events: seq<Event>, q: nat)
    requires IsRun(states, events) && q < |states[0]|
    requires forall e :: e in events && e.q == q ==> !e.op.Unwrite? && !e.op.Reset?
    ensures |states[|events|]| == |states[0]|
    ensures states[0][q] + AllAdded(events, q) == AllTaken(events, q) + states[|events|][q]
  {
    if events != [] {
      hide Effect, Added, Taken;
      var n := |events| - 1;
      var e := events[n];
      assert IsRun(states[..n + 1], events[..n]);
      assert forall d :: d in events[..n] ==> d in events;
      Fifo(states[..n + 1], events[..n], q);
      assert IsStep(e, states[n], states[n + 1]);
      assert states[..n + 1][n] == states[n];
      if e.q == q {
        StepBalance(e, states[n][q], states[n + 1][q]);
        assert AllAdded(events, q) == AllAdded(events[..n], q) + Added(e);
        assert AllTaken(events, q) == AllTaken(events[..n], q) + Taken(e);
        Glue(states[0][q], AllAdded(events[..n], q), Added(e), AllTaken(events[..n], q), states[n][q],
             Taken(e), states[n + 1][q]);
      } else {
        assert AllAdded(events, q) == AllAdded(events[..n], q) + [] == AllAdded(events[..n], q);
        assert AllTaken(events, q) == AllTaken(events[..n], q) + [] == AllTaken(events[..n], q);
      }
    }
  }

  lemma Glue(start: seq<byte>, a: seq<byte>, a': seq<byte>, t: seq<byte>, mid: seq<byte>, t': seq<byte>, end: seq<byte>)
    requires start + a == t + mid && mid + a' == t' + end
    ensures start + (a + a') == (t + t') + end
  {
    calc {
      start + (a + a');
      (start + a) + a';
      t + (mid + a');
      t + (t' + end);
    }
  }
}
