// curl-8.13.0/lib/conncache.c and cshutdn.c: the connections of one multi handle, those in its pool and
// those shutting down.

module ConnectionPool {
  import opened Common
  import opened PoolBundles

  datatype Limit = LimitOk | LimitDest | LimitTotal

  // An idle connection the pool-wide search may evict.
  predicate Evictable(c: Connection)
    reads c`inuse, c`close
  {
    c.inuse == 0 && !c.close && !c.connectOnly
  }

  // A clock gives the time at each reading; it need not move forward.
  ghost predicate UsedLater(clock: nat -> int, c: Connection)
    reads c`lastused
  {
    exists k :: clock(k) < c.lastused
  }

  ghost predicate UsedBefore(clock: nat -> int, c: Connection)
    reads c`lastused
  {
    exists k :: c.lastused <= clock(k)
  }

  // What max_host_connections and max_total_connections are for.
  ghost predicate Within(maxHost: nat, maxTotal: nat, bs: Table, list: seq<Connection>) {
    && (maxTotal > 0 ==> Sum(bs) + |list| <= maxTotal)
    && (maxHost > 0 ==> forall d :: Load(bs, list, d) <= maxHost)
  }

  // c was used no later than any idle connection of the list.
  ghost predicate OlderThanIdle(c: Connection, list: seq<Connection>)
    reads c`lastused, list`lastused, list`inuse
  {
    forall d :: d in list && d.inuse == 0 ==> c.lastused <= d.lastused
  }

  // The connections taken out of the bundle of a destination: idle, and unused for longest.
  ghost predicate GoneOlder(gone: set<Connection>, clock: nat -> int, dest: seq<byte>, list: seq<Connection>)
    reads gone`inCpool, gone`lastused, gone`inuse, list`lastused, list`inuse
  {
    forall c :: c in gone ==>
      c.inuse == 0 && !c.inCpool && c.destination == dest && UsedBefore(clock, c) && OlderThanIdle(c, list)
  }

  // The next one to go was used no later than those that stay behind it.
  lemma GoneGrows(
      gone: set<Connection>, clock: nat -> int, dest: seq<byte>, list: seq<Connection>, c: Connection, tick: nat,
      list': seq<Connection>)
    requires GoneOlder(gone, clock, dest, list) && OlderThanIdle(c, list) && c.destination == dest
    requires c.inuse == 0 && !c.inCpool && c.lastused <= clock(tick)
    requires forall d :: d in list' ==> d in list
    ensures GoneOlder(gone + {c}, clock, dest, list')
  {
  }

  lemma GoneOut(gone: set<Connection>, clock: nat -> int, dest: seq<byte>, list: seq<Connection>)
    requires GoneOlder(gone, clock, dest, list)
    ensures forall c :: c in gone ==> c.inuse == 0 && !c.inCpool && UsedBefore(clock, c)
  {
  }

  lemma NoneGone(clock: nat -> int, dest: seq<byte>, list: seq<Connection>)
    ensures GoneOlder({}, clock, dest, list)
  {
  }

  // The connections taken out of the pool for the total, the longest unused of all the evictable ones.
  ghost predicate GoneIdle(gone: set<Connection>, clock: nat -> int, left: set<Connection>)
    reads gone, left`lastused, left`inuse, left`close
  {
    forall c :: c in gone ==>
      && !c.inCpool && Evictable(c) && UsedBefore(clock, c)
      && forall d :: d in left && d.inuse == 0 && !d.close && !d.connectOnly ==> c.lastused <= d.lastused
  }

  lemma GoneIdleGrows(
      gone: set<Connection>, clock: nat -> int, left: set<Connection>, c: Connection, tick: nat, left': set<Connection>)
    requires GoneIdle(gone, clock, left) && left' <= left && !c.inCpool && Evictable(c) && c.lastused <= clock(tick)
    requires forall d :: d in left && d.inuse == 0 && !d.close && !d.connectOnly ==> c.lastused <= d.lastused
    ensures GoneIdle(gone + {c}, clock, left')
  {
  }

  lemma GoneIdleOut(gone: set<Connection>, clock: nat -> int, left: set<Connection>)
    requires GoneIdle(gone, clock, left)
    ensures forall c :: c in gone ==> c.inuse == 0 && !c.inCpool && UsedBefore(clock, c)
  {
  }

  lemma NoneGoneIdle(clock: nat -> int, left: set<Connection>)
    ensures GoneIdle({}, clock, left)
  {
  }

  // The last eviction of a loop: the pool and the shutdown list before it, and the connection.
  datatype Eviction = Nothing | Last(bs: Table, list: seq<Connection>, c: Connection)

  class Multi {
    const maxHost: nat    // max_host_connections, 0 for none
    const maxTotal: nat   // max_total_connections, 0 for none
    const socketCb: bool
    const plenty: bool    // no allocation ever fails
    var bundles: Table
    var numConn: nat
    var shutting: seq<Connection>

    constructor (maxHost: nat, maxTotal: nat, socketCb: bool, plenty: bool)
      ensures Valid() && bundles == [] && shutting == []
      ensures this.maxHost == maxHost && this.maxTotal == maxTotal
      ensures this.socketCb == socketCb && this.plenty == plenty
    {
      this.maxHost, this.maxTotal, this.socketCb, this.plenty := maxHost, maxTotal, socketCb, plenty;
      bundles, numConn, shutting := [], 0, [];
    }

    ghost predicate Valid()
      reads this, Members(bundles)`inCpool, shutting`inCpool
    {
      && Shaped(bundles)
      && numConn == Sum(bundles)
      && Distinct(shutting)
      && (forall c :: c in Members(bundles) ==> c.inCpool)
      && (forall c :: c in shutting ==> !c.inCpool)
    }

    ghost predicate WithinLimits()
      reads `bundles, `shutting
    {
      Within(maxHost, maxTotal, bundles, shutting)
    }

    // The flag of c says whether c is in this pool.
    ghost predicate Known(c: Connection)
      reads `bundles, `shutting, c`inCpool
    {
      (c.inCpool ==> c in Members(bundles)) && (c in shutting ==> !c.inCpool)
    }

    // cpool_remove_conn
    method RemoveConn(c: Connection)
      requires Valid() && c in Members(bundles)
      modifies `bundles, `numConn, c`inCpool
      ensures Valid() && !c.inCpool && bundles == Without(old(bundles), c) && numConn == old(numConn) - 1
    {
      hide Shaped, Sum, Without, Distinct, At;
      WithoutShape(bundles, c);
      WithoutMembers(bundles, c);
      TakeOut(c);
      numConn := numConn - 1;
    }

    // cpool_bundle_remove, and cpool_remove_bundle when nothing is left.
    method TakeOut(c: Connection)
      requires Shaped(bundles) && c in Members(bundles)
      modifies `bundles, c`inCpool
      ensures !c.inCpool && bundles == Without(old(bundles), c)
    {
      AtMember(bundles, c);
      var i := Find(bundles, c.destination).value;
      var rest := Less(bundles[i].conns, c);
      c.inCpool := false;
      if rest == [] {
        bundles := bundles[..i] + bundles[i + 1..];
      } else {
        bundles := bundles[i := Bundle(bundles[i].dest, rest)];
      }
    }

    // Curl_cpool_add. Without memory for a bundle nothing changes.
    method Add(c: Connection, place: nat) returns (ok: bool)
      requires Valid() && !c.inCpool && c !in shutting
      modifies `bundles, `numConn, c`inCpool
      ensures Valid()
      ensures !ok ==> bundles == old(bundles) && numConn == old(numConn) && !c.inCpool
      ensures ok ==> bundles == With(old(bundles), c, place) && numConn == old(numConn) + 1 && c.inCpool
      ensures plenty || At(old(bundles), c.destination) != [] ==> ok
    {
      hide Shaped, Sum, Distinct, Members;
      var r := Find(bundles, c.destination);
      if r == None && !plenty {
        if * {
          NoBundle(bundles, c.destination);
          return false;
        }
      }
      WithShape(bundles, c, place);
      WithMembers(bundles, c, place);
      match r {
        case Some(i) =>
          bundles := bundles[i := Bundle(bundles[i].dest, bundles[i].conns + [c])];
        case None =>
          var b := Bundle(c.destination, [c]);
          bundles := if place <= |bundles| then bundles[..place] + [b] + bundles[place..] else bundles + [b];
      }
      c.inCpool := true;
      numConn := numConn + 1;
      ok := true;
    }

    // Curl_cshutdn_add; the event callback may refuse the connection, which then is closed.
    method ShutdownAdd(c: Connection, pooled: nat)
      requires Distinct(shutting) && c !in shutting
      modifies `shutting
      ensures Distinct(shutting)
      ensures shutting == Spared(old(shutting), pooled, maxTotal) + if socketCb && c.refused then [] else [c]
    {
      if maxTotal > 0 && maxTotal <= pooled + |shutting| {
        DestroyOldest();
      }
      if socketCb {
        if c.refused {
          return;
        }
      }
      shutting := shutting + [c];
    }

    // cshutdn_destroy_oldest
    method DestroyOldest()
      modifies `shutting
      ensures shutting == if old(shutting) == [] then [] else old(shutting)[1..]
    {
      if shutting != [] {
        shutting := shutting[1..];
      }
    }

    // The shutdown list after a connection has left a pool that then holds `pooled`.
    ghost function Discarded(list: seq<Connection>, pooled: nat, c: Connection, aborted: bool): seq<Connection> {
      if aborted || c.connectOnly || c.overAtOnce then list
      else Spared(list, pooled, maxTotal) + if socketCb && c.refused then [] else [c]
    }

    // What `last` says of the way to the pool as it is.
    ghost predicate EndsWith(last: Eviction, bs: Table, list: seq<Connection>)
      reads `bundles, `shutting
    {
      Leads(last, bs, list, bundles, shutting)
    }

    // The evictions lead from bs and list to bs1 and list1.
    ghost predicate Leads(last: Eviction, bs: Table, list: seq<Connection>, bs1: Table, list1: seq<Connection>) {
      match last
      case Nothing => bs1 == bs && list1 == list
      case Last(bs', list', c) =>
        && Members(bs') <= Members(bs) && c in Members(bs')
        && bs1 == Without(bs', c) && list1 == Discarded(list', Sum(bs1), c, false)
    }

    // cpool_discard_conn of a connection out of the pool.
    method Discard(c: Connection, aborted: bool)
      requires Valid() && !c.inCpool && c !in shutting
      modifies `shutting, c`aborted
      ensures Valid()
      ensures shutting == old(shutting) || Joined(old(shutting), c)
      ensures c.inuse > 0 && !aborted ==> shutting == old(shutting) && c.aborted == old(c.aborted)
      ensures c.inuse == 0 || aborted ==>
        && shutting == Discarded(old(shutting), numConn, c, aborted)
        && c.aborted == (aborted || c.connectOnly)
    {
      hide Shaped, Sum, Distinct, Spared;
      if c.inuse > 0 && !aborted {
        return;
      }
      c.aborted := aborted || c.connectOnly;
      var done := c.aborted;
      if !done {
        done := c.overAtOnce;
      }
      if !done {
        SparedPart(shutting, numConn, maxTotal);
        ShutdownAdd(c, numConn);
        assert forall x :: x in shutting ==> x in old(shutting) || x == c;
      }
    }

    // The shutdown list was `before` and room was made for c.
    ghost predicate Joined(before: seq<Connection>, c: Connection)
      reads this
    {
      var room := Spared(before, numConn, maxTotal);
      shutting == room || shutting == room + [c]
    }

    // Curl_conn_terminate
    method Terminate(c: Connection, aborted: bool)
      requires Valid() && Known(c) && c !in shutting
      modifies `bundles, `numConn, `shutting, c`inCpool, c`aborted
      ensures Valid()
      ensures c.inuse > 0 && !aborted ==>
        && bundles == old(bundles) && shutting == old(shutting) && numConn == old(numConn)
        && c.inCpool == old(c.inCpool) && c.aborted == old(c.aborted)
      ensures !(c.inuse > 0 && !aborted) ==>
        && !c.inCpool
        && bundles == (if old(c.inCpool) then Without(old(bundles), c) else old(bundles))
        && numConn == old(numConn) - (if old(c.inCpool) then 1 else 0)
        && (shutting == old(shutting) || Joined(old(shutting), c))
        && shutting == Discarded(old(shutting), numConn, c, aborted)
        && c.aborted == (aborted || c.connectOnly)
    {
      hide Shaped, Sum, Distinct, Spared, Without;
      if c.inuse > 0 && !aborted {
        return;
      }
      if c.inCpool {
        RemoveConn(c);
      }
      Discard(c, aborted || c.connectOnly);
    }

    // Terminating a pooled connection does not add to any load.
    method Evict(c: Connection)
      requires Valid() && c in Members(bundles) && c.inuse == 0
      modifies `bundles, `numConn, `shutting, c`inCpool, c`aborted
      ensures Valid() && Shrunk(old(bundles), old(shutting), bundles, shutting)
      ensures bundles == Without(old(bundles), c) && numConn == old(numConn) - 1
      ensures shutting == Discarded(old(shutting), numConn, c, false)
      ensures Members(bundles) == Members(old(bundles)) - {c} && !c.inCpool
    {
      hide Shaped, Sum, Distinct, Without, Spared, Shrunk;
      WithoutMembers(bundles, c);
      Terminate(c, false);
      SparedPart(old(shutting), numConn, maxTotal);
      MovedShrinks(old(bundles), old(shutting), c, shutting, Spared(old(shutting), numConn, maxTotal));
    }

    // Curl_cshutdn_dest_count
    method DestCount(dest: seq<byte>) returns (n: nat)
      ensures n == CountAt(shutting, dest)
    {
      n := 0;
      for k := 0 to |shutting|
        invariant n == CountAt(shutting[..k], dest)
      {
        assert shutting[..k + 1][..k] == shutting[..k];
        if shutting[k].destination == dest {
          n := n + 1;
        }
      }
      assert shutting[..|shutting|] == shutting;
    }

    // The first half of Curl_cpool_check_limits on its way from bs and list: who is gone, and that the last
    // one went when the destination still had its limit.
    ghost predicate DestWay(
        bs: Table, list: seq<Connection>, gone: set<Connection>, clock: nat -> int, dest: seq<byte>, last: Eviction)
      reads this, gone, At(bundles, dest)
    {
      && Shrunk(bs, list, bundles, shutting) && Members(bundles) <= Members(bs)
      && gone == Members(bs) - Members(bundles) && GoneOlder(gone, clock, dest, At(bundles, dest))
      && EndsWith(last, bs, list)
      && (last.Last? ==> |At(last.bs, dest)| >= maxHost && CountAt(last.list, dest) == 0)
      && (Load(bs, list, dest) < maxHost ==> bundles == bs && shutting == list)
    }

    lemma DestStart(clock: nat -> int, dest: seq<byte>)
      ensures DestWay(bundles, shutting, {}, clock, dest, Nothing)
    {
      ShrunkSame(bundles, shutting);
      NoneGone(clock, dest, At(bundles, dest));
    }

    lemma DestFull(
        bs: Table, list: seq<Connection>, gone: set<Connection>, clock: nat -> int, dest: seq<byte>, last: Eviction)
      requires DestWay(bs, list, gone, clock, dest, last) && |At(bundles, dest)| >= maxHost
      ensures Shrunk(bs, list, bundles, shutting) && Members(bundles) <= Members(bs)
      ensures gone == Members(bs) - Members(bundles) && GoneOlder(gone, clock, dest, At(bundles, dest))
      ensures Load(bs, list, dest) >= maxHost
    {
      hide GoneOlder, EndsWith;
    }

    // From bs1 and list1 the connection c has gone.
    lemma DestGoes(
        bs: Table, list: seq<Connection>, bs1: Table, list1: seq<Connection>, gone: set<Connection>, clock: nat -> int,
        dest: seq<byte>, conns: seq<Connection>, c: Connection, tick: nat)
      requires Shrunk(bs, list, bs1, list1) && Members(bs1) <= Members(bs) && gone == Members(bs) - Members(bs1)
      requires Load(bs, list, dest) >= maxHost && |At(bs1, dest)| >= maxHost && CountAt(list1, dest) == 0
      requires Shrunk(bs1, list1, bundles, shutting) && c in Members(bs1) && Members(bundles) == Members(bs1) - {c}
      requires bundles == Without(bs1, c) && shutting == Discarded(list1, Sum(bundles), c, false)
      requires GoneOlder(gone, clock, dest, conns) && OlderThanIdle(c, conns) && c.destination == dest
      requires c.inuse == 0 && !c.inCpool && c.lastused <= clock(tick)
      requires forall d :: d in At(bundles, dest) ==> d in conns
      ensures DestWay(bs, list, gone + {c}, clock, dest, Last(bs1, list1, c))
    {
      hide Sum, Shrunk, Without, Discarded, CountAt, GoneOlder, OlderThanIdle, Load, At;
      GoneGrows(gone, clock, dest, conns, c, tick, At(bundles, dest));
      ShrunkTransitive(bs, list, bs1, list1, bundles, shutting);
      assert gone + {c} == Members(bs) - Members(bundles);
    }

    // One eviction: the longest unused one goes.
    method EvictTo(
        dest: seq<byte>, clock: nat -> int, tick: nat,
        ghost bs: Table, ghost list: seq<Connection>, ghost gone: set<Connection>, ghost last: Eviction)
      returns (r: Option<Connection>, ghost gone': set<Connection>, ghost last': Eviction)
      requires Valid() && DestWay(bs, list, gone, clock, dest, last)
      requires |At(bundles, dest)| >= maxHost && CountAt(shutting, dest) == 0
      modifies `bundles, `numConn, `shutting, Members(bundles)`inCpool, Members(bundles)`aborted
      ensures Valid() && DestWay(bs, list, gone', clock, dest, last') && Members(bundles) <= old(Members(bundles))
      ensures r == None ==> forall c :: c in At(bundles, dest) ==> c.inuse > 0 || c.lastused > clock(tick)
      ensures r == None ==> bundles == old(bundles) && shutting == old(shutting)
      ensures r.Some? ==> |At(bundles, dest)| == |At(old(bundles), dest)| - 1
    {
      hide Shaped, Sum, Distinct, Shrunk, Without, Find, GoneOlder, OlderThanIdle, Discarded, CountAt, DestWay;
      gone', last' := gone, last;
      DestFull(bs, list, gone, clock, dest, last);
      ghost var bs1, list1, conns := bundles, shutting, At(bundles, dest);
      r := OldestInBundle(At(bundles, dest), clock(tick));
      if r.Some? {
        AtLess(bundles, dest, r.value);
        Evict(r.value);
        DestGoes(bs, list, bs1, list1, gone, clock, dest, conns, r.value, tick);
        gone', last' := gone + {r.value}, Last(bs1, list1, r.value);
      }
    }

    // The first half of Curl_cpool_check_limits. `clock` gives the time of each search.
    method DestRoom(dest: seq<byte>, clock: nat -> int) returns (ok: bool, ghost last: Eviction)
      requires Valid() && maxHost > 0
      modifies `bundles, `numConn, `shutting, Members(bundles)`inCpool, Members(bundles)`aborted
      ensures Valid() && Shrunk(old(bundles), old(shutting), bundles, shutting)
      ensures ok <==> Load(bundles, shutting, dest) < maxHost
      ensures !ok ==>
        CountAt(shutting, dest) > 0 || forall c :: c in At(bundles, dest) ==> c.inuse > 0 || UsedLater(clock, c)
      ensures GoneOlder(old(Members(bundles)) - Members(bundles), clock, dest, At(bundles, dest))
      ensures EndsWith(last, old(bundles), old(shutting))
      ensures last.Last? ==> |At(last.bs, dest)| >= maxHost && CountAt(last.list, dest) == 0
      ensures Load(old(bundles), old(shutting), dest) < maxHost ==> bundles == old(bundles) && shutting == old(shutting)
    {
      hide Shaped, Sum, Distinct, Shrunk, CountAt, UsedLater, Find, GoneOlder, DestWay, EndsWith, Leads;
      ghost var bs, list := bundles, shutting;
      ghost var gone: set<Connection> := {};
      last := Nothing;
      DestStart(clock, dest);
      var live, shutdowns, tick := |At(bundles, dest)|, 0, 0;
      shutdowns := DestCount(dest);
      while shutdowns == 0 && live >= maxHost
        invariant Valid() && DestWay(bs, list, gone, clock, dest, last) && Members(bundles) <= Members(bs)
        invariant live == |At(bundles, dest)| && shutdowns == CountAt(shutting, dest)
        decreases live
      {
        var oldest;
        oldest, gone, last := EvictTo(dest, clock, tick, bs, list, gone, last);
        if oldest == None {
          AllUsedLater(At(bundles, dest), clock, tick);
          break;
        }
        live, tick := |At(bundles, dest)|, tick + 1;
        shutdowns := DestCount(dest);
      }
      DestEnd(bs, list, gone, clock, dest, last);
      ok := live + shutdowns < maxHost;
    }

    lemma DestEnd(
        bs: Table, list: seq<Connection>, gone: set<Connection>, clock: nat -> int, dest: seq<byte>, last: Eviction)
      requires DestWay(bs, list, gone, clock, dest, last)
      ensures Shrunk(bs, list, bundles, shutting)
      ensures GoneOlder(Members(bs) - Members(bundles), clock, dest, At(bundles, dest))
      ensures EndsWith(last, bs, list)
      ensures last.Last? ==> |At(last.bs, dest)| >= maxHost && CountAt(last.list, dest) == 0
      ensures Load(bs, list, dest) < maxHost ==> bundles == bs && shutting == list
    {
    }

    // The second half of Curl_cpool_check_limits.
    method TotalRoom(clock: nat -> int) returns (ok: bool, ghost last: Eviction)
      requires Valid() && maxTotal > 0
      modifies `bundles, `numConn, `shutting, Members(bundles)`inCpool, Members(bundles)`aborted
      ensures Valid() && Shrunk(old(bundles), old(shutting), bundles, shutting)
      ensures ok <==> Sum(bundles) + |shutting| < maxTotal
      ensures !ok ==> forall c :: c in Members(bundles) ==> !Evictable(c) || UsedLater(clock, c)
      ensures GoneIdle(old(Members(bundles)) - Members(bundles), clock, Members(bundles))
      ensures forall c :: c in old(Members(bundles)) - Members(bundles) ==>
        c.inuse == 0 && !c.inCpool && UsedBefore(clock, c)
      ensures EndsWith(last, old(bundles), old(shutting))
      ensures last.Last? ==> Sum(last.bs) + |last.list| >= maxTotal
      ensures Sum(old(bundles)) + |old(shutting)| < maxTotal ==> bundles == old(bundles) && shutting == old(shutting)
    {
      hide Shaped, Sum, Distinct, Shrunk, Without, UsedLater, UsedBefore, Discarded, GoneIdle;
      ghost var bs, list := bundles, shutting;
      ghost var gone: set<Connection> := {};
      NoneGoneIdle(clock, Members(bundles));
      last := Nothing;
      ShrunkSame(bs, list);
      var tick := 0;
      while numConn + |shutting| >= maxTotal
        invariant Valid() && Shrunk(bs, list, bundles, shutting) && Members(bundles) <= Members(bs)
        invariant gone == Members(bs) - Members(bundles) && GoneIdle(gone, clock, Members(bundles))
        invariant EndsWith(last, bs, list)
        invariant last.Last? ==> Sum(last.bs) + |last.list| >= maxTotal
        invariant Sum(bs) + |list| < maxTotal ==> bundles == bs && shutting == list
        decreases numConn
      {
        var oldest := OldestIdle(clock(tick));
        if oldest == None {
          IdleUsedLater(Members(bundles), clock, tick);
          break;
        }
        ghost var bs1, list1 := bundles, shutting;
        Evict(oldest.value);
        GoneIdleGrows(gone, clock, Members(bs1), oldest.value, tick, Members(bundles));
        gone, last := gone + {oldest.value}, Last(bs1, list1, oldest.value);
        ShrunkTransitive(bs, list, bs1, list1, bundles, shutting);
        tick := tick + 1;
      }
      GoneIdleOut(gone, clock, Members(bundles));
      ok := numConn + |shutting| < maxTotal;
    }

    // cpool_get_oldest_idle: the first of those unused for longest.
    method OldestIdle(now: int) returns (r: Option<Connection>)
      requires Shaped(bundles)
      ensures r == None ==>
        forall c :: c in Members(bundles) && c.inuse == 0 && !c.close && !c.connectOnly ==> now < c.lastused
      ensures r.Some? ==>
        && r.value in Members(bundles) && r.value.lastused <= now
        && r.value.inuse == 0 && !r.value.close && !r.value.connectOnly
        && forall c :: c in Members(bundles) && c.inuse == 0 && !c.close && !c.connectOnly ==>
             r.value.lastused <= c.lastused
    {
      hide Shaped, Distinct, Evictable;
      r := None;
      var highscore := -1;
      for i := 0 to |bundles|
        invariant Best(r, now, highscore)
        invariant r.Some? ==> r.value in Members(bundles) && Evictable(r.value)
        invariant forall j, c :: 0 <= j < i && c in bundles[j].conns && Evictable(c) ==> now - c.lastused <= highscore
      {
        var conns := bundles[i].conns;
        for k := 0 to |conns|
          invariant Best(r, now, highscore)
          invariant r.Some? ==> r.value in Members(bundles) && Evictable(r.value)
          invariant forall j, c :: 0 <= j < i && c in bundles[j].conns && Evictable(c) ==> now - c.lastused <= highscore
          invariant forall c :: c in conns[..k] && Evictable(c) ==> now - c.lastused <= highscore
        {
          var conn := conns[k];
          assert conns[..k + 1] == conns[..k] + [conn];
          assert conn in bundles[i].conns;
          if !Evictable(conn) {
            continue;
          }
          if now - conn.lastused > highscore {
            r, highscore := Some(conn), now - conn.lastused;
          }
        }
        assert conns[..|conns|] == conns;
      }
      EvictableMeans();
    }

    lemma EvictableMeans()
      ensures forall c: Connection {:trigger Evictable(c)} {:trigger c.connectOnly} ::
        Evictable(c) <==> c.inuse == 0 && !c.close && !c.connectOnly
    {
    }

    // Curl_cpool_check_limits. OK means room for one more connection, in all and to `dest`.
    // `mid` is where the evictions for the destination end and those for the total begin.
    method CheckLimits(dest: seq<byte>, clock: nat -> int)
      returns (result: Limit, ghost mid: (Table, seq<Connection>), ghost lastDest: Eviction, ghost lastTotal: Eviction)
      requires Valid()
      modifies `bundles, `numConn, `shutting, Members(bundles)`inCpool, Members(bundles)`aborted
      ensures Valid() && Shrunk(old(bundles), old(shutting), bundles, shutting)
      ensures result == LimitOk <==>
        && (maxHost > 0 ==> Load(bundles, shutting, dest) < maxHost)
        && (maxTotal > 0 ==> Sum(bundles) + |shutting| < maxTotal)
      ensures result == LimitDest ==> maxHost > 0 && Load(bundles, shutting, dest) >= maxHost
      ensures result == LimitDest ==>
        CountAt(shutting, dest) > 0 || forall c :: c in At(bundles, dest) ==> c.inuse > 0 || UsedLater(clock, c)
      ensures result == LimitTotal ==> maxTotal > 0 && Sum(bundles) + |shutting| >= maxTotal
      ensures result == LimitTotal ==> forall c :: c in Members(bundles) ==> !Evictable(c) || UsedLater(clock, c)
      ensures forall c :: c in old(Members(bundles)) && c.inuse > 0 ==> c in Members(bundles)
      ensures forall c :: c in old(Members(bundles)) && c !in Members(bundles) ==> !c.inCpool
      ensures old(RoomFor(dest)) ==> bundles == old(bundles) && shutting == old(shutting)
      // the longest unused ones go, and none more than needed
      ensures Leads(lastDest, old(bundles), old(shutting), mid.0, mid.1) && EndsWith(lastTotal, mid.0, mid.1)
      ensures result == LimitDest ==> lastTotal == Nothing
      ensures lastDest.Last? ==> maxHost > 0 && |At(lastDest.bs, dest)| >= maxHost && CountAt(lastDest.list, dest) == 0
      ensures lastTotal.Last? ==> maxTotal > 0 && Sum(lastTotal.bs) + |lastTotal.list| >= maxTotal
      ensures GoneOlder(old(Members(bundles)) - Members(mid.0), clock, dest, At(mid.0, dest))
      ensures GoneIdle(Members(mid.0) - Members(bundles), clock, Members(bundles))
    {
      hide Shaped, Sum, Distinct, UsedLater, UsedBefore, At, CountAt, Discarded, Without, GoneIdle, GoneOlder, Shrunk;
      hide Evictable, Load;
      ghost var bs, list := bundles, shutting;
      mid, lastDest, lastTotal := (bs, list), Nothing, Nothing;
      ShrunkSame(bs, list);
      NoneGone(clock, dest, At(bs, dest));
      NoneGoneIdle(clock, Members(bs));
      assert Members(bs) - Members(bs) == {};
      if maxHost == 0 && maxTotal == 0 {
        result := LimitOk;
        return;
      }
      if maxHost > 0 {
        var ok;
        ok, lastDest := DestRoom(dest, clock);
        mid := (bundles, shutting);
        ShrunkLoad(bs, list, bundles, shutting, dest);
        GoneOut(Members(bs) - Members(bundles), clock, dest, At(bundles, dest));
        NoneGoneIdle(clock, Members(bundles));
        assert Members(bundles) - Members(bundles) == {};
        if !ok {
          result := LimitDest;
          return;
        }
      }
      if maxTotal > 0 {
        var ok;
        ok, lastTotal := TotalAfter(clock, dest, Members(bs) - Members(bundles));
        ShrunkTransitive(bs, list, mid.0, mid.1, bundles, shutting);
        ShrunkLoad(mid.0, mid.1, bundles, shutting, dest);
        if !ok {
          result := LimitTotal;
          return;
        }
      }
      result := LimitOk;
    }

    // The second half, after connections to dest have gone.
    method TotalAfter(clock: nat -> int, ghost dest: seq<byte>, ghost gone: set<Connection>)
      returns (ok: bool, ghost last: Eviction)
      requires Valid() && maxTotal > 0 && gone !! Members(bundles) && GoneOlder(gone, clock, dest, At(bundles, dest))
      modifies `bundles, `numConn, `shutting, Members(bundles)`inCpool, Members(bundles)`aborted
      ensures Valid() && Shrunk(old(bundles), old(shutting), bundles, shutting)
      ensures ok <==> Sum(bundles) + |shutting| < maxTotal
      ensures !ok ==> forall c :: c in Members(bundles) ==> !Evictable(c) || UsedLater(clock, c)
      ensures GoneIdle(old(Members(bundles)) - Members(bundles), clock, Members(bundles))
      ensures forall c :: c in old(Members(bundles)) - Members(bundles) ==>
        c.inuse == 0 && !c.inCpool && UsedBefore(clock, c)
      ensures EndsWith(last, old(bundles), old(shutting))
      ensures last.Last? ==> Sum(last.bs) + |last.list| >= maxTotal
      ensures Sum(old(bundles)) + |old(shutting)| < maxTotal ==> bundles == old(bundles) && shutting == old(shutting)
      ensures GoneOlder(gone, clock, dest, old(At(bundles, dest)))
    {
      hide Shaped, Sum, Distinct, UsedLater, UsedBefore, CountAt, Discarded, Without, GoneIdle, Shrunk, Evictable;
      ok, last := TotalRoom(clock);
    }

    ghost predicate RoomFor(dest: seq<byte>)
      reads `bundles, `shutting
    {
      && (maxHost > 0 ==> Load(bundles, shutting, dest) < maxHost)
      && (maxTotal > 0 ==> Sum(bundles) + |shutting| < maxTotal)
    }

    // Curl_cpool_conn_now_idle; `most` is the number of connections to keep, 0 for any.
    method NowIdle(c: Connection, most: nat, clock: nat -> int) returns (kept: bool, ghost gone: Option<Connection>)
      requires Valid() && c in Members(bundles)
      modifies `bundles, `numConn, `shutting, Members(bundles)`inCpool, Members(bundles)`aborted, c`lastused
      ensures Valid() && Shrunk(old(bundles), old(shutting), bundles, shutting)
      ensures kept <==> c in Members(bundles)
      ensures c.lastused == clock(0)
      ensures old(numConn) <= most || most == 0 ==> gone == None
      ensures gone == None ==> bundles == old(bundles) && shutting == old(shutting)
      ensures old(numConn) > most > 0 ==>
        (gone.Some? <==> exists x :: x in old(Members(bundles)) && Evictable(x) && x.lastused <= clock(1))
      ensures gone.Some? ==>
        && gone.value in old(Members(bundles)) && gone.value.lastused <= clock(1)
        && gone.value.inuse == 0 && !gone.value.close && !gone.value.connectOnly
        && (forall x :: x in old(Members(bundles)) && x.inuse == 0 && !x.close && !x.connectOnly ==>
              gone.value.lastused <= x.lastused)
        && bundles == Without(old(bundles), gone.value) && numConn == old(numConn) - 1
        && shutting == Discarded(old(shutting), numConn, gone.value, false)
      ensures kept <==> gone != Some(c)
      ensures forall x :: x in old(Members(bundles)) && !old(Evictable(x)) ==> x in Members(bundles)
      ensures forall x :: x in old(Members(bundles)) && x !in Members(bundles) ==> !x.inCpool
    {
      hide Shaped, Sum, Distinct, UsedLater, Shrunk, Without, Discarded;
      ShrunkSame(bundles, shutting);
      gone := None;
      c.lastused := clock(0);
      kept := true;
      if most > 0 && numConn > most {
        var oldest := OldestIdle(clock(1));
        kept, gone := oldest != Some(c), oldest;
        if oldest.Some? {
          Evict(oldest.value);
        }
      }
    }

    // cshutdn_perform; done[k] is what running the shutdown of connection k gives.
    method Perform(done: seq<bool>)
      requires Valid() && |done| == |shutting|
      modifies `shutting
      ensures Valid() && shutting == Unfinished(old(shutting), done)
      ensures Shrunk(bundles, old(shutting), bundles, shutting)
    {
      hide Shaped, Sum, Distinct, Shrunk, Unfinished;
      ghost var list, kept := shutting, [];
      UnfinishedNone();
      UnfinishedShrinks(bundles, list, done);
      assert [] + list[0..] == list;
      var e := 0;
      for seen := 0 to |done|
        invariant shutting == kept + list[seen..] && e == |kept|
        invariant kept == Unfinished(list[..seen], done[..seen])
      {
        UnfinishedStep(list, done, seen);
        AtSeen(kept, list, seen);
        if done[seen] {
          shutting := shutting[..e] + shutting[e + 1..];
        } else {
          e, kept := e + 1, kept + [list[seen]];
        }
      }
      assert list[..|list|] == list && done[..|done|] == done && kept + [] == kept;
    }
  }

  // The score of the best candidate so far.
  ghost predicate Best(r: Option<Connection>, now: int, highscore: int)
    reads if r.Some? then {r.value} else {}
  {
    if r.Some? then highscore == now - r.value.lastused && highscore >= 0 else highscore == -1
  }

  lemma ShrunkLoad(bs: Table, list: seq<Connection>, bs': Table, list': seq<Connection>, dest: seq<byte>)
    requires Shrunk(bs, list, bs', list')
    ensures Load(bs', list', dest) <= Load(bs, list, dest) && Members(bs') <= Members(bs)
  {
  }

  lemma IdleUsedLater(all: set<Connection>, clock: nat -> int, tick: nat)
    requires forall c :: c in all && c.inuse == 0 && !c.close && !c.connectOnly ==> clock(tick) < c.lastused
    ensures forall c :: c in all ==> !Evictable(c) || UsedLater(clock, c)
  {
  }

  lemma AllUsedLater(list: seq<Connection>, clock: nat -> int, tick: nat)
    requires forall c :: c in list ==> c.inuse > 0 || c.lastused > clock(tick)
    ensures forall c :: c in list ==> c.inuse > 0 || UsedLater(clock, c)
  {
  }

  // Every idle connection before place k was used later than the one there.
  ghost predicate FirstOldest(conns: seq<Connection>, k: nat)
    reads conns`lastused, conns`inuse
  {
    k < |conns| && forall j :: 0 <= j < k && conns[j].inuse == 0 ==> conns[k].lastused < conns[j].lastused
  }

  // cpool_bundle_get_oldest_idle: of those unused for longest the first.
  method OldestInBundle(conns: seq<Connection>, now: int) returns (r: Option<Connection>)
    ensures r == None ==> forall c :: c in conns && c.inuse == 0 ==> c.lastused > now
    ensures r.Some? ==> r.value in conns && r.value.inuse == 0 && r.value.lastused <= now
    ensures r.Some? ==> OlderThanIdle(r.value, conns)
    ensures r.Some? ==> exists k :: 0 <= k < |conns| && conns[k] == r.value && FirstOldest(conns, k)
  {
    r := None;
    var highscore := -1;
    ghost var at := 0;
    for k := 0 to |conns|
      invariant Best(r, now, highscore) && (r.Some? ==> r.value in conns && r.value.inuse == 0)
      invariant forall c :: c in conns[..k] && c.inuse == 0 ==> now - c.lastused <= highscore
      invariant r.Some? ==> 0 <= at < k && conns[at] == r.value && FirstOldest(conns, at)
    {
      var conn := conns[k];
      assert conns[..k + 1] == conns[..k] + [conn];
      assert forall j :: 0 <= j < k ==> conns[j] in conns[..k];
      if conn.inuse == 0 && now - conn.lastused > highscore {
        r, highscore, at := Some(conn), now - conn.lastused, k;
      }
    }
    assert conns[..|conns|] == conns;
  }

  // The shutdown list after cshutdn_perform.
  function Unfinished(list: seq<Connection>, done: seq<bool>): seq<Connection>
    requires |done| == |list|
  {
    if list == [] then []
    else
      var n := |list| - 1;
      Unfinished(list[..n], done[..n]) + if done[n] then [] else [list[n]]
  }

  lemma UnfinishedNone()
    ensures Unfinished([], []) == []
  {
  }

  lemma UnfinishedStep(list: seq<Connection>, done: seq<bool>, k: nat)
    requires |done| == |list| && k < |list|
    ensures Unfinished(list[..k + 1], done[..k + 1]) ==
            Unfinished(list[..k], done[..k]) + if done[k] then [] else [list[k]]
  {
    assert list[..k + 1][..k] == list[..k] && done[..k + 1][..k] == done[..k];
  }

  lemma AtSeen(kept: seq<Connection>, list: seq<Connection>, seen: nat)
    requires seen < |list|
    ensures var now, e := kept + list[seen..], |kept|;
      && e < |now| && now[..e] + now[e + 1..] == kept + list[seen + 1..]
      && kept + [list[seen]] + list[seen + 1..] == now
  {
  }

  lemma {:induction false} UnfinishedPart(list: seq<Connection>, done: seq<bool>)
    requires |done| == |list| && Distinct(list)
    ensures var r := Unfinished(list, done); Distinct(r) && (forall c :: c in r ==> c in list) && |r| <= |list|
  {
    if list != [] {
      var n := |list| - 1;
      UnfinishedPart(list[..n], done[..n]);
      forall c | c in Unfinished(list, done)
        ensures c in list
      {
        assert c in list[..n] || c == list[n];
      }
      assert list[n] !in list[..n];
    }
  }

  lemma {:induction false} UnfinishedCount(list: seq<Connection>, done: seq<bool>, d: seq<byte>)
    requires |done| == |list|
    ensures CountAt(Unfinished(list, done), d) <= CountAt(list, d)
  {
    hide CountAt;
    if list == [] {
      UnfinishedNone();
    } else {
      var n := |list| - 1;
      UnfinishedCount(list[..n], done[..n], d);
      UnfinishedStep(list, done, n);
      assert list[..n + 1] == list && done[..n + 1] == done;
      CountAtSnoc(list[..n], list[n], d);
      var before := Unfinished(list[..n], done[..n]);
      CountAtSnoc(before, list[n], d);
      assert before + [] == before;
      assert list[..n] + [list[n]] == list;
    }
  }

  lemma UnfinishedShrinks(bs: Table, list: seq<Connection>, done: seq<bool>)
    requires |done| == |list| && Distinct(list)
    ensures Distinct(Unfinished(list, done)) && Shrunk(bs, list, bs, Unfinished(list, done))
    ensures forall c :: c in Unfinished(list, done) ==> c in list
  {
    hide Distinct, CountAt, Unfinished;
    UnfinishedPart(list, done);
    forall d
      ensures Load(bs, Unfinished(list, done), d) <= Load(bs, list, d)
    {
      UnfinishedCount(list, done, d);
    }
  }

  lemma NoBundle(bs: Table, dest: seq<byte>)
    requires Find(bs, dest) == None
    ensures At(bs, dest) == []
  {
  }

  lemma SparedPart(list: seq<Connection>, pooled: nat, maxTotal: nat)
    requires Distinct(list)
    ensures var room := Spared(list, pooled, maxTotal);
      Distinct(room) && (forall c :: c in room ==> c in list) && (room == list || (list != [] && room == list[1..]))
  {
  }
}
