// curl-8.13.0/lib/conncache.c and cshutdn.c: every run of one multi handle stays within its limits.

module ConnectionRuns {
  import opened Common
  import opened PoolBundles
  import opened ConnectionPool

  datatype PoolOp =
    | Open(c: Connection, place: nat, clock: nat -> int)  // a new connection, if the limits allow it
    | Use(c: Connection, inuse: nat)                      // transfers come and go
    | Idle(c: Connection, most: nat, clock: nat -> int)
    | Close(c: Connection, aborted: bool)
    | Shutdowns(done: seq<bool>)
    | ShutdownOldest

  ghost function Named(op: PoolOp): set<Connection> {
    if op.Open? || op.Use? || op.Idle? || op.Close? then {op.c} else {}
  }

  ghost function AllNamed(ops: seq<PoolOp>): set<Connection> {
    set k, c | 0 <= k < |ops| && c in Named(ops[k]) :: c
  }

  // Known(c) for every connection of the run, and no others in the pool.
  ghost predicate Tracked(m: Multi, named: set<Connection>)
    reads m, named`inCpool
  {
    Members(m.bundles) <= named && forall c :: c in named ==> m.Known(c)
  }

  // A connection leaves the pool of its own accord only.
  ghost predicate LetGo(op: PoolOp, c: Connection) {
    op.Close? && op.c == c && op.aborted
  }

  // One operation where it applies: Open takes a connection that is in no list, Idle one of the pool, and
  // Close any that is not shutting down already; where closing one out of the pool could add it to the
  // shutdown list, there must be room (see UnpooledExact).
  method Do(m: Multi, op: PoolOp, ghost named: set<Connection>)
    requires m.Valid() && m.WithinLimits() && Named(op) <= named && Tracked(m, named)
    modifies m, named
    ensures m.Valid() && m.WithinLimits() && Tracked(m, named)
    ensures forall c :: c in old(Members(m.bundles)) && old(c.inuse) > 0 && !LetGo(op, c) ==> c in Members(m.bundles)
  {
    hide Shaped, Sum, Distinct, Within, UsedLater, Load;
    match op
    case Open(c, place, clock) =>
      DoOpen(m, c, place, clock, named);
    case Use(c, inuse) =>
      c.inuse := inuse;
    case Idle(c, most, clock) =>
      if c.inCpool {
        ghost var bs, list := m.bundles, m.shutting;
        var kept;
        ghost var gone;
        kept, gone := m.NowIdle(c, most, clock);
        ShrunkWithin(m.maxHost, m.maxTotal, bs, list, m.bundles, m.shutting);
      }
    case Close(c, aborted) =>
      DoClose(m, c, aborted, named);
    case Shutdowns(done) =>
      if |done| == |m.shutting| {
        ghost var bs, list := m.bundles, m.shutting;
        m.Perform(done);
        ShrunkWithin(m.maxHost, m.maxTotal, bs, list, m.bundles, m.shutting);
      }
    case ShutdownOldest =>
      OldestShrinks(m.bundles, m.shutting);
      ghost var bs, list := m.bundles, m.shutting;
      m.DestroyOldest();
      ShrunkWithin(m.maxHost, m.maxTotal, bs, list, m.bundles, m.shutting);
  }

  // A connection is added after the limits were found to allow it.
  method DoOpen(m: Multi, c: Connection, place: nat, clock: nat -> int, ghost named: set<Connection>)
    requires m.Valid() && m.WithinLimits() && c in named && Tracked(m, named)
    modifies m, named`inCpool, named`aborted
    ensures m.Valid() && m.WithinLimits() && Tracked(m, named)
    ensures forall x :: x in old(Members(m.bundles)) && x.inuse > 0 ==> x in Members(m.bundles)
  {
    hide Shaped, Sum, Distinct, UsedLater, Within, With, At, Load, CountAt;
    if c.inCpool || c in m.shutting {
      return;
    }
    ghost var bs, list := m.bundles, m.shutting;
    var r;
    ghost var mid, lastDest, lastTotal;
    r, mid, lastDest, lastTotal := m.CheckLimits(c.destination, clock);
    ShrunkWithin(m.maxHost, m.maxTotal, bs, list, m.bundles, m.shutting);
    if r == LimitOk {
      WithMembers(m.bundles, c, place);
      JoinedWithin(m.maxHost, m.maxTotal, m.bundles, m.shutting, c, place);
      var ok := m.Add(c, place);
    }
  }

  // Whether the limits leave room for one more shutting connection, once Curl_cshutdn_add has made some.
  predicate RoomToShut(maxHost: nat, maxTotal: nat, bs: Table, list: seq<Connection>, dest: seq<byte>) {
    && (maxTotal > 0 ==> Sum(bs) < maxTotal)
    && (maxHost > 0 ==> Load(bs, Spared(list, Sum(bs), maxTotal), dest) < maxHost)
  }

  method DoClose(m: Multi, c: Connection, aborted: bool, ghost named: set<Connection>)
    requires m.Valid() && m.WithinLimits() && c in named && Tracked(m, named)
    modifies m, named`inCpool, named`aborted
    ensures m.Valid() && m.WithinLimits() && Tracked(m, named)
    ensures forall x :: x in old(Members(m.bundles)) && x.inuse > 0 && !(x == c && aborted) ==> x in Members(m.bundles)
  {
    hide Shaped, Sum, Distinct, Without, Within, Spared, Shrunk, RoomToShut, Load;
    ghost var bs, list := m.bundles, m.shutting;
    if c.inCpool {
      WithoutMembers(bs, c);
      m.Terminate(c, aborted);
      if c.inCpool {
        ShrunkSame(bs, list);
      } else {
        SparedPart(list, m.numConn, m.maxTotal);
        MovedShrinks(bs, list, c, m.shutting, Spared(list, m.numConn, m.maxTotal));
        ShrunkWithin(m.maxHost, m.maxTotal, bs, list, m.bundles, m.shutting);
      }
    } else if c !in m.shutting {
      if aborted || c.connectOnly || c.inuse > 0
         || RoomToShut(m.maxHost, m.maxTotal, m.bundles, m.shutting, c.destination) {
        SparedWithin(m.maxHost, m.maxTotal, bs, list);
        UnpooledExact(m.maxHost, m.maxTotal, bs, list, c);
        m.Terminate(c, aborted);
      }
    }
  }

  lemma SparedWithin(maxHost: nat, maxTotal: nat, bs: Table, list: seq<Connection>)
    requires Within(maxHost, maxTotal, bs, list)
    ensures Within(maxHost, maxTotal, bs, Spared(list, Sum(bs), maxTotal))
  {
    hide Sum, At;
    var room := Spared(list, Sum(bs), maxTotal);
    forall d
      ensures Load(bs, room, d) <= Load(bs, list, d)
    {
      SparedCount(list, Sum(bs), maxTotal, d);
    }
  }

  lemma SparedCount(list: seq<Connection>, pooled: nat, maxTotal: nat, d: seq<byte>)
    ensures CountAt(Spared(list, pooled, maxTotal), d) <= CountAt(list, d)
  {
    if list != [] {
      assert list == list[..1] + list[1..];
      CountAtConcat(list[..1], list[1..], d);
    }
  }

  // Adding a connection from out of the pool to the shutdown list keeps the limits just when there is room.
  lemma UnpooledExact(maxHost: nat, maxTotal: nat, bs: Table, list: seq<Connection>, c: Connection)
    requires Within(maxHost, maxTotal, bs, list)
    ensures Within(maxHost, maxTotal, bs, Spared(list, Sum(bs), maxTotal) + [c]) <==>
            RoomToShut(maxHost, maxTotal, bs, list, c.destination)
  {
    hide Sum, At, CountAt;
    var room := Spared(list, Sum(bs), maxTotal);
    SparedWithin(maxHost, maxTotal, bs, list);
    forall d
      ensures Load(bs, room + [c], d) == Load(bs, room, d) + if c.destination == d then 1 else 0
    {
      CountAtSnoc(room, c, d);
    }
  }

  // Without room either limit can break: one connection in the pool, limits of one, and another that was
  // never added, to the same destination or to any.
  lemma UnpooledBreaks(p: Connection, c: Connection)
    ensures var bs := [Bundle(p.destination, [p])];
      && Shaped(bs)
      && Within(0, 1, bs, []) && !Within(0, 1, bs, Spared([], Sum(bs), 1) + [c])
      && Within(1, 0, bs, [])
      && (c.destination == p.destination ==> !Within(1, 0, bs, Spared([], Sum(bs), 0) + [c]))
  {
    var b := Bundle(p.destination, [p]);
    var bs := [b];
    SumOne(b);
    assert GoodBundle(b) && Find(bs, p.destination) == Some(0);
    assert At(bs, p.destination) == [p];
    forall d
      ensures |At(bs, d)| == if d == p.destination then 1 else 0
    {
      assert d != p.destination ==> Find(bs, d) == None;
    }
    UnpooledExact(0, 1, bs, [], c);
    UnpooledExact(1, 0, bs, [], c);
  }

  // Every run keeps the pool sound and both limits.
  method Run(m: Multi, ops: seq<PoolOp>)
    requires m.Valid() && m.bundles == [] && m.shutting == [] && forall c :: c in AllNamed(ops) ==> !c.inCpool
    modifies m, AllNamed(ops)
    ensures m.Valid() && m.WithinLimits()
  {
    hide Shaped, Sum, Distinct, Within;
    ghost var named := AllNamed(ops);
    NothingWithin(m.maxHost, m.maxTotal);
    for k := 0 to |ops|
      invariant m.Valid() && m.WithinLimits() && Tracked(m, named)
    {
      Do(m, ops[k], named);
    }
  }

  lemma NothingWithin(maxHost: nat, maxTotal: nat)
    ensures Within(maxHost, maxTotal, [], [])
  {
  }

  lemma OldestShrinks(bs: Table, list: seq<Connection>)
    requires Distinct(list)
    ensures var r := if list == [] then [] else list[1..]; Distinct(r) && Shrunk(bs, list, bs, r)
    ensures list != [] ==> forall c :: c in list[1..] ==> c in list
  {
    ShrunkSame(bs, list);
    if list != [] {
      assert list == list[..1] + list[1..];
      forall d
        ensures Load(bs, list[1..], d) <= Load(bs, list, d)
      {
        CountAtConcat(list[..1], list[1..], d);
      }
    }
  }

  // What shrinks stays within the limits.
  lemma ShrunkWithin(maxHost: nat, maxTotal: nat, bs: Table, list: seq<Connection>, bs': Table, list': seq<Connection>)
    requires Shrunk(bs, list, bs', list') && Within(maxHost, maxTotal, bs, list)
    ensures Within(maxHost, maxTotal, bs', list')
  {
    hide Load, Sum, Members;
  }

  // So does a connection that there is room for.
  lemma JoinedWithin(maxHost: nat, maxTotal: nat, bs: Table, list: seq<Connection>, c: Connection, place: nat)
    requires Within(maxHost, maxTotal, bs, list) && Shaped(bs) && c !in Members(bs)
    requires maxHost > 0 ==> Load(bs, list, c.destination) < maxHost
    requires maxTotal > 0 ==> Sum(bs) + |list| < maxTotal
    ensures Within(maxHost, maxTotal, With(bs, c, place), list)
  {
    hide Load, Sum, Members, Shaped, With;
    WithShape(bs, c, place);
    forall d
      ensures Load(With(bs, c, place), list, d) == Load(bs, list, d) + if d == c.destination then 1 else 0
    {
      JoinedLoad(bs, list, c, place, d);
    }
  }
}
