// curl-8.13.0/lib/conncache.c: connections and the table of bundles, one per destination.

module PoolBundles {
  import opened Common

  // The part of struct connectdata the pool looks at.
  class Connection {
    const destination: seq<byte>
    const connectOnly: bool
    const overAtOnce: bool  // a first try completes its shutdown
    const refused: bool     // the event callback refuses to watch it
    var inuse: nat     // transfers using it, CONN_INUSE
    var lastused: int
    var close: bool
    var aborted: bool
    var inCpool: bool

    constructor (destination: seq<byte>, connectOnly: bool, overAtOnce: bool, refused: bool)
      ensures this.destination == destination && this.connectOnly == connectOnly
      ensures this.overAtOnce == overAtOnce && this.refused == refused
      ensures !inCpool && inuse == 0 && !close && !aborted
    {
      this.destination, this.connectOnly := destination, connectOnly;
      this.overAtOnce, this.refused := overAtOnce, refused;
      inuse, lastused, close, aborted, inCpool := 0, 0, false, false, false;
    }
  }

  // struct cpool_bundle
  datatype Bundle = Bundle(dest: seq<byte>, conns: seq<Connection>)

  // The hash table, in the order an iteration meets the bundles.
  type Table = seq<Bundle>

  ghost predicate Distinct(s: seq<Connection>) {
    forall i, j :: 0 <= i < j < |s| ==> s[i] != s[j]
  }

  ghost predicate GoodBundle(b: Bundle) {
    b.conns != [] && Distinct(b.conns) && forall c :: c in b.conns ==> c.destination == b.dest
  }

  // One bundle per destination, none empty, each connection once and in the bundle of its destination.
  ghost predicate Shaped(bs: Table) {
    && (forall i :: 0 <= i < |bs| ==> GoodBundle(bs[i]))
    && (forall i, j :: 0 <= i < j < |bs| ==> bs[i].dest != bs[j].dest)
  }

  ghost function Members(bs: Table): set<Connection> {
    set i, c | 0 <= i < |bs| && c in bs[i].conns :: c
  }

  // cpool_find_bundle
  function Find(bs: Table, dest: seq<byte>): (r: Option<nat>)
    ensures r.Some? ==> r.value < |bs| && bs[r.value].dest == dest
    ensures r == None ==> forall i :: 0 <= i < |bs| ==> bs[i].dest != dest
  {
    if bs == [] then None
    else if bs[0].dest == dest then Some(0)
    else
      var r := Find(bs[1..], dest);
      assert r == None ==> forall i :: 1 <= i < |bs| ==> bs[i] == bs[1..][i - 1];
      if r.Some? then Some(r.value + 1) else None
  }

  // The connections of one destination.
  function At(bs: Table, dest: seq<byte>): seq<Connection> {
    match Find(bs, dest)
    case None => []
    case Some(i) => bs[i].conns
  }

  // The sum of the bundle sizes.
  function Sum(bs: Table): nat {
    if bs == [] then 0 else |bs[0].conns| + Sum(bs[1..])
  }

  lemma {:induction false} SumConcat(a: Table, b: Table)
    ensures Sum(a + b) == Sum(a) + Sum(b)
  {
    if a == [] {
      assert a + b == b;
    } else {
      assert (a + b)[1..] == a[1..] + b;
      SumConcat(a[1..], b);
    }
  }

  // ---- changes ----

  function IndexOf(s: seq<Connection>, c: Connection): (k: nat)
    requires c in s
    ensures k < |s| && s[k] == c
  {
    if s[0] == c then 0 else 1 + IndexOf(s[1..], c)
  }

  // A list after Curl_node_remove.
  function Less(s: seq<Connection>, c: Connection): (r: seq<Connection>)
  {
    if c in s then s[..IndexOf(s, c)] + s[IndexOf(s, c) + 1..] else s
  }

  lemma LessMembers(s: seq<Connection>, c: Connection)
    requires Distinct(s)
    ensures Distinct(Less(s, c)) && |Less(s, c)| == |s| - if c in s then 1 else 0
    ensures forall x :: x in Less(s, c) <==> x in s && x != c
  {
    if c in s {
      TakenOut(s, IndexOf(s, c));
    }
  }

  lemma TakenOut(s: seq<Connection>, k: nat)
    requires Distinct(s) && k < |s|
    ensures Distinct(s[..k] + s[k + 1..])
    ensures forall x :: x in s[..k] + s[k + 1..] <==> x in s && x != s[k]
  {
    var r := s[..k] + s[k + 1..];
    assert forall i :: 0 <= i < |r| ==> r[i] == s[if i < k then i else i + 1];
    forall x
      ensures x in r <==> x in s && x != s[k]
    {
      if i :| 0 <= i < |s| && s[i] == x && i != k {
        assert r[if i < k then i else i - 1] == x;
      }
    }
  }

  // The table after cpool_remove_conn; a bundle that gets empty goes.
  function Without(bs: Table, c: Connection): Table {
    match Find(bs, c.destination)
    case None => bs
    case Some(i) =>
      var rest := Less(bs[i].conns, c);
      if rest == [] then bs[..i] + bs[i + 1..] else bs[i := Bundle(bs[i].dest, rest)]
  }

  // The table after c has joined it; a new bundle may take any place.
  function With(bs: Table, c: Connection, place: nat): Table {
    match Find(bs, c.destination)
    case None =>
      var b := Bundle(c.destination, [c]);
      if place <= |bs| then bs[..place] + [b] + bs[place..] else bs + [b]
    case Some(i) => bs[i := Bundle(bs[i].dest, bs[i].conns + [c])]
  }

  // In a shaped table the bundle of a destination is the only one.
  lemma FindOnly(bs: Table, i: nat)
    requires Shaped(bs) && i < |bs|
    ensures Find(bs, bs[i].dest) == Some(i)
  {
  }

  lemma AtMember(bs: Table, c: Connection)
    requires Shaped(bs)
    ensures c in Members(bs) <==> c in At(bs, c.destination)
  {
    if i :| 0 <= i < |bs| && c in bs[i].conns {
      FindOnly(bs, i);
    }
  }

  lemma AtDistinct(bs: Table, dest: seq<byte>)
    requires Shaped(bs)
    ensures Distinct(At(bs, dest)) && forall c :: c in At(bs, dest) ==> c in Members(bs) && c.destination == dest
  {
  }

  // Replacing, dropping and inserting a bundle.
  lemma Replace(bs: Table, i: nat, b: Bundle)
    requires Shaped(bs) && i < |bs| && GoodBundle(b) && b.dest == bs[i].dest
    ensures Shaped(bs[i := b]) && Sum(bs[i := b]) == Sum(bs) - |bs[i].conns| + |b.conns|
    ensures At(bs[i := b], b.dest) == b.conns
    ensures forall d :: d != b.dest ==> At(bs[i := b], d) == At(bs, d)
  {
    hide GoodBundle, Distinct, Sum, At;
    var bs' := bs[i := b];
    SumAround(bs, i);
    SumAround(bs', i);
    assert bs'[..i] == bs[..i] && bs'[i + 1..] == bs[i + 1..];
    AtPlace(bs', i);
    forall d | d != b.dest
      ensures At(bs', d) == At(bs, d)
    {
      match Find(bs, d) {
        case Some(j) =>
          AtPlace(bs, j);
          AtPlace(bs', j);
        case None =>
          AtNowhere(bs, d);
          AtNowhere(bs', d);
      }
    }
  }

  lemma Drop(bs: Table, i: nat)
    requires Shaped(bs) && i < |bs|
    ensures var bs' := bs[..i] + bs[i + 1..];
      && Shaped(bs') && Sum(bs') == Sum(bs) - |bs[i].conns|
      && At(bs', bs[i].dest) == []
      && forall d :: d != bs[i].dest ==> At(bs', d) == At(bs, d)
  {
    hide GoodBundle, Distinct, Sum, At;
    var bs' := bs[..i] + bs[i + 1..];
    SumAround(bs, i);
    SumConcat(bs[..i], bs[i + 1..]);
    forall j | 0 <= j < |bs'|
      ensures bs'[j] == bs[if j < i then j else j + 1]
    {
    }
    AtNowhere(bs', bs[i].dest);
    forall d | d != bs[i].dest
      ensures At(bs', d) == At(bs, d)
    {
      match Find(bs, d) {
        case Some(j) =>
          AtPlace(bs, j);
          AtPlace(bs', if j < i then j else j - 1);
        case None =>
          AtNowhere(bs, d);
          AtNowhere(bs', d);
      }
    }
  }

  lemma PutPlaces(bs: Table, p: nat, b: Bundle)
    requires p <= |bs|
    ensures forall j {:trigger (bs[..p] + [b] + bs[p..])[j]} :: 0 <= j <= |bs| ==>
      (bs[..p] + [b] + bs[p..])[j] == if j < p then bs[j] else if j == p then b else bs[j - 1]
  {
  }

  lemma PutShape(bs: Table, p: nat, b: Bundle, bs': Table)
    requires Shaped(bs) && p <= |bs| && GoodBundle(b) && Find(bs, b.dest) == None
    requires |bs'| == |bs| + 1
    requires forall j {:trigger bs'[j]} :: 0 <= j <= |bs| ==>
      bs'[j] == if j < p then bs[j] else if j == p then b else bs[j - 1]
    ensures Shaped(bs')
  {
    hide GoodBundle;
  }

  lemma PutSum(bs: Table, p: nat, b: Bundle)
    requires p <= |bs|
    ensures Sum(bs[..p] + [b] + bs[p..]) == Sum(bs) + |b.conns|
  {
    hide Sum;
    SumConcat(bs[..p] + [b], bs[p..]);
    SumConcat(bs[..p], [b]);
    SumOne(b);
    SumConcat(bs[..p], bs[p..]);
    assert bs[..p] + bs[p..] == bs;
  }

  lemma SumOne(b: Bundle)
    ensures Sum([b]) == |b.conns|
  {
    assert [b][1..] == [];
  }

  lemma PutAt(bs: Table, p: nat, b: Bundle, bs': Table, d: seq<byte>)
    requires Shaped(bs) && Shaped(bs') && p <= |bs| && d != b.dest && |bs'| == |bs| + 1
    requires forall j {:trigger bs'[j]} :: 0 <= j <= |bs| ==>
      bs'[j] == if j < p then bs[j] else if j == p then b else bs[j - 1]
    ensures At(bs', d) == At(bs, d)
  {
    hide Shaped, At;
    match Find(bs, d) {
      case Some(j) =>
        AtPlace(bs, j);
        AtPlace(bs', if j < p then j else j + 1);
      case None =>
        AtNowhere(bs, d);
        AtNowhere(bs', d);
    }
  }

  lemma Put(bs: Table, p: nat, b: Bundle)
    requires Shaped(bs) && p <= |bs| && GoodBundle(b) && Find(bs, b.dest) == None
    ensures var bs' := bs[..p] + [b] + bs[p..];
      && Shaped(bs') && Sum(bs') == Sum(bs) + |b.conns|
      && At(bs', b.dest) == b.conns
      && forall d :: d != b.dest ==> At(bs', d) == At(bs, d)
  {
    hide GoodBundle, Shaped, Sum, At, Find;
    var bs' := bs[..p] + [b] + bs[p..];
    PutSum(bs, p, b);
    PutPlaces(bs, p, b);
    PutShape(bs, p, b, bs');
    AtPlace(bs', p);
    forall d | d != b.dest
      ensures At(bs', d) == At(bs, d)
    {
      PutAt(bs, p, b, bs', d);
    }
  }

  lemma SumAround(bs: Table, i: nat)
    requires i < |bs|
    ensures Sum(bs) == Sum(bs[..i]) + |bs[i].conns| + Sum(bs[i + 1..])
  {
    hide Sum;
    assert bs == bs[..i] + [bs[i]] + bs[i + 1..];
    SumConcat(bs[..i] + [bs[i]], bs[i + 1..]);
    SumConcat(bs[..i], [bs[i]]);
    SumOne(bs[i]);
  }

  lemma AtPlace(bs: Table, i: nat)
    requires Shaped(bs) && i < |bs|
    ensures At(bs, bs[i].dest) == bs[i].conns
  {
    FindOnly(bs, i);
  }

  lemma AtNowhere(bs: Table, dest: seq<byte>)
    requires forall i :: 0 <= i < |bs| ==> bs[i].dest != dest
    ensures At(bs, dest) == []
  {
  }

  lemma WithoutShape(bs: Table, c: Connection)
    requires Shaped(bs) && c in Members(bs)
    ensures Shaped(Without(bs, c)) && Sum(Without(bs, c)) == Sum(bs) - 1
    ensures At(Without(bs, c), c.destination) == Less(At(bs, c.destination), c)
    ensures forall d :: d != c.destination ==> At(Without(bs, c), d) == At(bs, d)
  {
    hide Sum, Distinct, Shaped, At, GoodBundle;
    AtMember(bs, c);
    MemberFound(bs, c);
    var i := Find(bs, c.destination).value;
    var rest := Less(bs[i].conns, c);
    LessGood(bs[i], c);
    if rest == [] {
      Drop(bs, i);
    } else {
      Replace(bs, i, Bundle(bs[i].dest, rest));
    }
  }

  lemma MemberFound(bs: Table, c: Connection)
    requires Shaped(bs) && c in At(bs, c.destination)
    ensures var f := Find(bs, c.destination);
      f.Some? && At(bs, c.destination) == bs[f.value].conns && c in bs[f.value].conns && GoodBundle(bs[f.value])
  {
  }

  lemma LessGood(b: Bundle, c: Connection)
    requires GoodBundle(b) && c in b.conns
    ensures |Less(b.conns, c)| == |b.conns| - 1
    ensures Less(b.conns, c) != [] ==> GoodBundle(Bundle(b.dest, Less(b.conns, c)))
  {
    LessMembers(b.conns, c);
  }

  lemma WithShape(bs: Table, c: Connection, place: nat)
    requires Shaped(bs) && c !in Members(bs)
    ensures Shaped(With(bs, c, place)) && Sum(With(bs, c, place)) == Sum(bs) + 1
    ensures At(With(bs, c, place), c.destination) == At(bs, c.destination) + [c]
    ensures forall d :: d != c.destination ==> At(With(bs, c, place), d) == At(bs, d)
  {
    hide Sum;
    match Find(bs, c.destination)
    case Some(i) =>
      assert GoodBundle(bs[i]) && c !in bs[i].conns;
      Replace(bs, i, Bundle(bs[i].dest, bs[i].conns + [c]));
    case None =>
      var b := Bundle(c.destination, [c]);
      Put(bs, if place <= |bs| then place else |bs|, b);
      assert bs[..|bs|] + [b] + bs[|bs|..] == bs + [b];
  }

  // Who is in the table after a connection has left or joined.
  lemma WithoutMembers(bs: Table, c: Connection)
    requires Shaped(bs) && c in Members(bs)
    ensures Members(Without(bs, c)) == Members(bs) - {c}
  {
    WithoutShape(bs, c);
    LessMembers(At(bs, c.destination), c);
    var bs' := Without(bs, c);
    forall x | x in Members(bs')
      ensures x in Members(bs) - {c}
    {
      AtMember(bs', x);
      AtMember(bs, x);
    }
    forall x | x in Members(bs) - {c}
      ensures x in Members(bs')
    {
      AtMember(bs', x);
      AtMember(bs, x);
    }
  }

  // A connection that leaves makes its destination's list shorter by just itself.
  lemma AtLess(bs: Table, dest: seq<byte>, c: Connection)
    requires Shaped(bs) && c in At(bs, dest)
    ensures c in Members(bs) && c.destination == dest
    ensures |At(Without(bs, c), dest)| == |At(bs, dest)| - 1
    ensures forall d :: d in At(Without(bs, c), dest) ==> d in At(bs, dest)
    ensures Members(Without(bs, c)) == Members(bs) - {c}
  {
    hide Without, Sum;
    AtDistinct(bs, dest);
    WithoutShape(bs, c);
    WithoutMembers(bs, c);
    LessMembers(At(bs, dest), c);
  }

  lemma WithMembers(bs: Table, c: Connection, place: nat)
    requires Shaped(bs) && c !in Members(bs)
    ensures Members(With(bs, c, place)) == Members(bs) + {c}
  {
    WithShape(bs, c, place);
    var bs' := With(bs, c, place);
    forall x | x in Members(bs')
      ensures x in Members(bs) + {c}
    {
      AtMember(bs', x);
      AtMember(bs, x);
    }
    forall x | x in Members(bs) + {c}
      ensures x in Members(bs')
    {
      AtMember(bs', x);
      AtMember(bs, x);
    }
  }

  // ---- counting ----

  // Curl_cshutdn_dest_count
  function CountAt(list: seq<Connection>, dest: seq<byte>): (n: nat)
    ensures n <= |list|
  {
    if list == [] then 0 else CountAt(list[..|list| - 1], dest) + if list[|list| - 1].destination == dest then 1 else 0
  }

  lemma {:induction false} CountAtConcat(a: seq<Connection>, b: seq<Connection>, dest: seq<byte>)
    ensures CountAt(a + b, dest) == CountAt(a, dest) + CountAt(b, dest)
  {
    if b == [] {
      assert a + b == a;
    } else {
      assert (a + b)[..|a + b| - 1] == a + b[..|b| - 1];
      CountAtConcat(a, b[..|b| - 1], dest);
    }
  }

  lemma CountAtSnoc(list: seq<Connection>, c: Connection, dest: seq<byte>)
    ensures CountAt(list + [c], dest) == CountAt(list, dest) + if c.destination == dest then 1 else 0
  {
    assert (list + [c])[..|list|] == list;
  }

  // Connections to one destination, in the pool and shutting down.
  function Load(bs: Table, list: seq<Connection>, dest: seq<byte>): nat {
    |At(bs, dest)| + CountAt(list, dest)
  }

  // The shutdown list after Curl_cshutdn_add has made room in it.
  function Spared(list: seq<Connection>, pooled: nat, maxTotal: nat): seq<Connection> {
    if maxTotal > 0 && maxTotal <= pooled + |list| && list != [] then list[1..] else list
  }

  // What eviction may do to a table and a shutdown list.
  ghost predicate Shrunk(bs: Table, list: seq<Connection>, bs': Table, list': seq<Connection>) {
    && (forall d :: Load(bs', list', d) <= Load(bs, list, d))
    && Sum(bs') + |list'| <= Sum(bs) + |list| && Sum(bs') <= Sum(bs)
    && Members(bs') <= Members(bs)
    && (forall c :: c in list' ==> c in list || c in Members(bs))
  }

  lemma ShrunkSame(bs: Table, list: seq<Connection>)
    ensures Shrunk(bs, list, bs, list)
  {
  }

  lemma ShrunkTransitive(
      bs: Table, list: seq<Connection>, bs1: Table, list1: seq<Connection>, bs2: Table, list2: seq<Connection>)
    requires Shrunk(bs, list, bs1, list1) && Shrunk(bs1, list1, bs2, list2)
    ensures Shrunk(bs, list, bs2, list2)
  {
    hide Load, Sum, Members;
  }

  // A connection that leaves the pool may go to the end of the shutdown list.
  lemma MovedShrinks(bs: Table, list: seq<Connection>, c: Connection, list': seq<Connection>, room: seq<Connection>)
    requires Shaped(bs) && c in Members(bs)
    requires room == list || (list != [] && room == list[1..])
    requires list' == list || list' == room || list' == room + [c]
    ensures Shrunk(bs, list, Without(bs, c), list')
  {
    hide Without, Shaped, Sum, Members;
    WithoutShape(bs, c);
    AtMember(bs, c);
    LessSize(bs, c);
    WithoutMembers(bs, c);
    forall x | x in list'
      ensures x in list || x == c
    {
      assert x in room ==> x in list;
    }
    forall d
      ensures Load(Without(bs, c), list', d) <= Load(bs, list, d)
    {
      CountMoved(list, c, list', room, d);
    }
  }

  lemma LessSize(bs: Table, c: Connection)
    requires Shaped(bs) && c in Members(bs)
    ensures |Less(At(bs, c.destination), c)| == |At(bs, c.destination)| - 1
  {
    AtMember(bs, c);
    AtDistinct(bs, c.destination);
    LessMembers(At(bs, c.destination), c);
  }

  lemma CountMoved(list: seq<Connection>, c: Connection, list': seq<Connection>, room: seq<Connection>, d: seq<byte>)
    requires room == list || (list != [] && room == list[1..])
    requires list' == list || list' == room || list' == room + [c]
    ensures CountAt(list', d) <= CountAt(list, d) + if c.destination == d then 1 else 0
  {
    if list != [] {
      assert list == list[..1] + list[1..];
      CountAtConcat(list[..1], list[1..], d);
    }
    CountAtConcat(room, [c], d);
  }

  // A new connection adds one to its destination only.
  lemma JoinedLoad(bs: Table, list: seq<Connection>, c: Connection, place: nat, d: seq<byte>)
    requires Shaped(bs) && c !in Members(bs)
    ensures Load(With(bs, c, place), list, d) == Load(bs, list, d) + if d == c.destination then 1 else 0
  {
    WithShape(bs, c, place);
  }
}
