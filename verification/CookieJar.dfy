// curl-8.13.0/lib/cookie.c: the contents of a cookie jar as values, and what the operations keep.

module CookieJar {
  import opened Common
  import opened StrParse
  import opened CookieDomain

  const FOREVER: int := OFF_T_MAX
  const STAMPS: nat := 0x1_0000_0000           // creationtime is an unsigned int

  // struct Cookie
  datatype Cookie = Cookie(
    name: seq<byte>,
    value: seq<byte>,
    path: Option<seq<byte>>,
    spath: Option<seq<byte>>,
    domain: Option<seq<byte>>,
    expires: int,
    creationtime: nat,
    tailmatch: bool,
    secure: bool,
    livecookie: bool,
    httponly: bool,
    prefixSecure: bool,
    prefixHost: bool)

  // The buckets of the jar, each a list of cookies.
  type Jar = seq<seq<Cookie>>

  // ---- identity ----

  predicate CiEqOption(a: Option<seq<byte>>, b: Option<seq<byte>>) {
    if a.Some? && b.Some? then CiEq(a.value, b.value) else a == b
  }

  // What replace_existing takes for the same cookie.
  predicate SameId(a: Cookie, b: Cookie) {
    && a.name == b.name
    && CiEqOption(a.domain, b.domain)
    && (a.domain.Some? ==> a.tailmatch == b.tailmatch)
    && CiEqOption(a.spath, b.spath)
  }

  // The same as a key: the name, the domain in capitals with its flag, and the path in capitals.
  datatype Identity = Identity(name: seq<byte>, domain: Option<(seq<byte>, bool)>, path: Option<seq<byte>>)

  function Capitals(s: seq<byte>): (r: seq<byte>)
    ensures |r| == |s| && forall i :: 0 <= i < |s| ==> r[i] == Upper(s[i])
  {
    seq(|s|, i requires 0 <= i < |s| => Upper(s[i]))
  }

  function IdentityOf(c: Cookie): Identity {
    Identity(
      c.name,
      if c.domain.Some? then Some((Capitals(c.domain.value), c.tailmatch)) else None,
      if c.spath.Some? then Some(Capitals(c.spath.value)) else None)
  }

  lemma SameIdIsKey(a: Cookie, b: Cookie)
    ensures SameId(a, b) <==> IdentityOf(a) == IdentityOf(b)
  {
    if a.domain.Some? && b.domain.Some? {
      CapitalsCiEq(a.domain.value, b.domain.value);
    }
    if a.spath.Some? && b.spath.Some? {
      CapitalsCiEq(a.spath.value, b.spath.value);
    }
  }

  lemma CapitalsCiEq(s: seq<byte>, t: seq<byte>)
    ensures CiEq(s, t) <==> Capitals(s) == Capitals(t)
  {
    var a, b := Capitals(s), Capitals(t);
    if CiEq(s, t) {
      assert forall i :: 0 <= i < |a| ==> a[i] == b[i];
    } else if |s| == |t| {
      var i :| 0 <= i < |s| && Upper(s[i]) != Upper(t[i]);
      assert a[i] != b[i];
    }
  }

  lemma SameIdReflexive(a: Cookie)
    ensures SameId(a, a)
  {
  }

  lemma SameIdSymmetric(a: Cookie, b: Cookie)
    requires SameId(a, b)
    ensures SameId(b, a)
  {
  }

  lemma SameIdTransitive(a: Cookie, b: Cookie, c: Cookie)
    requires SameId(a, b) && SameId(b, c)
    ensures SameId(a, c)
  {
  }

  ghost predicate Unique(list: seq<Cookie>) {
    forall i, j :: 0 <= i < j < |list| ==> !SameId(list[i], list[j])
  }

  // ---- the invariant ----

  ghost predicate Placed(jar: Jar, isIp: seq<byte> -> bool) {
    && |jar| == BUCKETS
    && forall b, c :: 0 <= b < BUCKETS && c in jar[b] ==> CookieHash(isIp, c.domain) == b
  }

  // Every list has each cookie once, and `next` is no later than any expiry.
  ghost predicate Sound(jar: Jar, isIp: seq<byte> -> bool, next: int) {
    && Placed(jar, isIp)
    && (forall b :: 0 <= b < BUCKETS ==> Unique(jar[b]))
    && (forall b, c :: 0 <= b < BUCKETS && c in jar[b] ==>
          0 <= c.expires <= FOREVER && (c.expires != 0 ==> next <= c.expires))
  }

  // No two cookies have the same creation time.
  ghost predicate StampsDiffer(jar: Jar) {
    forall b, c, b', c' :: 0 <= b < |jar| && c in jar[b] && 0 <= b' < |jar| && c' in jar[b'] ==>
      (c.creationtime == c'.creationtime ==> c == c')
  }

  // Sound covers the whole jar: no two entries anywhere have the same identity.
  lemma NoTwinsAnywhere(jar: Jar, isIp: seq<byte> -> bool, next: int, b: nat, i: nat, b': nat, i': nat)
    requires Sound(jar, isIp, next) && CaseBlind(isIp)
    requires b < BUCKETS && i < |jar[b]| && b' < BUCKETS && i' < |jar[b']|
    requires SameId(jar[b][i], jar[b'][i'])
    ensures b == b' && i == i'
  {
    var c, c' := jar[b][i], jar[b'][i'];
    assert c in jar[b] && c' in jar[b'];
    if c.domain.Some? {
      SameDomainSameBucket(isIp, c.domain.value, c'.domain.value);
    }
    if i > i' {
      SameIdSymmetric(c, c');
    }
  }

  // The number of cookies.
  function Count(jar: Jar): nat {
    if jar == [] then 0 else |jar[0]| + Count(jar[1..])
  }

  lemma {:induction false} CountUpdate(jar: Jar, b: nat, list: seq<Cookie>)
    requires b < |jar|
    ensures Count(jar[b := list]) == Count(jar) - |jar[b]| + |list|
    ensures |jar[b]| <= Count(jar)
  {
    if b == 0 {
      assert jar[b := list][1..] == jar[1..];
    } else {
      assert jar[b := list][1..] == jar[1..][b - 1 := list];
      CountUpdate(jar[1..], b - 1, list);
    }
  }

  // ---- expiry ----

  predicate Expired(c: Cookie, now: int) {
    c.expires != 0 && c.expires < now
  }

  function Alive(list: seq<Cookie>, now: int): (r: seq<Cookie>)
    ensures forall c :: c in r <==> c in list && !Expired(c, now)
    ensures |r| <= |list|
  {
    if list == [] then []
    else
      var rest := Alive(list[..|list| - 1], now);
      var c := list[|list| - 1];
      assert forall d :: d in list <==> d in list[..|list| - 1] || d == c;
      if Expired(c, now) then rest else rest + [c]
  }

  function PurgeAll(jar: Jar, now: int): (r: Jar)
    ensures |r| == |jar| && forall b :: 0 <= b < |jar| ==> r[b] == Alive(jar[b], now)
  {
    seq(|jar|, b requires 0 <= b < |jar| => Alive(jar[b], now))
  }

  lemma {:induction false} AliveUnique(list: seq<Cookie>, now: int)
    requires Unique(list)
    ensures Unique(Alive(list, now))
  {
    if list != [] {
      var n := |list| - 1;
      var rest := Alive(list[..n], now);
      AliveUnique(list[..n], now);
      forall i | 0 <= i < |rest|
        ensures !SameId(rest[i], list[n])
      {
        assert rest[i] in list[..n];
      }
    }
  }

  lemma {:induction false} AliveAll(list: seq<Cookie>, now: int)
    requires forall c :: c in list ==> !Expired(c, now)
    ensures Alive(list, now) == list
  {
    if list != [] {
      var n := |list| - 1;
      assert list == list[..n] + [list[n]];
      AliveAll(list[..n], now);
    }
  }

  // The early exit of remove_expired: nothing in the jar has expired, so a full scan changes nothing.
  lemma EarlyExitSound(jar: Jar, isIp: seq<byte> -> bool, next: int, now: int)
    requires Sound(jar, isIp, next) && now < next
    ensures PurgeAll(jar, now) == jar
  {
    forall b | 0 <= b < |jar|
      ensures PurgeAll(jar, now)[b] == jar[b]
    {
      AliveAll(jar[b], now);
    }
  }

  // ---- adding ----

  // Where the path of an existing secure cookie ends for the overlay test: before its second slash.
  // For an empty path the scan starts behind its end; `beyond` says whether it meets a slash there.
  function FirstElement(spath: seq<byte>, beyond: bool): nat {
    if spath == [] then (if beyond then 1 else 0)
    else 1 + SlashAt(spath[1..])
  }

  // The place of the first slash, or the length.
  function SlashAt(s: seq<byte>): (n: nat)
    ensures n <= |s| && 47 !in s[..n] && (n < |s| ==> s[n] == 47)
  {
    if s == [] || s[0] == 47 then 0 else 1 + SlashAt(s[1..])
  }

  // A cookie from an insecure origin that would overlay the secure cookie `old`.
  predicate Overlays(old_: Cookie, co: Cookie, secure: bool, beyond: bool) {
    && old_.name == co.name && CiEqOption(old_.domain, co.domain)
    && old_.spath.Some? && co.spath.Some?
    && old_.secure && !co.secure && !secure
    && CiEqN(old_.spath.value, co.spath.value, FirstElement(old_.spath.value, beyond))
  }

  // The search for that slash starts one byte behind the path's first. For the empty path this is out of
  // bounds, and what lies there decides exactly here.
  lemma OverlaysDepends(c: Cookie, co: Cookie, secure: bool)
    ensures Overlays(c, co, secure, true) != Overlays(c, co, secure, false) <==>
      && c.name == co.name && CiEqOption(c.domain, co.domain)
      && c.spath == Some([]) && co.spath.Some? && co.spath.value != []
      && c.secure && !co.secure && !secure
    ensures Overlays(c, co, secure, true) ==> Overlays(c, co, secure, false)
  {
  }

  // The rule as it is described: `first` is the path of the existing cookie up to its second slash, and
  // the new path is `first` or goes on behind it with a slash.
  ghost predicate Below(first: seq<byte>, path: seq<byte>) {
    && |path| >= |first| && CiEq(path[..|first|], first)
    && (|path| == |first| || path[|first|] == 47)
  }

  // The code asks for a prefix only. It follows the description exactly unless the new path goes on
  // behind `first` with another byte than a slash; then it refuses more.
  lemma OverlaysExact(c: Cookie, co: Cookie, secure: bool, beyond: bool, first: seq<byte>, rest: seq<byte>)
    requires c.spath == Some(first + rest) && first != [] && 47 !in first[1..] && (rest == [] || rest[0] == 47)
    ensures var asked := c.name == co.name && CiEqOption(c.domain, co.domain) && co.spath.Some?
                         && c.secure && !co.secure && !secure;
      && (Overlays(c, co, secure, beyond) <==>
          asked && |co.spath.value| >= |first| && CiEq(co.spath.value[..|first|], first))
      && (Overlays(c, co, secure, beyond) == (asked && Below(first, co.spath.value)) <==>
          !(asked && |co.spath.value| > |first| && CiEq(co.spath.value[..|first|], first)
            && co.spath.value[|first|] != 47))
  {
    var spath := first + rest;
    FirstSlash(first[1..], rest);
    assert spath[1..] == first[1..] + rest;
    assert FirstElement(spath, beyond) == |first| && spath[..|first|] == first;
    if co.spath.Some? {
      CiEqSymmetric(co.spath.value[..Min(|first|, |co.spath.value|)], first);
    }
  }

  lemma CiEqSymmetric(a: seq<byte>, b: seq<byte>)
    ensures CiEq(a, b) <==> CiEq(b, a)
  {
  }

  lemma {:induction false} FirstSlash(a: seq<byte>, rest: seq<byte>)
    requires 47 !in a && (rest == [] || rest[0] == 47)
    ensures SlashAt(a + rest) == |a|
  {
    if a != [] {
      assert (a + rest)[1..] == a[1..] + rest;
      FirstSlash(a[1..], rest);
    } else {
      assert a + rest == rest;
    }
  }

  // With an existing secure cookie for /login an insecure one for /loginhelper is refused, which the
  // comment on the rule calls fine.
  lemma LoginHelperRefused(c: Cookie, co: Cookie, beyond: bool)
    requires c.name == co.name && c.domain == co.domain && c.secure && !co.secure
    requires c.spath == Some([47, 108, 111, 103, 105, 110])
    requires co.spath == Some([47, 108, 111, 103, 105, 110, 104, 101, 108, 112, 101, 114])
    ensures Overlays(c, co, false, beyond) && !Below(c.spath.value, co.spath.value)
  {
    var first := c.spath.value;
    assert first + [] == first && co.spath.value[..6] == first;
    OverlaysExact(c, co, false, beyond, first, []);
  }

  // A cookie from a file that would replace one set from a header.
  predicate LosesTo(old_: Cookie, co: Cookie) {
    SameId(old_, co) && !co.livecookie && old_.livecookie
  }

  ghost predicate Refused(list: seq<Cookie>, co: Cookie, secure: bool, beyond: bool) {
    exists c :: c in list && (Overlays(c, co, secure, beyond) || LosesTo(c, co))
  }

  // A cookie set from a header is refused for an overlay only; one from a file also if its twin was set from
  // a header.
  lemma RefusedMeans(list: seq<Cookie>, co: Cookie, secure: bool, beyond: bool)
    ensures co.livecookie && Refused(list, co, secure, beyond) ==>
      exists c :: c in list && Overlays(c, co, secure, beyond)
    ensures !co.livecookie && (exists c :: c in list && SameId(c, co) && c.livecookie) ==>
      Refused(list, co, secure, beyond)
    ensures Refused(list, co, secure, beyond) ==>
      (exists c :: c in list && Overlays(c, co, secure, beyond))
      || (!co.livecookie && exists c :: c in list && SameId(c, co) && c.livecookie)
  {
    hide Overlays, SameId;
  }

  function Find(list: seq<Cookie>, co: Cookie): (r: Option<nat>)
    ensures r.Some? ==> r.value < |list| && SameId(list[r.value], co)
    ensures r == None ==> forall c :: c in list ==> !SameId(c, co)
  {
    if list == [] then None
    else
      var n := |list| - 1;
      var r := Find(list[..n], co);
      assert forall c :: c in list <==> c in list[..n] || c == list[n];
      if r.Some? then r else if SameId(list[n], co) then Some(n) else None
  }

  // co as it enters the list: in the place of a twin it takes over the creation time.
  function Entry(list: seq<Cookie>, co: Cookie): Cookie {
    match Find(list, co)
    case None => co
    case Some(k) => co.(creationtime := list[k].creationtime)
  }

  function Insert(list: seq<Cookie>, co: Cookie): seq<Cookie> {
    match Find(list, co)
    case None => list + [Entry(list, co)]
    case Some(k) => list[..k] + list[k + 1..] + [Entry(list, co)]
  }

  // Just the twin has gone.
  lemma InsertMembers(list: seq<Cookie>, co: Cookie, c: Cookie)
    requires Unique(list)
    ensures c in Insert(list, co) <==> c == Entry(list, co) || (c in list && !SameId(c, co))
    ensures SameId(Entry(list, co), co)
  {
    match Find(list, co)
    case None =>
    case Some(k) =>
      var rest := list[..k] + list[k + 1..];
      assert list == list[..k] + [list[k]] + list[k + 1..];
      assert c in list <==> c in rest || c == list[k];
      forall i | 0 <= i < |rest|
        ensures !SameId(rest[i], co)
      {
        var j := if i < k then i else i + 1;
        if SameId(list[j], co) {
          SameIdSymmetric(list[k], co);
          SameIdTransitive(list[j], co, list[k]);
          SameIdSymmetric(list[j], list[k]);
        }
      }
  }

  lemma InsertMembersAll(list: seq<Cookie>, co: Cookie)
    requires Unique(list)
    ensures forall c :: c in Insert(list, co) <==> c == Entry(list, co) || (c in list && !SameId(c, co))
    ensures SameId(Entry(list, co), co)
  {
    forall c
      ensures c in Insert(list, co) <==> c == Entry(list, co) || (c in list && !SameId(c, co))
      ensures SameId(Entry(list, co), co)
    {
      InsertMembers(list, co, c);
    }
  }

  lemma InsertUnique(list: seq<Cookie>, co: Cookie)
    requires Unique(list)
    ensures Unique(Insert(list, co))
  {
    var r := Insert(list, co);
    var e := Entry(list, co);
    var rest := r[..|r| - 1];
    assert r == rest + [e];
    forall i | 0 <= i < |rest|
      ensures !SameId(rest[i], e) && rest[i] in list
    {
      RestApart(list, co, i);
    }
    assert Unique(rest);
  }

  lemma RestApart(list: seq<Cookie>, co: Cookie, i: nat)
    requires Unique(list) && i + 1 < |Insert(list, co)|
    ensures !SameId(Insert(list, co)[i], Entry(list, co)) && Insert(list, co)[i] in list
  {
    match Find(list, co)
    case None =>
      assert list[i] in list;
    case Some(k) =>
      var j := if i < k then i else i + 1;
      assert Insert(list, co)[i] == list[j];
      var e := Entry(list, co);
      if SameId(list[j], e) {
        SameIdSymmetric(list[k], e);
        SameIdTransitive(list[j], e, list[k]);
        SameIdSymmetric(list[j], list[k]);
      }
  }

  lemma PurgeSound(jar: Jar, isIp: seq<byte> -> bool, next: int, next': int, now: int)
    requires Sound(jar, isIp, next)
    requires forall b, c :: 0 <= b < BUCKETS && c in PurgeAll(jar, now)[b] && c.expires != 0 ==> next' <= c.expires
    ensures Sound(PurgeAll(jar, now), isIp, next')
    ensures StampsDiffer(jar) ==> StampsDiffer(PurgeAll(jar, now))
    ensures forall b, c :: 0 <= b < BUCKETS && c in PurgeAll(jar, now)[b] ==> !Expired(c, now)
  {
    forall b | 0 <= b < BUCKETS
      ensures Unique(PurgeAll(jar, now)[b])
    {
      AliveUnique(jar[b], now);
    }
  }

  lemma InsertEntry(list: seq<Cookie>, co: Cookie)
    ensures Entry(list, co).domain == co.domain && Entry(list, co).expires == co.expires
  {
  }

  lemma InsertSound(jar: Jar, isIp: seq<byte> -> bool, next: int, next': int, co: Cookie)
    requires Sound(jar, isIp, next) && 0 <= co.expires <= FOREVER
    requires next' <= next && (co.expires != 0 ==> next' <= co.expires)
    ensures var b := CookieHash(isIp, co.domain); Sound(jar[b := Insert(jar[b], co)], isIp, next')
  {
    var b := CookieHash(isIp, co.domain);
    hide Insert, Unique, CookieHash, Find, SameId;
    InsertUnique(jar[b], co);
    InsertEntry(jar[b], co);
    InsertMembersAll(jar[b], co);
  }

  // ---- creation times ----

  ghost predicate StampFree(jar: Jar, stamp: nat) {
    forall b, c :: 0 <= b < |jar| && c in jar[b] ==> c.creationtime != stamp
  }

  // A replacement keeps the creation times apart; a new cookie does just when its own is not in use.
  lemma InsertStamps(jar: Jar, isIp: seq<byte> -> bool, co: Cookie)
    requires StampsDiffer(jar) && Placed(jar, isIp)
    requires Unique(jar[CookieHash(isIp, co.domain)])
    ensures var b := CookieHash(isIp, co.domain);
      StampsDiffer(jar[b := Insert(jar[b], co)]) <==> Find(jar[b], co).Some? || StampFree(jar, co.creationtime)
  {
    hide Insert, CookieHash, Unique, SameId, Find, StampFree;
    SameIdReflexive(co);
    var b := CookieHash(isIp, co.domain);
    var list, e := jar[b], Entry(jar[b], co);
    var jar' := jar[b := Insert(list, co)];
    InsertMembersAll(list, co);
    match Find(list, co)
    case Some(k) =>
      StampsReplaced(jar, isIp, jar', b, e, list[k], co);
    case None =>
      StampsNew(jar, isIp, jar', b, co);
  }

  lemma StampsReplaced(jar: Jar, isIp: seq<byte> -> bool, jar': Jar, b: nat, e: Cookie, twin: Cookie, co: Cookie)
    requires StampsDiffer(jar) && Placed(jar, isIp) && |jar'| == |jar| && b < |jar|
    requires twin in jar[b] && e.creationtime == twin.creationtime && SameId(twin, co)
    requires forall b' :: 0 <= b' < |jar| && b' != b ==> jar'[b'] == jar[b']
    requires forall c :: c in jar'[b] <==> c == e || (c in jar[b] && !SameId(c, co))
    ensures StampsDiffer(jar')
  {
    hide SameId, CookieHash;
    forall b', c: Cookie | 0 <= b' < |jar| && c in jar'[b'] && c != e
      ensures c in jar[b'] && c.creationtime != twin.creationtime
    {
      assert c.creationtime == twin.creationtime ==> c == twin;
    }
  }

  lemma StampsNew(jar: Jar, isIp: seq<byte> -> bool, jar': Jar, b: nat, co: Cookie)
    requires StampsDiffer(jar) && Placed(jar, isIp) && |jar'| == |jar| && b == CookieHash(isIp, co.domain)
    requires co !in jar[b]
    requires forall b' :: 0 <= b' < |jar| && b' != b ==> jar'[b'] == jar[b']
    requires forall c :: c in jar'[b] <==> c == co || c in jar[b]
    ensures StampsDiffer(jar') <==> StampFree(jar, co.creationtime)
  {
    hide CookieHash;
    assert co in jar'[b];
    assert forall b', c :: 0 <= b' < |jar| && c in jar[b'] ==> c in jar'[b'] && c != co;
  }

  // While the counter has not wrapped around, the next creation time is not in use.
  ghost predicate StampsUpTo(jar: Jar, lastct: nat) {
    forall b, c :: 0 <= b < |jar| && c in jar[b] ==> c.creationtime <= lastct
  }

  function NextStamp(lastct: nat): nat {
    (lastct + 1) % STAMPS
  }

  // A session cookie without a domain and a path.
  function Named(name: seq<byte>, stamp: nat): Cookie {
    Cookie(name, [], None, None, None, 0, stamp, false, false, true, false, false, false)
  }

  // Two cookies of one creation time: the first one ever added, and another added when the counter has
  // gone once around.
  lemma StampsMeetAgain(isIp: seq<byte> -> bool)
    ensures var first, last := Named([97], NextStamp(0)), Named([98], NextStamp(NextStamp(STAMPS - 1)));
      var jar := seq(BUCKETS, b => if b == 0 then [first] else []);
      && CookieHash(isIp, last.domain) == 0
      && Sound(jar, isIp, FOREVER) && StampsDiffer(jar)
      && !StampsDiffer(jar[0 := Insert(jar[0], last)])
  {
    var first, last := Named([97], NextStamp(0)), Named([98], NextStamp(NextStamp(STAMPS - 1)));
    var jar := seq(BUCKETS, b => if b == 0 then [first] else []);
    assert jar[0] == [first] && first in jar[0];
    assert Find([], last) == None && [first][..0] == [];
    assert Find(jar[0], last) == None;
    var jar' := jar[0 := Insert(jar[0], last)];
    assert jar'[0] == [first, last] && first in jar'[0] && last in jar'[0];
  }
}
