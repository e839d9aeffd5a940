// curl-8.13.0/lib/cookie.c: the cookie jar and its operations.

module Cookies {
  import opened Common
  import opened StrParse
  import opened CookieDomain
  import opened CookieJar
  import opened CookieSort
  import opened CookieMatch

  // struct CookieInfo
  class CookieInfo {
    var cookielist: Jar
    var nextExpiration: int
    var numcookies: nat
    var lastct: nat
    var running: bool
    var newsession: bool
    const isIp: seq<byte> -> bool  // Curl_host_is_ipnum
    const plenty: bool             // no allocation ever fails

    // Curl_cookie_init without a file
    constructor (isIp: seq<byte> -> bool, newsession: bool, plenty: bool)
      requires CaseBlind(isIp)
      ensures Valid() && cookielist == seq(BUCKETS, _ => []) && lastct == 0
      ensures this.isIp == isIp && running && this.newsession == newsession && this.plenty == plenty
    {
      cookielist := seq(BUCKETS, _ => []);
      nextExpiration := FOREVER;
      numcookies := 0;
      lastct := 0;
      running := true;
      this.newsession := newsession;
      this.isIp := isIp;
      this.plenty := plenty;
      new;
      CountNone(cookielist);
    }

    ghost predicate Valid()
      reads this
    {
      && CaseBlind(isIp)
      && Sound(cookielist, isIp, nextExpiration) && nextExpiration <= FOREVER
      && numcookies == Count(cookielist)
      && lastct < STAMPS
    }

    // Curl_cookie_init for a jar in use: before its lines are added, and behind them.
    method BeginLoad(newsession: bool)
      requires Valid()
      modifies `newsession, `running
      ensures Valid() && this.newsession == newsession && !running
    {
      this.newsession, running := newsession, false;
    }

    method EndLoad()
      requires Valid()
      modifies `running
      ensures Valid() && running
    {
      running := true;
    }

    // remove_expired. The early exit leaves what a full scan would.
    method RemoveExpired(now: int)
      requires Valid()
      modifies `cookielist, `nextExpiration, `numcookies
      ensures Valid()
      ensures cookielist == PurgeAll(old(cookielist), now)
      ensures |cookielist| == |old(cookielist)| == BUCKETS
      ensures forall b, c :: 0 <= b < BUCKETS ==>
        (c in cookielist[b] <==> c in old(cookielist)[b] && (c.expires == 0 || c.expires >= now))
      ensures old(StampsDiffer(cookielist)) ==> StampsDiffer(cookielist)
    {
      hide Sound, CaseBlind, PurgeAll, StampsDiffer, Expired;
      ExpiredMeans(cookielist, now);
      SoundSize(cookielist, isIp, nextExpiration);
      BoundKept(cookielist, isIp, nextExpiration, now);
      PurgeSound(cookielist, isIp, nextExpiration, nextExpiration, now);
      if now < nextExpiration && nextExpiration != FOREVER {
        EarlyExitSound(cookielist, isIp, nextExpiration, now);
        return;
      }
      ghost var jar, next := cookielist, nextExpiration;
      SoundSize(jar, isIp, next);
      ScanAll(now);
      PurgeSound(jar, isIp, next, nextExpiration, now);
    }

    // The scan of remove_expired.
    method ScanAll(now: int)
      requires |cookielist| == BUCKETS && numcookies == Count(cookielist)
      modifies `cookielist, `nextExpiration, `numcookies
      ensures cookielist == PurgeAll(old(cookielist), now) && numcookies == Count(cookielist)
      ensures nextExpiration <= FOREVER
      ensures forall b, c :: 0 <= b < BUCKETS && c in cookielist[b] && c.expires != 0 ==> nextExpiration <= c.expires
    {
      nextExpiration := FOREVER;
      var i := 0;
      while i < BUCKETS
        invariant 0 <= i <= BUCKETS && |cookielist| == BUCKETS && numcookies == Count(cookielist)
        invariant nextExpiration <= FOREVER
        invariant forall b :: 0 <= b < BUCKETS ==>
          cookielist[b] == if b < i then Alive(old(cookielist)[b], now) else old(cookielist)[b]
        invariant forall b, c :: 0 <= b < i && c in cookielist[b] && c.expires != 0 ==> nextExpiration <= c.expires
      {
        PurgeBucket(i, now);
        i := i + 1;
      }
      assert cookielist == PurgeAll(old(cookielist), now);
    }

    // The inner loop of remove_expired.
    method PurgeBucket(i: nat, now: int)
      requires i < |cookielist| && numcookies == Count(cookielist) && nextExpiration <= FOREVER
      modifies `cookielist, `nextExpiration, `numcookies
      ensures cookielist == old(cookielist)[i := Alive(old(cookielist)[i], now)]
      ensures numcookies == Count(cookielist)
      ensures nextExpiration <= old(nextExpiration)
      ensures NoEarlier(cookielist[i], nextExpiration)
    {
      hide Halfway, Alive, Count, Expired, NoEarlier;
      ghost var list := cookielist[i];
      ghost var kept, seen := [], 0;
      var k := 0;  // the node looked at
      AliveNone(now);
      NoEarlierNone(nextExpiration);
      HalfwayStart(cookielist, i);
      while k < |cookielist[i]|
        invariant i < |cookielist| && k == |kept| && seen <= |list|
        invariant Halfway(old(cookielist), cookielist, i, kept, seen)
        invariant kept == Alive(list[..seen], now)
        invariant numcookies == Count(cookielist) && nextExpiration <= old(nextExpiration)
        invariant NoEarlier(kept, nextExpiration)
        decreases |cookielist[i]| - k
      {
        var before := cookielist[i];
        var co := before[k];
        HalfwayStep(old(cookielist), cookielist, i, kept, seen);
        AliveStep(list, seen, now);
        if co.expires != 0 && co.expires < now {
          CountUpdate(cookielist, i, before[..k] + before[k + 1..]);
          cookielist := cookielist[i := before[..k] + before[k + 1..]];
          numcookies := numcookies - 1;
        } else {
          ghost var next := nextExpiration;
          if co.expires != 0 && co.expires < nextExpiration {
            nextExpiration := co.expires;
          }
          NoEarlierStep(kept, co, next, nextExpiration);
          kept := kept + [co];
          k := k + 1;
        }
        seen := seen + 1;
      }
      HalfwayEnd(old(cookielist), cookielist, i, kept, seen);
    }

    // replace_existing: refuses co, or takes its twin out of the list.
    method ReplaceExisting(co: Cookie, secure: bool, beyond: bool)
      returns (rc: Verdict, replaced: bool, co': Cookie)
      requires Placed(cookielist, isIp) && Unique(cookielist[CookieHash(isIp, co.domain)])
      modifies `cookielist
      ensures var h := CookieHash(isIp, co.domain); var list := old(cookielist)[h];
        && (rc == Accepted <==> !Refused(list, co, secure, beyond))
        && (rc != Accepted ==> cookielist == old(cookielist))
        && (rc == Accepted ==>
              && (replaced <==> Find(list, co).Some?) && co' == Entry(list, co)
              && |cookielist| == |old(cookielist)|
              && cookielist[h := cookielist[h] + [co']] == old(cookielist)[h := Insert(list, co)]
              && |cookielist[h]| == |list| - if replaced then 1 else 0)
    {
      hide CookieHash, Overlays, Refused, LosesTo, SameId, Placed, Unique;
      PlacedSize(cookielist, isIp);
      var h := CookieHash(isIp, co.domain);
      var list := cookielist[h];
      var replaceN;
      rc, replaceN := FindTwin(list, co, secure, beyond);
      replaced, co' := replaceN.Some?, co;
      if rc == Accepted && replaceN.Some? {
        var r := replaceN.value;
        co' := co.(creationtime := list[r].creationtime);
        cookielist := cookielist[h := list[..r] + list[r + 1..]];
      }
    }

    // The checks of Curl_cookie_add between parsing and stamping.
    predicate Acceptable(co: Cookie)
      reads this
    {
      && (co.prefixSecure ==> co.secure)
      && (co.prefixHost ==> co.secure && co.path == Some([47]) && !co.tailmatch)
      && (running || !newsession || co.expires != 0)
    }

    // co as Curl_cookie_add stamps it.
    function Stamp(co: Cookie): Cookie
      reads this
    {
      co.(livecookie := running, creationtime := NextStamp(lastct))
    }

    // Curl_cookie_add for a parsed line. `publicSuffix` is the verdict of is_public_suffix.
    method Add(co: Cookie, noexpire: bool, now: int, secure: bool, publicSuffix: bool, beyond: bool)
      returns (added: Option<Cookie>)
      requires Valid() && 0 <= co.expires <= FOREVER
      modifies `cookielist, `nextExpiration, `numcookies, `lastct
      ensures Valid()
      ensures lastct == if Acceptable(co) then NextStamp(old(lastct)) else old(lastct)
      ensures
        var start := old(cookielist);
        var jar := if noexpire then start else PurgeAll(start, now);
        var h := CookieHash(isIp, co.domain);
        var co1 := old(Stamp(co));
        && |jar| == BUCKETS
        && if !old(Acceptable(co)) then
             cookielist == start && added == None
           else if publicSuffix || Refused(jar[h], co1, secure, beyond) then
             cookielist == jar && added == None
           else
             cookielist == jar[h := Insert(jar[h], co1)] && added == Some(Entry(jar[h], co1))
      ensures added.Some? ==>
        var jar := if noexpire then old(cookielist) else PurgeAll(old(cookielist), now);
        var h := CookieHash(isIp, co.domain);
        && h < |jar| == |cookielist| && added.value in cookielist[h]
        && EntersAs(jar[h], co, running, old(lastct), added.value)
        && (co.prefixSecure ==> co.secure)
        && (co.prefixHost ==> co.secure && co.path == Some([47]) && !co.tailmatch)
        && (co.expires != 0 || running || !newsession)
      ensures old(StampsDiffer(cookielist) && StampFree(cookielist, NextStamp(lastct))) ==> StampsDiffer(cookielist)
    {
      hide Sound, CaseBlind, Insert, Entry, Find, PurgeAll, StampsDiffer, StampFree, NextStamp, CookieHash, Refused;
      hide EntersAs, SameId;
      SoundSize(cookielist, isIp, nextExpiration);
      if co.prefixSecure && !co.secure {
        return None;
      }
      if co.prefixHost {
        if co.secure && co.path == Some([47]) && !co.tailmatch {
        } else {
          return None;
        }
      }
      if !running && newsession && co.expires == 0 {
        return None;
      }
      var co1 := Stamp(co);
      NextStampSize(lastct);
      lastct := NextStamp(lastct);
      if !noexpire {
        StampFreePurge(cookielist, now, lastct);
        RemoveExpired(now);
      }
      if publicSuffix {
        return None;
      }
      ghost var h := CookieHash(isIp, co.domain);
      EntryMeans(cookielist[h], co, running, old(lastct));
      added := Enter(co1, secure, beyond);
    }

    // The end of Curl_cookie_add: replacing, appending and counting.
    method Enter(co: Cookie, secure: bool, beyond: bool) returns (added: Option<Cookie>)
      requires Valid() && 0 <= co.expires <= FOREVER
      modifies `cookielist, `nextExpiration, `numcookies
      ensures Valid()
      ensures var jar := old(cookielist); var h := CookieHash(isIp, co.domain);
        && |jar| == BUCKETS
        && if Refused(jar[h], co, secure, beyond) then cookielist == jar && added == None
           else cookielist == jar[h := Insert(jar[h], co)] && added == Some(Entry(jar[h], co))
      ensures old(StampsDiffer(cookielist)) && old(StampFree(cookielist, co.creationtime)) ==> StampsDiffer(cookielist)
    {
      hide Sound, CaseBlind, Insert, Entry, Find, StampsDiffer, StampFree, CookieHash, Refused;
      ghost var jar, next := cookielist, nextExpiration;
      ghost var h := CookieHash(isIp, co.domain);
      SoundParts(jar, isIp, next, h);
      var rc, replacing, co';
      rc, replacing, co' := ReplaceExisting(co, secure, beyond);
      if rc != Accepted {
        return None;
      }
      InsertEntry(jar[h], co);
      CountUpdate(jar, h, Insert(jar[h], co));
      InsertSize(jar[h], co);
      var myhash := CookieHash(isIp, co'.domain);
      cookielist := cookielist[myhash := cookielist[myhash] + [co']];
      if !replacing {
        numcookies := numcookies + 1;
      }
      if co'.expires != 0 && co'.expires < nextExpiration {
        nextExpiration := co'.expires;
      }
      InsertSound(jar, isIp, next, nextExpiration, co);
      if StampsDiffer(jar) {
        InsertStamps(jar, isIp, co);
      }
      return Some(co');
    }

    // Curl_cookie_getlist: 0 with the cookies to send, 1 when the bucket of the host is empty, 2 out of
    // memory.
    method GetList(host: seq<byte>, path: seq<byte>, secure: bool, now: int) returns (rc: nat, list: seq<Cookie>)
      requires Valid()
      modifies `cookielist, `nextExpiration, `numcookies
      ensures Valid() && rc <= 2
      ensures |old(cookielist)| == BUCKETS && |cookielist| == BUCKETS
      ensures rc == 1 <==> old(cookielist)[CookieHash(isIp, Some(host))] == []
      ensures rc == 1 ==> list == [] && cookielist == old(cookielist)
      ensures rc != 1 ==> cookielist == PurgeAll(old(cookielist), now)
      ensures rc == 2 ==> !plenty && list == [] && cookielist[CookieHash(isIp, Some(host))] != []
      ensures rc == 0 ==> |list| <= MAX_SEND && forall c :: c in list ==>
        c in cookielist[CookieHash(isIp, Some(host))] && Sendable(isIp, c, host, path, secure)
      ensures rc == 0 && |list| < MAX_SEND ==>
        forall c :: c in cookielist[CookieHash(isIp, Some(host))] && Sendable(isIp, c, host, path, secure) ==> c in list
      ensures rc == 0 ==> var all := Chosen(isIp, cookielist[CookieHash(isIp, Some(host))], host, path, secure);
        multiset(list) == multiset(all[..Min(MAX_SEND, |all|)]) && Sorted(list)
      ensures old(StampsDiffer(cookielist)) ==> StampsDiffer(cookielist) && Stamped(list)
    {
      hide Sound, CaseBlind, StampsDiffer, PurgeAll, CookieHash, Chosen, Wanted, Sorted, Stamped;
      SoundSize(cookielist, isIp, nextExpiration);
      StampedNone();
      var myhash := CookieHash(isIp, Some(host));
      if cookielist[myhash] == [] {
        return 1, [];
      }
      RemoveExpired(now);
      SoundSize(cookielist, isIp, nextExpiration);
      SoundParts(cookielist, isIp, nextExpiration, myhash);
      var found := Collect(isIp, cookielist[myhash], host, path, secure);
      if found != [] && !plenty {
        if * {
          ChosenNone(isIp, host, path, secure);
          return 2, [];  // out of memory
        }
      }
      list := Sort(found);
      ListExact(isIp, cookielist[myhash], host, path, secure, list);
      if StampsDiffer(cookielist) {
        ChosenStamped(cookielist, isIp, myhash, host, path, secure, list);
      }
      return 0, list;
    }

    // Curl_cookie_clearsess
    method ClearSession()
      requires Valid()
      modifies `cookielist, `numcookies
      ensures Valid()
      ensures cookielist == LastingAll(old(cookielist))
      ensures |cookielist| == |old(cookielist)| == BUCKETS
      ensures forall b, c :: 0 <= b < BUCKETS ==>
        (c in cookielist[b] <==> c in old(cookielist)[b] && c.expires != 0)
      ensures old(StampsDiffer(cookielist)) ==> StampsDiffer(cookielist)
    {
      hide Sound, CaseBlind, Lasting, StampsDiffer;
      SoundSize(cookielist, isIp, nextExpiration);
      LastingSound(cookielist, isIp, nextExpiration);
      ghost var jar := cookielist;
      var i := 0;
      while i < BUCKETS
        invariant 0 <= i <= BUCKETS && |cookielist| == BUCKETS && numcookies == Count(cookielist)
        invariant forall b :: 0 <= b < BUCKETS ==> cookielist[b] == if b < i then Lasting(jar[b]) else jar[b]
      {
        DropSession(i);
        i := i + 1;
      }
      assert cookielist == LastingAll(jar);
    }

    method DropSession(i: nat)
      requires i < |cookielist| && numcookies == Count(cookielist)
      modifies `cookielist, `numcookies
      ensures cookielist == old(cookielist)[i := Lasting(old(cookielist)[i])]
      ensures numcookies == Count(cookielist)
    {
      hide Halfway, Lasting, Count;
      ghost var list := cookielist[i];
      ghost var kept, seen := [], 0;
      var k := 0;
      LastingNone();
      HalfwayStart(cookielist, i);
      while k < |cookielist[i]|
        invariant i < |cookielist| && k == |kept| && seen <= |list|
        invariant Halfway(old(cookielist), cookielist, i, kept, seen)
        invariant kept == Lasting(list[..seen]) && numcookies == Count(cookielist)
        decreases |cookielist[i]| - k
      {
        var before := cookielist[i];
        HalfwayStep(old(cookielist), cookielist, i, kept, seen);
        LastingStep(list, seen);
        if before[k].expires == 0 {
          CountUpdate(cookielist, i, before[..k] + before[k + 1..]);
          cookielist := cookielist[i := before[..k] + before[k + 1..]];
          numcookies := numcookies - 1;
        } else {
          kept := kept + [before[k]];
          k := k + 1;
        }
        seen := seen + 1;
      }
      HalfwayEnd(old(cookielist), cookielist, i, kept, seen);
    }

    // Curl_cookie_clearall
    method ClearAll()
      requires Valid()
      modifies `cookielist, `numcookies
      ensures Valid() && cookielist == seq(BUCKETS, _ => [])
    {
      SoundSize(cookielist, isIp, nextExpiration);
      var i := 0;
      while i < BUCKETS
        invariant 0 <= i <= BUCKETS == |cookielist|
        invariant forall b :: 0 <= b < i ==> cookielist[b] == []
      {
        cookielist := cookielist[i := []];
        i := i + 1;
      }
      numcookies := 0;
      CountNone(cookielist);
    }
  }

  const MAX_SEND: nat := 150  // MAX_COOKIE_SEND_AMOUNT

  // Cookies from a file take no cookie out that was set from a header.
  lemma LiveStay(list: seq<Cookie>, co: Cookie, secure: bool, beyond: bool)
    requires Unique(list)
    ensures !co.livecookie && !Refused(list, co, secure, beyond) ==>
      forall c :: c in list && c.livecookie ==> c in Insert(list, co)
  {
    hide Overlays, SameId, Insert, Unique;
    RefusedMeans(list, co, secure, beyond);
    InsertMembersAll(list, co);
  }

  // How the parsed cookie co is kept: live exactly when the engine is running, with the creation time of
  // its twin if the list has one and otherwise the next of the counter, which is 32 bits wide.
  ghost predicate EntersAs(list: seq<Cookie>, co: Cookie, running: bool, lastct: nat, e: Cookie) {
    && e.livecookie == running
    && e == co.(livecookie := running, creationtime := e.creationtime)
    && if exists c :: c in list && SameId(c, co)
       then exists c :: c in list && SameId(c, co) && e.creationtime == c.creationtime
       else e.creationtime == (lastct + 1) % 0x1_0000_0000
  }

  lemma EntryMeans(list: seq<Cookie>, co: Cookie, live: bool, lastct: nat)
    ensures var co1 := co.(livecookie := live, creationtime := NextStamp(lastct));
      Entry(list, co1) in Insert(list, co1) && EntersAs(list, co, live, lastct, Entry(list, co1))
  {
    var co1 := co.(livecookie := live, creationtime := NextStamp(lastct));
    match Find(list, co1)
    case None =>
      assert forall c :: c in list ==> !SameId(c, co1);
    case Some(k) =>
      assert list[k] in list && SameId(list[k], co);
  }

  // The loop of Curl_cookie_getlist.
  method Collect(isIp: seq<byte> -> bool, list: seq<Cookie>, host: seq<byte>, path: seq<byte>, secure: bool)
    returns (found: seq<Cookie>)
    ensures var all := Chosen(isIp, list, host, path, secure); found == all[..Min(MAX_SEND, |all|)]
  {
    hide Wanted, Chosen;
    found := [];
    ChosenNone(isIp, host, path, secure);
    var k := 0;
    while k < |list|
      invariant k <= |list| && |found| < MAX_SEND
      invariant found == Chosen(isIp, list[..k], host, path, secure)
    {
      var co := list[k];
      ChosenStep(isIp, list, k, host, path, secure);
      if Wanted(isIp, co, host, path, secure) {
        found := found + [co];
        if |found| >= MAX_SEND {
          ChosenPrefix(isIp, list, k + 1, host, path, secure);
          return;
        }
      }
      k := k + 1;
    }
    assert list[..k] == list;
  }

  // The list against the meaning of the tests.
  lemma ListExact(
      isIp: seq<byte> -> bool, bucket: seq<Cookie>, host: seq<byte>, path: seq<byte>, secure: bool, list: seq<Cookie>)
    requires var all := Chosen(isIp, bucket, host, path, secure);
      multiset(list) == multiset(all[..Min(MAX_SEND, |all|)])
    ensures |list| <= MAX_SEND
    ensures forall c :: c in list ==> c in bucket && Sendable(isIp, c, host, path, secure)
    ensures |list| < MAX_SEND ==>
      forall c :: c in bucket && Sendable(isIp, c, host, path, secure) ==> c in list
  {
    hide Wanted, Sendable;
    var all := Chosen(isIp, bucket, host, path, secure);
    var some := all[..Min(MAX_SEND, |all|)];
    assert |list| == |multiset(list)| == |multiset(some)| == |some|;
    forall c
      ensures c in list <==> c in some
      ensures Wanted(isIp, c, host, path, secure) <==> Sendable(isIp, c, host, path, secure)
    {
      assert c in list <==> c in multiset(list);
      assert c in some <==> c in multiset(some);
      WantedExact(isIp, c, host, path, secure);
    }
  }

  lemma ChosenNone(isIp: seq<byte> -> bool, host: seq<byte>, path: seq<byte>, secure: bool)
    ensures Chosen(isIp, [], host, path, secure) == []
  {
  }

  lemma ChosenStep(isIp: seq<byte> -> bool, list: seq<Cookie>, k: nat, host: seq<byte>, path: seq<byte>, secure: bool)
    requires k < |list|
    ensures Chosen(isIp, list[..k + 1], host, path, secure) ==
            Chosen(isIp, list[..k], host, path, secure)
            + if Wanted(isIp, list[k], host, path, secure) then [list[k]] else []
  {
    assert list[..k + 1][..k] == list[..k];
  }

  lemma {:induction false} ChosenPrefix(
      isIp: seq<byte> -> bool, list: seq<Cookie>, k: nat, host: seq<byte>, path: seq<byte>, secure: bool)
    requires k <= |list|
    ensures Chosen(isIp, list[..k], host, path, secure) <= Chosen(isIp, list, host, path, secure)
    decreases |list| - k
  {
    if k == |list| {
      assert list[..k] == list;
    } else {
      assert list[..k + 1][..k] == list[..k];
      ChosenPrefix(isIp, list, k + 1, host, path, secure);
    }
  }

  lemma StampedNone()
    ensures Stamped([])
  {
  }

  // The chosen cookies differ in creation time, so the order puts them in one sequence only.
  lemma ChosenStamped(
      jar: Jar, isIp: seq<byte> -> bool, b: nat, host: seq<byte>, path: seq<byte>, secure: bool, list: seq<Cookie>)
    requires StampsDiffer(jar) && b < |jar| && Unique(jar[b])
    requires var all := Chosen(isIp, jar[b], host, path, secure);
      multiset(list) == multiset(all[..Min(MAX_SEND, |all|)])
    ensures Stamped(list)
  {
    var all := Chosen(isIp, jar[b], host, path, secure);
    var some := all[..Min(MAX_SEND, |all|)];
    ChosenUnique(isIp, jar[b], host, path, secure);
    hide Chosen, SameId;
    forall i, j | 0 <= i < j < |some|
      ensures some[i] != some[j]
    {
      SameIdReflexive(some[i]);
    }
    SameElements(some, list);
    forall i, j | 0 <= i < j < |list|
      ensures list[i].creationtime != list[j].creationtime
    {
      assert list[i] in multiset(list) && list[j] in multiset(list);
      assert list[i] in some && list[j] in some;
      assert list[i] in all && list[j] in all;
    }
  }

  // A rearrangement of a list without repetitions has none.
  lemma SameElements(a: seq<Cookie>, b: seq<Cookie>)
    requires multiset(a) == multiset(b)
    requires forall i, j :: 0 <= i < j < |a| ==> a[i] != a[j]
    ensures forall i, j :: 0 <= i < j < |b| ==> b[i] != b[j]
  {
    forall c
      ensures multiset(b)[c] <= 1
    {
      NoRepeats(a, c);
    }
    forall i, j | 0 <= i < j < |b|
      ensures b[i] != b[j]
    {
      if b[i] == b[j] {
        Twice(b, i, j);
      }
    }
  }

  lemma Twice(b: seq<Cookie>, i: nat, j: nat)
    requires i < j < |b| && b[i] == b[j]
    ensures multiset(b)[b[i]] >= 2
  {
    assert b == b[..i] + [b[i]] + b[i + 1..j] + [b[j]] + b[j + 1..];
  }

  lemma {:induction false} NoRepeats(a: seq<Cookie>, c: Cookie)
    requires forall i, j :: 0 <= i < j < |a| ==> a[i] != a[j]
    ensures multiset(a)[c] <= 1
  {
    if a != [] {
      var n := |a| - 1;
      assert a == a[..n] + [a[n]];
      NoRepeats(a[..n], c);
      if a[n] == c {
        assert c !in a[..n];
      }
    }
  }

  lemma ExpiredMeans(jar: Jar, now: int)
    ensures forall b, c :: 0 <= b < |jar| ==>
      (c in PurgeAll(jar, now)[b] <==> c in jar[b] && (c.expires == 0 || c.expires >= now))
  {
    forall b, c | 0 <= b < |jar|
      ensures c in PurgeAll(jar, now)[b] <==> c in jar[b] && (c.expires == 0 || c.expires >= now)
    {
      assert PurgeAll(jar, now)[b] == Alive(jar[b], now);
    }
  }

  lemma NextStampSize(lastct: nat)
    ensures NextStamp(lastct) < STAMPS
  {
  }

  lemma StampFreePurge(jar: Jar, now: int, stamp: nat)
    ensures StampFree(jar, stamp) ==> StampFree(PurgeAll(jar, now), stamp)
  {
  }

  lemma SoundParts(jar: Jar, isIp: seq<byte> -> bool, next: int, h: nat)
    requires Sound(jar, isIp, next) && h < BUCKETS
    ensures Placed(jar, isIp) && |jar| == BUCKETS && Unique(jar[h])
  {
  }

  lemma InsertSize(list: seq<Cookie>, co: Cookie)
    ensures |Insert(list, co)| == |list| + if Find(list, co).Some? then 0 else 1
  {
  }

  // What clearing the session cookies leaves of a list.
  function Lasting(list: seq<Cookie>): (r: seq<Cookie>)
    ensures forall c :: c in r <==> c in list && c.expires != 0
  {
    if list == [] then []
    else
      var n := |list| - 1;
      assert forall c :: c in list <==> c in list[..n] || c == list[n];
      Lasting(list[..n]) + if list[n].expires == 0 then [] else [list[n]]
  }

  lemma LastingNone()
    ensures Lasting([]) == []
  {
  }

  lemma LastingStep(list: seq<Cookie>, seen: nat)
    requires seen < |list|
    ensures Lasting(list[..seen + 1]) ==
            Lasting(list[..seen]) + if list[seen].expires == 0 then [] else [list[seen]]
  {
    assert list[..seen + 1][..seen] == list[..seen];
  }

  lemma {:induction false} LastingUnique(list: seq<Cookie>)
    requires Unique(list)
    ensures Unique(Lasting(list))
  {
    if list != [] {
      var n := |list| - 1;
      var rest := Lasting(list[..n]);
      LastingUnique(list[..n]);
      forall i | 0 <= i < |rest|
        ensures !SameId(rest[i], list[n])
      {
        assert rest[i] in list[..n];
      }
    }
  }

  function LastingAll(jar: Jar): (r: Jar)
    ensures |r| == |jar| && forall b :: 0 <= b < |jar| ==> r[b] == Lasting(jar[b])
  {
    seq(|jar|, b requires 0 <= b < |jar| => Lasting(jar[b]))
  }

  lemma LastingSound(jar: Jar, isIp: seq<byte> -> bool, next: int)
    requires Sound(jar, isIp, next)
    ensures Sound(LastingAll(jar), isIp, next)
    ensures StampsDiffer(jar) ==> StampsDiffer(LastingAll(jar))
  {
    forall b | 0 <= b < BUCKETS
      ensures Unique(LastingAll(jar)[b])
    {
      LastingUnique(jar[b]);
    }
  }

  // The loop of replace_existing.
  method FindTwin(list: seq<Cookie>, co: Cookie, secure: bool, beyond: bool)
    returns (rc: Verdict, replaceN: Option<nat>)
    requires Unique(list)
    ensures rc == Accepted <==> !Refused(list, co, secure, beyond)
    ensures rc == Accepted ==> replaceN == Find(list, co)
  {
    hide Overlays, Unique, CiEq;
    replaceN := None;
    var replaceOld, k := false, 0;
    while k < |list|
      invariant k <= |list| && replaceN == Find(list[..k], co) && replaceOld == replaceN.Some?
      invariant forall c :: c in list[..k] ==> !Overlays(c, co, secure, beyond) && !LosesTo(c, co)
    {
      var clist := list[k];
      assert list[..k + 1] == list[..k] + [clist] && list[..k + 1][..k] == list[..k];
      assert clist in list;
      if Overlays(clist, co, secure, beyond) {
        return BadSecure, None;
      }
      TwinsApart(list, co, replaceN, k);
      if replaceN == None && clist.name == co.name {
        if clist.domain.Some? && co.domain.Some? {
          if CiEq(clist.domain.value, co.domain.value) && clist.tailmatch == co.tailmatch {
            replaceOld := true;
          }
        } else if clist.domain == None && co.domain == None {
          replaceOld := true;
        }
        if replaceOld {
          if clist.spath.Some? && co.spath.Some? && !CiEq(clist.spath.value, co.spath.value) {
            replaceOld := false;
          } else if clist.spath.Some? != co.spath.Some? {
            replaceOld := false;
          }
        }
        if replaceOld && !co.livecookie && clist.livecookie {
          return LiveWins, None;
        }
        if replaceOld {
          replaceN := Some(k);
        }
      }
      k := k + 1;
    }
    assert list[..k] == list;
    rc := Accepted;
  }

  lemma PlacedSize(jar: Jar, isIp: seq<byte> -> bool)
    requires Placed(jar, isIp)
    ensures |jar| == BUCKETS
  {
  }

  datatype Verdict = Accepted | BadSecure | LiveWins

  // Behind the twin no cookie is another twin.
  lemma TwinsApart(list: seq<Cookie>, co: Cookie, twin: Option<nat>, k: nat)
    requires Unique(list) && k < |list|
    requires twin.Some? ==> twin.value < k && SameId(list[twin.value], co)
    ensures twin.Some? ==> !SameId(list[k], co)
  {
    if twin.Some? && SameId(list[k], co) {
      SameIdSymmetric(list[k], co);
      SameIdTransitive(list[twin.value], co, list[k]);
    }
  }

  // Bucket i, `list` at the start, after a loop has looked at its first `seen` cookies and kept `kept`.
  ghost predicate Halfway(jar0: Jar, jar: Jar, i: nat, kept: seq<Cookie>, seen: nat) {
    i < |jar0| && seen <= |jar0[i]| && jar == jar0[i := kept + jar0[i][seen..]]
  }

  lemma HalfwayStart(jar: Jar, i: nat)
    requires i < |jar|
    ensures Halfway(jar, jar, i, [], 0)
  {
    assert [] + jar[i][0..] == jar[i];
  }

  // Removing or keeping the first of the cookies not yet looked at.
  lemma HalfwayStep(jar0: Jar, jar: Jar, i: nat, kept: seq<Cookie>, seen: nat)
    requires Halfway(jar0, jar, i, kept, seen) && |kept| < |jar[i]|
    ensures var k := |kept|; var less := jar[i][..k] + jar[i][k + 1..];
      && seen < |jar0[i]| && jar[i][k] == jar0[i][seen] && |less| == |jar[i]| - 1 && |jar| == |jar0|
      && Halfway(jar0, jar[i := less], i, kept, seen + 1)
      && Halfway(jar0, jar, i, kept + [jar[i][k]], seen + 1)
  {
    var l, k, list := jar[i], |kept|, jar0[i];
    assert l[..k] + l[k + 1..] == kept + list[seen + 1..];
    assert l == kept + [l[k]] + list[seen + 1..];
  }

  lemma HalfwayEnd(jar0: Jar, jar: Jar, i: nat, kept: seq<Cookie>, seen: nat)
    requires Halfway(jar0, jar, i, kept, seen) && |kept| >= |jar[i]|
    ensures jar == jar0[i := kept] && jar0[i][..seen] == jar0[i]
  {
    assert kept + jar0[i][seen..] == kept;
  }

  // `next` is no later than any expiry in the list.
  ghost predicate NoEarlier(list: seq<Cookie>, next: int) {
    forall c :: c in list && c.expires != 0 ==> next <= c.expires
  }

  lemma NoEarlierNone(next: int)
    ensures NoEarlier([], next)
  {
  }

  lemma NoEarlierStep(list: seq<Cookie>, c: Cookie, next: int, next': int)
    requires NoEarlier(list, next) && next' <= next && (c.expires != 0 ==> next' <= c.expires)
    ensures NoEarlier(list + [c], next')
  {
  }

  lemma AliveNone(now: int)
    ensures Alive([], now) == []
  {
  }

  lemma AliveStep(list: seq<Cookie>, seen: nat, now: int)
    requires seen < |list|
    ensures Alive(list[..seen + 1], now) ==
            Alive(list[..seen], now) + if Expired(list[seen], now) then [] else [list[seen]]
    ensures Expired(list[seen], now) <==> list[seen].expires != 0 && list[seen].expires < now
  {
    assert list[..seen + 1][..seen] == list[..seen];
  }

  lemma CountNone(jar: Jar)
    requires forall b :: 0 <= b < |jar| ==> jar[b] == []
    ensures Count(jar) == 0
  {
  }

  lemma SoundSize(jar: Jar, isIp: seq<byte> -> bool, next: int)
    requires Sound(jar, isIp, next)
    ensures |jar| == BUCKETS
  {
  }

  lemma BoundKept(jar: Jar, isIp: seq<byte> -> bool, next: int, now: int)
    requires Sound(jar, isIp, next)
    ensures forall b, c :: 0 <= b < BUCKETS && c in PurgeAll(jar, now)[b] && c.expires != 0 ==> next <= c.expires
  {
  }
}
