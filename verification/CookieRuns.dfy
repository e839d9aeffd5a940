// curl-8.13.0/lib/cookie.c: what holds of a cookie jar after any run of operations.

module CookieRuns {
  import opened Common
  import opened CookieDomain
  import opened CookieJar
  import opened Cookies

  datatype JarOp =
    | AddOp(co: Cookie, noexpire: bool, now: int, secure: bool, publicSuffix: bool, beyond: bool)
    | GetOp(host: seq<byte>, path: seq<byte>, secure: bool, now: int)
    | ExpireOp(now: int)
    | ClearSessionOp
    | ClearAllOp
    | BeginLoadOp(newsession: bool)  // a file is loaded: AddOp for each line, then ExpireOp
    | EndLoadOp

  // Expiry times fit curl_off_t and are not negative; the clock may say anything.
  predicate InRange(op: JarOp) {
    op.AddOp? ==> 0 <= op.co.expires <= FOREVER
  }

  ghost predicate Fresh(jar: Jar, lastct: nat) {
    StampsDiffer(jar) && StampsUpTo(jar, lastct)
  }

  method Do(ci: CookieInfo, op: JarOp)
    requires ci.Valid() && InRange(op)
    modifies ci
    ensures ci.Valid()
    ensures old(ci.lastct) + 1 < STAMPS ==> ci.lastct <= old(ci.lastct) + 1
    ensures old(Fresh(ci.cookielist, ci.lastct)) && old(ci.lastct) + 1 < STAMPS ==> Fresh(ci.cookielist, ci.lastct)
  {
    hide Fresh, CaseBlind, Sound, PurgeAll, Insert, Entry, Refused, CookieHash, Find, StampsDiffer;
    ghost var jar, isIp, last := ci.cookielist, ci.isIp, ci.lastct;
    FreshParts(jar, last);
    match op
    case AddOp(co, noexpire, now, secure, publicSuffix, beyond) =>
      FreshPurge(jar, now, last);
      BoundKept(jar, isIp, ci.nextExpiration, now);
      PurgeSound(jar, isIp, ci.nextExpiration, ci.nextExpiration, now);
      if ci.lastct + 1 < STAMPS {
        FreshInsert(jar, isIp, ci.nextExpiration, ci.Stamp(co), last);
        FreshInsert(PurgeAll(jar, now), isIp, ci.nextExpiration, ci.Stamp(co), last);
        StampFreeNext(jar, last);
        StampFreeNext(PurgeAll(jar, now), last);
      }
      var added := ci.Add(co, noexpire, now, secure, publicSuffix, beyond);
    case GetOp(host, path, secure, now) =>
      FreshPurge(jar, now, last);
      var rc, list := ci.GetList(host, path, secure, now);
    case ExpireOp(now) =>
      FreshPurge(jar, now, last);
      ci.RemoveExpired(now);
    case ClearSessionOp =>
      FreshLasting(jar, last);
      ci.ClearSession();
    case ClearAllOp =>
      ci.ClearAll();
      FreshNone(last);
    case BeginLoadOp(newsession) =>
      ci.BeginLoad(newsession);
    case EndLoadOp =>
      ci.EndLoad();
  }

  // Any run of operations keeps the jar sound; until the counter wraps around it also keeps the creation
  // times apart.
  method Run(ci: CookieInfo, ops: seq<JarOp>)
    requires ci.Valid() && forall k :: 0 <= k < |ops| ==> InRange(ops[k])
    modifies ci
    ensures ci.Valid()
    ensures old(Fresh(ci.cookielist, ci.lastct)) && old(ci.lastct) + |ops| < STAMPS ==> StampsDiffer(ci.cookielist)
  {
    hide Fresh, CaseBlind, Sound, StampsDiffer, StampsUpTo;
    ghost var start, first := old(Fresh(ci.cookielist, ci.lastct)), ci.lastct;
    for k := 0 to |ops|
      invariant ci.Valid()
      invariant start && first + |ops| < STAMPS ==> Fresh(ci.cookielist, ci.lastct) && ci.lastct <= first + k
    {
      Do(ci, ops[k]);
    }
    FreshParts(ci.cookielist, ci.lastct);
  }

  lemma FreshParts(jar: Jar, last: nat)
    ensures Fresh(jar, last) <==> StampsDiffer(jar) && StampsUpTo(jar, last)
  {
  }

  lemma FreshPurge(jar: Jar, now: int, last: nat)
    ensures Fresh(jar, last) ==> Fresh(PurgeAll(jar, now), last)
  {
  }

  lemma FreshLasting(jar: Jar, last: nat)
    ensures Fresh(jar, last) ==> Fresh(LastingAll(jar), last)
  {
  }

  lemma FreshNone(last: nat)
    ensures Fresh(seq(BUCKETS, _ => []), last)
  {
  }

  lemma StampFreeNext(jar: Jar, last: nat)
    requires last + 1 < STAMPS
    ensures NextStamp(last) == last + 1
    ensures Fresh(jar, last) ==> StampFree(jar, NextStamp(last)) && Fresh(jar, last + 1)
  {
  }

  lemma FreshInsert(jar: Jar, isIp: seq<byte> -> bool, next: int, co: Cookie, last: nat)
    requires Sound(jar, isIp, next) && co.creationtime == last + 1
    ensures var b := CookieHash(isIp, co.domain);
      b < |jar| && (Fresh(jar, last) ==> Fresh(jar[b := Insert(jar[b], co)], last + 1))
  {
    var b := CookieHash(isIp, co.domain);
    var list := jar[b];
    hide CookieHash, Insert, Entry, Unique, SameId, Find;
    if Fresh(jar, last) {
      InsertStamps(jar, isIp, co);
      InsertMembersAll(list, co);
      EntryStamp(list, co, last);
    }
  }

  lemma EntryStamp(list: seq<Cookie>, co: Cookie, last: nat)
    requires co.creationtime == last + 1 && forall c :: c in list ==> c.creationtime <= last
    ensures Entry(list, co).creationtime <= last + 1
  {
  }
}
