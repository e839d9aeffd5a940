// curl-8.13.0/lib/cookie.c: which cookies go with a request, and where they are found.

module CookieMatch {
  import opened Common
  import opened StrParse
  import opened CookieDomain
  import opened CookieJar

  // pathmatch
  predicate PathMatch(cookiePath: seq<byte>, uri: seq<byte>) {
    if |cookiePath| == 1 then true
    else
      var uriPath := if uri == [] || uri[0] != 47 then [47] else uri;
      && |uriPath| >= |cookiePath|
      && uriPath[..|cookiePath|] == cookiePath
      && (|cookiePath| == |uriPath| || uriPath[|cookiePath|] == 47)
  }

  // The domain test of Curl_cookie_getlist.
  predicate HostMatch(isIp: seq<byte> -> bool, c: Cookie, host: seq<byte>) {
    || c.domain == None
    || (c.tailmatch && !isIp(host) && TailMatch(c.domain.value, host))
    || ((!c.tailmatch || isIp(host)) && CiEq(host, c.domain.value))
  }

  predicate Wanted(isIp: seq<byte> -> bool, c: Cookie, host: seq<byte>, path: seq<byte>, secure: bool) {
    && (c.secure ==> secure)
    && HostMatch(isIp, c, host)
    && (c.spath == None || PathMatch(c.spath.value, path))
  }

  // ---- what the tests mean ----

  // u is the path itself or goes on behind it with a slash.
  ghost predicate UnderPath(u: seq<byte>, path: seq<byte>) {
    u == path || exists rest: seq<byte> :: u == path + rest && rest != [] && rest[0] == 47
  }

  // The request path as the rule takes it: one that does not start with a slash counts as a slash.
  lemma PathMatchExact(path: seq<byte>, u: seq<byte>)
    ensures |path| == 1 ==> PathMatch(path, u)
    ensures |path| != 1 && u != [] && u[0] == 47 ==> (PathMatch(path, u) <==> UnderPath(u, path))
    ensures |path| != 1 && (u == [] || u[0] != 47) ==> (PathMatch(path, u) <==> path == [])
  {
    if |u| > |path| && u[..|path|] == path {
      assert u == path + u[|path|..];
    }
  }

  // The host is the domain itself or ends in a dot and the domain.
  ghost predicate UnderDomain(host: seq<byte>, domain: seq<byte>) {
    || CiEq(host, domain)
    || exists front: seq<byte>, own: seq<byte> :: host == front + [46] + own && CiEq(own, domain)
  }

  lemma TailMatchExact(domain: seq<byte>, host: seq<byte>)
    ensures TailMatch(domain, host) <==> UnderDomain(host, domain)
  {
    var n := |host| - |domain|;
    if TailMatch(domain, host) {
      if n > 0 {
        assert host == host[..n - 1] + [46] + host[n..];
        assert CiEq(host[n..], domain);
      } else {
        assert host[0..] == host;
      }
    }
    if CiEq(host, domain) {
      assert host[0..] == host;
    } else if UnderDomain(host, domain) {
      var front: seq<byte>, own: seq<byte> :| host == front + [46] + own && CiEq(own, domain);
      assert |front| + 1 == n && host[n..] == own && host[n - 1] == 46;
      assert TailMatch(domain, host);
    }
  }

  // A cookie goes with a request if nothing it asks for is missing: a secure connection; its host or, for
  // one that is not host-only, a host below its domain; a path below its own.
  ghost predicate Sendable(isIp: seq<byte> -> bool, c: Cookie, host: seq<byte>, path: seq<byte>, secure: bool) {
    && (c.secure ==> secure)
    && (c.domain.Some? ==>
          if c.tailmatch && !isIp(host) then UnderDomain(host, c.domain.value) else CiEq(host, c.domain.value))
    && (c.spath.Some? && |c.spath.value| != 1 ==>
          if path != [] && path[0] == 47 then UnderPath(path, c.spath.value) else c.spath.value == [])
  }

  lemma WantedExact(isIp: seq<byte> -> bool, c: Cookie, host: seq<byte>, path: seq<byte>, secure: bool)
    ensures Wanted(isIp, c, host, path, secure) <==> Sendable(isIp, c, host, path, secure)
  {
    hide TailMatch, UnderDomain, PathMatch, UnderPath, CiEq;
    if c.domain.Some? {
      TailMatchExact(c.domain.value, host);
    }
    if c.spath.Some? {
      PathMatchExact(c.spath.value, path);
    }
  }

  function Chosen(
      isIp: seq<byte> -> bool, list: seq<Cookie>, host: seq<byte>, path: seq<byte>, secure: bool): (r: seq<Cookie>)
    ensures forall c :: c in r <==> c in list && Wanted(isIp, c, host, path, secure)
  {
    if list == [] then []
    else
      var n := |list| - 1;
      assert forall c :: c in list <==> c in list[..n] || c == list[n];
      Chosen(isIp, list[..n], host, path, secure) + if Wanted(isIp, list[n], host, path, secure) then [list[n]] else []
  }

  lemma {:induction false} ChosenUnique(
      isIp: seq<byte> -> bool, list: seq<Cookie>, host: seq<byte>, path: seq<byte>, secure: bool)
    requires Unique(list)
    ensures Unique(Chosen(isIp, list, host, path, secure))
  {
    if list != [] {
      hide Wanted, SameId;
      var n := |list| - 1;
      var rest := Chosen(isIp, list[..n], host, path, secure);
      ChosenUnique(isIp, list[..n], host, path, secure);
      forall i | 0 <= i < |rest|
        ensures !SameId(rest[i], list[n])
      {
        assert rest[i] in list[..n];
      }
    }
  }

  // What the host's bucket is sure to hold, if the host test passes: a cookie that is compared with the
  // whole host, or whose domain has a dot and is no IP number; for an IP number also one without a domain.
  predicate Reachable(isIp: seq<byte> -> bool, c: Cookie, host: seq<byte>) {
    match c.domain
    case None => isIp(host)
    case Some(d) => !c.tailmatch || isIp(host) || |d| == |host| || (DOT in d && !isIp(d))
  }

  lemma TailOfWhole(d: seq<byte>, host: seq<byte>)
    requires TailMatch(d, host)
    ensures |d| == |host| <==> CiEq(host, d)
  {
  }

  // The condition is exact: among the cookies that pass the host test it picks those that hash the same
  // bytes, up to case, as the host does.
  lemma ReachableExact(isIp: seq<byte> -> bool, c: Cookie, host: seq<byte>)
    requires CaseBlind(isIp) && HostMatch(isIp, c, host)
    ensures CiEqOption(Key(isIp, c.domain), Key(isIp, Some(host))) <==> Reachable(isIp, c, host)
  {
    hide TopDomain, TailMatch, CiEq;
    if c.domain.Some? {
      var d := c.domain.value;
      if CiEq(host, d) {
        SameKey(isIp, d, host);
      } else {
        TailOfWhole(d, host);
        TailMatchSameTop(d, host);
      }
    }
  }

  lemma SameKey(isIp: seq<byte> -> bool, d: seq<byte>, host: seq<byte>)
    requires CaseBlind(isIp) && CiEq(host, d)
    ensures CiEqOption(Key(isIp, Some(d)), Key(isIp, Some(host))) && |d| == |host|
  {
    TopDomainCiEq(d, host);
  }

  lemma SameKeySameBucket(isIp: seq<byte> -> bool, a: Option<seq<byte>>, b: Option<seq<byte>>)
    requires CiEqOption(Key(isIp, a), Key(isIp, b))
    ensures CookieHash(isIp, a) == CookieHash(isIp, b)
  {
    if Key(isIp, a).Some? {
      HashCiEq(Key(isIp, a).value, Key(isIp, b).value, 5381);
    }
  }

  // Looking into one bucket finds what looking through the whole jar would.
  lemma OneBucketSuffices(
      jar: Jar, isIp: seq<byte> -> bool, host: seq<byte>, path: seq<byte>, secure: bool, b: nat, c: Cookie)
    requires CaseBlind(isIp) && Placed(jar, isIp) && b < BUCKETS && c in jar[b]
    requires Wanted(isIp, c, host, path, secure) && Reachable(isIp, c, host)
    ensures c in Chosen(isIp, jar[CookieHash(isIp, Some(host))], host, path, secure)
  {
    hide Key, Reachable;
    ReachableExact(isIp, c, host);
    SameKeySameBucket(isIp, c.domain, Some(host));
  }

  // Without the condition a cookie that matches can be out of reach: domain "a", host "b.a".
  lemma DotlessOutOfReach(isIp: seq<byte> -> bool, c: Cookie)
    requires !isIp([97]) && !isIp([98, 46, 97])
    requires c.domain == Some([97]) && c.tailmatch
    ensures HostMatch(isIp, c, [98, 46, 97])
    ensures CookieHash(isIp, c.domain) != CookieHash(isIp, Some([98, 46, 97]))
  {
    hide CookieHash, TailMatch;
    DotlessOtherBucket(isIp);
  }
}
