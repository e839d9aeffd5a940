// curl-8.13.0/lib/cookie.c: which domains a host matches, and in which bucket a domain is kept.

module CookieDomain {
  import opened Common
  import opened StrParse

  const BUCKETS: nat := 63  // COOKIE_HASH_SIZE
  const DOT: byte := 46

  // cookie_tailmatch
  predicate TailMatch(domain: seq<byte>, host: seq<byte>) {
    && |domain| <= |host|
    && CiEq(domain, host[|host| - |domain|..])
    && (|host| == |domain| || host[|host| - |domain| - 1] == DOT)
  }

  // memrchr(s, '.', |s|)
  function LastDot(s: seq<byte>): (r: Option<nat>)
    ensures r == None ==> DOT !in s
    ensures r.Some? ==> r.value < |s| && s[r.value] == DOT && DOT !in s[r.value + 1..]
  {
    if s == [] then None
    else if s[|s| - 1] == DOT then Some(|s| - 1)
    else LastDot(s[..|s| - 1])
  }

  // get_top_domain: the last two labels, where there are more.
  function TopDomain(domain: seq<byte>): seq<byte> {
    match LastDot(domain)
    case None => domain
    case Some(last) =>
      match LastDot(domain[..last])
      case None => domain
      case Some(first) => domain[first + 1..]
  }

  // cookie_hash_domain, in 64-bit arithmetic that wraps around
  function Mix(h: bv64, c: byte): bv64 {
    (h + (h << 5)) ^ Widened(c)
  }

  // A char, taken for signed, as a size_t.
  function Widened(c: byte): bv64 {
    if c < 128 then c as bv64 else 0xFFFF_FFFF_FFFF_FF00 | (c as bv64)
  }

  function HashFrom(s: seq<byte>, h: bv64): bv64 {
    if s == [] then h else HashFrom(s[1..], Mix(h, Upper(s[0])))
  }

  function HashDomain(s: seq<byte>): (b: nat)
    ensures b < BUCKETS
  {
    (HashFrom(s, 5381) as nat) % BUCKETS
  }

  method CookieHashDomain(domain: seq<byte>) returns (b: nat)
    ensures b == HashDomain(domain)
  {
    hide Mix;
    var i, h: bv64 := 0, 5381;
    while i < |domain|
      invariant i <= |domain| && HashFrom(domain, 5381) == HashFrom(domain[i..], h)
    {
      assert domain[i..][1..] == domain[i + 1..];
      h := Mix(h, Upper(domain[i]));
      i := i + 1;
    }
    assert domain[i..] == [];
    b := (h as nat) % BUCKETS;
  }

  // Curl_host_is_ipnum is a parameter; it does not look at the case of letters.
  ghost predicate CaseBlind(isIp: seq<byte> -> bool) {
    forall a, b :: CiEq(a, b) ==> isIp(a) == isIp(b)
  }

  // The part of a domain that is hashed; nothing of an IP number.
  function Key(isIp: seq<byte> -> bool, domain: Option<seq<byte>>): Option<seq<byte>> {
    if domain == None || isIp(domain.value) then None else Some(TopDomain(domain.value))
  }

  // cookiehash
  function CookieHash(isIp: seq<byte> -> bool, domain: Option<seq<byte>>): (b: nat)
    ensures b < BUCKETS
  {
    match Key(isIp, domain)
    case None => 0
    case Some(top) => HashDomain(top)
  }

  // ---- equal up to case ----

  lemma {:induction false} HashCiEq(a: seq<byte>, b: seq<byte>, h: bv64)
    requires CiEq(a, b)
    ensures HashFrom(a, h) == HashFrom(b, h)
  {
    hide Mix;
    if a != [] {
      assert CiEq(a[1..], b[1..]) by {
        assert forall i :: 0 <= i < |a| - 1 ==> a[1..][i] == a[i + 1] && b[1..][i] == b[i + 1];
      }
      assert Upper(a[0]) == Upper(b[0]);
      HashCiEq(a[1..], b[1..], Mix(h, Upper(a[0])));
    }
  }

  lemma {:induction false} LastDotCiEq(a: seq<byte>, b: seq<byte>)
    requires CiEq(a, b)
    ensures LastDot(a) == LastDot(b)
  {
    if a != [] {
      assert Upper(a[|a| - 1]) == Upper(b[|a| - 1]);
      LastDotCiEq(a[..|a| - 1], b[..|a| - 1]);
    }
  }

  lemma TopDomainCiEq(a: seq<byte>, b: seq<byte>)
    requires CiEq(a, b)
    ensures CiEq(TopDomain(a), TopDomain(b))
  {
    LastDotCiEq(a, b);
    if LastDot(a).Some? {
      var last := LastDot(a).value;
      LastDotCiEq(a[..last], b[..last]);
    }
  }

  // Domains equal up to case are kept in the same bucket.
  lemma SameDomainSameBucket(isIp: seq<byte> -> bool, a: seq<byte>, b: seq<byte>)
    requires CaseBlind(isIp) && CiEq(a, b)
    ensures CookieHash(isIp, Some(a)) == CookieHash(isIp, Some(b))
  {
    TopDomainCiEq(a, b);
    HashCiEq(TopDomain(a), TopDomain(b), 5381);
  }

  // ---- suffixes ----

  lemma {:induction false} LastDotSuffix(pre: seq<byte>, s: seq<byte>)
    ensures LastDot(pre + s) == if DOT in s then Some(|pre| + LastDot(s).value) else LastDot(pre)
  {
    if s == [] {
      assert pre + s == pre;
    } else {
      var n := |s| - 1;
      assert (pre + s)[..|pre + s| - 1] == pre + s[..n];
      assert s == s[..n] + [s[n]];
      LastDotSuffix(pre, s[..n]);
    }
  }

  // What the top domain is, by where the last two dots are.
  lemma TopDomainIs(s: seq<byte>, last: nat)
    requires LastDot(s) == Some(last)
    ensures DOT !in s[..last] ==> TopDomain(s) == s
    ensures DOT in s[..last] ==> LastDot(s[..last]).Some? && TopDomain(s) == s[LastDot(s[..last]).value + 1..]
  {
  }

  // A label in front changes the last two labels only when there was just one.
  lemma TopDomainSuffix(pre: seq<byte>, s: seq<byte>)
    requires pre != [] && pre[|pre| - 1] == DOT
    ensures DOT in s ==> TopDomain(pre + s) == TopDomain(s)
    ensures DOT !in s ==> |TopDomain(pre + s)| > |s|
  {
    hide LastDot, TopDomain;
    LastDotSuffix(pre, s);
    LabelEnds(pre);
    if DOT in s {
      var last := LastDot(s).value;
      TopDomainIs(s, last);
      TopDomainIs(pre + s, |pre| + last);
      assert (pre + s)[..|pre| + last] == pre + s[..last];
      LastDotSuffix(pre, s[..last]);
      assert DOT in pre + s[..last];
      if DOT in s[..last] {
        var first := LastDot(s[..last]).value;
        assert (pre + s)[|pre| + first + 1..] == s[first + 1..];
      } else {
        assert (pre + s)[|pre|..] == s;
      }
    } else {
      TopDomainIs(pre + s, |pre| - 1);
      TopDomainLong(pre + s, |pre| - 1);
    }
  }

  lemma LabelEnds(pre: seq<byte>)
    requires pre != [] && pre[|pre| - 1] == DOT
    ensures DOT in pre && LastDot(pre) == Some(|pre| - 1)
  {
  }

  lemma TopDomainLong(s: seq<byte>, last: nat)
    requires LastDot(s) == Some(last)
    ensures |TopDomain(s)| >= |s| - last
  {
  }

  // The exact reach of the bucket: for a host that tail-matches a domain the two agree on the part that
  // is hashed just when the domain has a dot or is the whole host.
  lemma TailMatchSameTop(domain: seq<byte>, host: seq<byte>)
    requires TailMatch(domain, host)
    ensures CiEq(TopDomain(domain), TopDomain(host)) <==> DOT in domain || |domain| == |host|
  {
    hide LastDot, TopDomain;
    var n := |host| - |domain|;
    var tail := host[n..];
    TopDomainCiEq(domain, tail);
    if n == 0 {
      assert tail == host;
    } else {
      assert host == host[..n] + tail;
      TopDomainSuffix(host[..n], tail);
      LastDotCiEq(domain, tail);
      DotSeen(domain);
      DotSeen(tail);
      TopDomainShort(domain);
    }
  }

  lemma DotSeen(s: seq<byte>)
    ensures LastDot(s).Some? <==> DOT in s
  {
  }

  lemma TopDomainShort(s: seq<byte>)
    ensures |TopDomain(s)| <= |s|
  {
  }

  // Outside that reach the bucket may be another one: here for the domain "a" and the host "b.a".
  lemma DotlessOtherBucket(isIp: seq<byte> -> bool)
    requires !isIp([97]) && !isIp([98, 46, 97])
    ensures TailMatch([97], [98, 46, 97])
    ensures CookieHash(isIp, Some([97])) == 39 && CookieHash(isIp, Some([98, 46, 97])) == 51
  {
    hide Mix, HashFrom, LastDot, TopDomain;
    MixValues();
    ShortTops();
    HashOne(97, 5381);
    HashThree(98, 46, 97, 5381);
  }

  lemma ShortTops()
    ensures TopDomain([97]) == [97] && TopDomain([98, 46, 97]) == [98, 46, 97]
    ensures TailMatch([97], [98, 46, 97])
  {
    var d: seq<byte>, h: seq<byte> := [97], [98, 46, 97];
    assert d[..0] == [];
    assert LastDot(d) == None;
    assert h[..2] == [98, 46] && h[..1] == [98] && [98 as byte][..0] == [];
    assert LastDot(h[..2]) == Some(1) && LastDot(h) == Some(1) && LastDot(h[..1]) == None;
    assert h[2..] == d;
  }

  lemma HashOne(a: byte, h: bv64)
    ensures HashFrom([a], h) == Mix(h, Upper(a))
  {
    hide Mix;
    assert [a][1..] == [];
  }

  lemma HashThree(a: byte, b: byte, c: byte, h: bv64)
    ensures HashFrom([a, b, c], h) == Mix(Mix(Mix(h, Upper(a)), Upper(b)), Upper(c))
  {
    hide Mix;
    assert [a, b, c][1..] == [b, c] && [b, c][1..] == [c];
    HashOne(c, Mix(Mix(h, Upper(a)), Upper(b)));
  }

  lemma MixValues()
    ensures Mix(5381, 65) == 177636
    ensures Mix(5381, 66) == 177639 && Mix(177639, 46) == 5862121 && Mix(5862121, 65) == 193450056
  {
  }
}
