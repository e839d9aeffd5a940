// curl-8.13.0/lib/cookie.c: the order of the cookies in a request.

module CookieSort {
  import opened Common
  import opened CookieJar

  function Length(s: Option<seq<byte>>): nat {
    if s == None then 0 else |s.value|
  }

  // cookie_sort, where it returns -1: longer path, domain and name first, then the later creation time.
  predicate Before(a: Cookie, b: Cookie) {
    if Length(a.path) != Length(b.path) then Length(a.path) > Length(b.path)
    else if Length(a.domain) != Length(b.domain) then Length(a.domain) > Length(b.domain)
    else if |a.name| != |b.name| then |a.name| > |b.name|
    else a.creationtime >= b.creationtime
  }

  ghost predicate Sorted(list: seq<Cookie>) {
    forall i, j :: 0 <= i < j < |list| ==> Before(list[i], list[j])
  }

  // Creation times tell the cookies of a list apart.
  ghost predicate Stamped(list: seq<Cookie>) {
    forall i, j :: 0 <= i < j < |list| ==> list[i].creationtime != list[j].creationtime
  }

  lemma BeforeTransitive(a: Cookie, b: Cookie, c: Cookie)
    requires Before(a, b) && Before(b, c)
    ensures Before(a, c)
  {
  }

  // Between cookies of different creation times the order is strict and total.
  lemma BeforeTotal(a: Cookie, b: Cookie)
    requires a.creationtime != b.creationtime
    ensures Before(a, b) != Before(b, a)
  {
  }

  // What the order promises: the longer path first; then the longer domain, the longer name, the cookie
  // made last.
  lemma SortedMeans(list: seq<Cookie>, i: nat, j: nat)
    requires Sorted(list) && i < j < |list|
    ensures list[j].path.Some? && |list[j].path.value| > 0 ==>
      list[i].path.Some? && |list[i].path.value| >= |list[j].path.value|
    ensures list[i].path == list[j].path && list[j].domain.Some? && |list[j].domain.value| > 0 ==>
      list[i].domain.Some? && |list[i].domain.value| >= |list[j].domain.value|
    ensures list[i].path == list[j].path && list[i].domain == list[j].domain ==>
      |list[i].name| >= |list[j].name|
    ensures list[i].path == list[j].path && list[i].domain == list[j].domain && list[i].name == list[j].name ==>
      list[i].creationtime >= list[j].creationtime
  {
    assert Before(list[i], list[j]);
  }

  lemma SortedHead(a: seq<Cookie>, b: seq<Cookie>)
    requires a != [] && b != [] && Sorted(a) && Sorted(b) && Stamped(a) && multiset(a) == multiset(b)
    ensures a[0] == b[0]
  {
    assert a[0] in multiset(a) && b[0] in multiset(b);
    var i :| 0 <= i < |b| && b[i] == a[0];
    var j :| 0 <= j < |a| && a[j] == b[0];
    if i != 0 && j != 0 {
      assert Before(a[0], a[j]) && Before(b[0], b[i]);
      BeforeTotal(a[0], a[j]);
      assert false;
    }
  }

  // So there is one sorted arrangement only: whatever sorting routine is used, the request is the same.
  lemma {:induction false} SortedUnique(a: seq<Cookie>, b: seq<Cookie>)
    requires Sorted(a) && Sorted(b) && Stamped(a) && multiset(a) == multiset(b)
    ensures a == b
  {
    hide Before;
    assert |a| == |multiset(a)| == |multiset(b)| == |b|;
    if a != [] {
      SortedHead(a, b);
      TailMembers(a);
      TailMembers(b);
      SortedUnique(a[1..], b[1..]);
    }
  }

  lemma TailMembers(a: seq<Cookie>)
    requires a != []
    ensures a == [a[0]] + a[1..] && multiset(a[1..]) == multiset(a) - multiset{a[0]}
  {
    assert a == [a[0]] + a[1..];
  }

  // Stands in for qsort with cookie_sort.
  method Sort(list: seq<Cookie>) returns (sorted: seq<Cookie>)
    ensures multiset(sorted) == multiset(list) && Sorted(sorted)
  {
    sorted := [];
    for n := 0 to |list|
      invariant multiset(sorted) == multiset(list[..n]) && Sorted(sorted)
    {
      sorted := Put(sorted, list[n]);
      assert list[..n + 1] == list[..n] + [list[n]];
    }
    assert list[..|list|] == list;
  }

  method Put(list: seq<Cookie>, c: Cookie) returns (r: seq<Cookie>)
    requires Sorted(list)
    ensures multiset(r) == multiset(list) + multiset{c} && Sorted(r)
  {
    hide Before, Sorted;
    var k := 0;
    while k < |list| && Before(list[k], c)
      invariant k <= |list| && forall i :: 0 <= i < k ==> Before(list[i], c)
    {
      k := k + 1;
    }
    r := list[..k] + [c] + list[k..];
    assert list == list[..k] + list[k..];
    PutSorted(list, k, c);
  }

  lemma PutSorted(list: seq<Cookie>, k: nat, c: Cookie)
    requires Sorted(list) && k <= |list|
    requires forall i :: 0 <= i < k ==> Before(list[i], c)
    requires k < |list| ==> !Before(list[k], c)
    ensures Sorted(list[..k] + [c] + list[k..])
  {
    forall j | k <= j < |list|
      ensures Before(c, list[j])
    {
      BeforeEither(list[k], c);
      if j > k {
        BeforeTransitive(c, list[k], list[j]);
      }
    }
    hide Before;
    var r := list[..k] + [c] + list[k..];
    assert forall i :: 0 <= i < |r| ==> r[i] == if i < k then list[i] else if i == k then c else list[i - 1];
  }

  lemma BeforeEither(a: Cookie, b: Cookie)
    ensures Before(a, b) || Before(b, a)
  {
  }
}
