// curl-8.13.0/lib/curl_fnmatch.c: the built-in glob matcher against the language of a pattern.

module Fnmatch {
  import opened Common
  import opened StrParse
  import opened FnmatchSet

  // ---- the language ----

  datatype Token = Star | Any | Literal(c: byte) | Chars(marks: set<nat>) | Bad

  // The token at p[i] and the place behind it. Nothing matches a set that does not close.
  function TokenAt(p: cstring, i: nat): (r: (Token, nat))
    requires i < |p|
    ensures i < r.1 <= |p|
  {
    if p[i] == 42 then (Star, i + 1)
    else if p[i] == 63 then (Any, i + 1)
    else if p[i] == 92 then
      if i + 1 < |p| then (Literal(p[i + 1]), i + 2) else (Literal(92), i + 1)
    else if p[i] == 91 then
      match SetAt(p, i + 1)
      case Some((marks, close)) => (Chars(marks), close + 1)
      case None => (Bad, i + 1)
    else (Literal(p[i]), i + 1)
  }

  // s is in the language of p[i..]: a star stands for any string, and every other token for one
  // character.
  ghost predicate Matches(p: cstring, i: nat, s: seq<byte>)
    requires i <= |p|
    decreases |p| - i
  {
    if i == |p| then s == []
    else
      var (token, next) := TokenAt(p, i);
      match token
      case Star => exists m :: 0 <= m <= |s| && Matches(p, next, s[m..])
      case Bad => false
      case _ => s != [] && TokenTakes(token, s[0]) && Matches(p, next, s[1..])
  }

  predicate TokenTakes(token: Token, c: byte) {
    match token
    case Any => true
    case Literal(d) => c == d
    case Chars(marks) => Accepts(marks, c)
    case _ => false
  }

  // The end of the run of stars and question marks at p[i..].
  function RunEnd(p: cstring, i: nat): (e: nat)
    requires i <= |p|
    ensures i <= e <= |p|
    ensures e < |p| ==> p[e] != 42 && p[e] != 63
    decreases |p| - i
  {
    if i < |p| && (p[i] == 42 || p[i] == 63) then RunEnd(p, i + 1) else i
  }

  // The number of star groups in p[i..]: maximal runs of stars and question marks that begin with a star.
  function Groups(p: cstring, i: nat): nat
    requires i <= |p|
    decreases |p| - i
  {
    if i == |p| then 0
    else if p[i] == 42 then 1 + Groups(p, RunEnd(p, i + 1))
    else Groups(p, TokenAt(p, i).1)
  }

  // Some suffix of s is in the language of p[i..].
  ghost predicate SuffixMatches(p: cstring, i: nat, s: seq<byte>)
    requires i <= |p|
  {
    exists m :: 0 <= m <= |s| && Matches(p, i, s[m..])
  }

  // The regrouping of stars and question marks keeps the meaning.
  lemma StarThenStar(p: cstring, i: nat, s: seq<byte>)
    requires i < |p| && p[i] == 42
    ensures SuffixMatches(p, i, s) <==> SuffixMatches(p, i + 1, s)
  {
    if SuffixMatches(p, i, s) {
      var m :| 0 <= m <= |s| && Matches(p, i, s[m..]);
      var k :| 0 <= k <= |s[m..]| && Matches(p, i + 1, s[m..][k..]);
      assert s[m..][k..] == s[m + k..];
    }
    if SuffixMatches(p, i + 1, s) {
      assert s[0..] == s;
      assert Matches(p, i, s[0..]);
    }
  }

  lemma StarThenAny(p: cstring, i: nat, s: seq<byte>)
    requires i < |p| && p[i] == 63
    ensures SuffixMatches(p, i, s) <==> s != [] && SuffixMatches(p, i + 1, s[1..])
  {
    if SuffixMatches(p, i, s) {
      var m :| 0 <= m <= |s| && Matches(p, i, s[m..]);
      assert s[m..][1..] == s[1..][m..];
    }
    if s != [] && SuffixMatches(p, i + 1, s[1..]) {
      var m :| 0 <= m <= |s[1..]| && Matches(p, i + 1, s[1..][m..]);
      assert s[m..][1..] == s[1..][m..];
      assert Matches(p, i, s[m..]);
    }
  }

  // At the end of the pattern the whole rest is taken.
  lemma StarThenEnd(p: cstring, s: seq<byte>)
    ensures SuffixMatches(p, |p|, s)
  {
    assert Matches(p, |p|, s[|s|..]);
  }

  lemma StarMeans(p: cstring, i: nat, s: seq<byte>)
    requires i < |p| && p[i] == 42
    ensures Matches(p, i, s) <==> SuffixMatches(p, i + 1, s)
    ensures Groups(p, i) == 1 + Groups(p, RunEnd(p, i + 1))
  {
  }

  // Every token but the star takes exactly one character.
  lemma TokenMeans(p: cstring, i: nat, s: seq<byte>, j: nat)
    requires i < |p| && p[i] != 42 && j <= |s|
    ensures var (token, next) := TokenAt(p, i);
      && (Matches(p, i, s[j..]) <==> j < |s| && TokenTakes(token, s[j]) && Matches(p, next, s[j + 1..]))
      && Groups(p, i) == Groups(p, next)
  {
    if j < |s| {
      assert s[j..][1..] == s[j + 1..];
    }
  }

  // ---- the number of calls ----

  // At most this many invocations with k stars left and n characters to go.
  function Calls(k: nat, n: nat): nat {
    if k == 0 then 1 else 1 + n * Calls(k - 1, n)
  }

  lemma {:induction false} CallsGrow(k: nat, m: nat, n: nat)
    requires m <= n
    ensures Calls(k, m) <= Calls(k, n)
  {
    if k > 0 {
      CallsGrow(k - 1, m, n);
      Product(m, n, Calls(k - 1, m), Calls(k - 1, n));
    }
  }

  lemma Product(a: nat, b: nat, c: nat, d: nat)
    requires a <= b && c <= d
    ensures a * c <= b * d
  {
    assert a * c <= b * c <= b * d;
  }

  // ---- the matcher ----

  // loop: p and s start at i and j. `calls` counts the invocations.
  method Loop(p: cstring, i: nat, s: cstring, j: nat, maxstars: nat) returns (matched: bool, ghost calls: nat)
    requires i <= |p| && j <= |s|
    ensures matched <==> Matches(p, i, s[j..]) && Groups(p, i) <= maxstars
    ensures calls <= Calls(maxstars, |s| - j)
    decreases maxstars, 1
  {
    hide Matches, Groups, SetAt, Calls, Accepts;
    var charset := new byte[SIZE];
    var pi, si := i, j;
    calls := 1;
    CallsLeast(maxstars, |s| - j);
    while true
      invariant i <= pi <= |p| && j <= si <= |s|
      invariant Matches(p, i, s[j..]) && Groups(p, i) <= maxstars <==>
                Matches(p, pi, s[si..]) && Groups(p, pi) <= maxstars
      decreases |p| - pi
    {
      EndMeans(p, s, si);
      if pi < |p| && p[pi] != 42 {
        TokenMeans(p, pi, s, si);
      }
      var c := At(p, pi);
      if c == 42 {
        StarMeans(p, pi, s[si..]);
        if maxstars == 0 {
          return false, calls;
        }
        matched, calls := StarGroup(p, pi, s, si, maxstars);
        CallsGrow(maxstars, |s| - si, |s| - j);
        return;
      } else if c == 63 {
        if At(s, si) == 0 {
          return false, calls;
        }
        si, pi := si + 1, pi + 1;
      } else if c == 0 {
        return At(s, si) == 0, calls;
      } else if c == 92 {
        if At(p, pi + 1) != 0 {
          pi := pi + 1;
        }
        if At(s, si) != At(p, pi) {
          return false, calls;
        }
        si, pi := si + 1, pi + 1;
      } else if c == 91 {
        var ok, close;
        ghost var marks;
        ok, close, marks := SetCharset(p, pi + 1, charset);
        if !ok {
          return false, calls;
        }
        if At(s, si) == 0 {
          return false, calls;
        }
        var found := Test(charset, At(s, si), marks);
        if !found {
          return false, calls;
        }
        pi, si := close + 1, si + 1;
      } else {
        if At(p, pi) != At(s, si) {
          return false, calls;
        }
        pi, si := pi + 1, si + 1;
      }
    }
  }

  lemma EndMeans(p: cstring, s: seq<byte>, j: nat)
    requires j <= |s|
    ensures Matches(p, |p|, s[j..]) <==> j == |s|
    ensures Groups(p, |p|) == 0
  {
  }

  lemma CallsLeast(k: nat, n: nat)
    ensures Calls(k, n) >= 1
  {
  }

  // The star case of loop: p[i] is a star.
  method StarGroup(p: cstring, i: nat, s: cstring, j: nat, maxstars: nat) returns (matched: bool, ghost calls: nat)
    requires i < |p| && p[i] == 42 && j <= |s| && maxstars > 0
    ensures matched <==> Matches(p, i, s[j..]) && Groups(p, i) <= maxstars
    ensures calls <= Calls(maxstars, |s| - j)
    decreases maxstars, 0
  {
    hide Matches, Groups, SuffixMatches, Calls, Spent;
    calls := 1;
    CallsLeast(maxstars, |s| - j);
    var skip := SkipGroup(p, i, s, j);
    match skip
    case AtEnd =>
      return true, calls;
    case TooShort =>
      return false, calls;
    case Rest(q, t) =>
      SpentNone(maxstars, |s| - j);
      var u := t;
      while At(s, u) != 0
        invariant t <= u <= |s|
        invariant forall m {:trigger s[m..]} :: t <= m < u ==> !(Matches(p, q, s[m..]) && Groups(p, q) <= maxstars - 1)
        invariant calls <= Spent(maxstars, |s| - j, u - t)
        decreases |s| - u
      {
        var more;
        ghost var n;
        more, n := Loop(p, q, s, u, maxstars - 1);
        calls := calls + n;
        SpentStep(maxstars, |s| - j, u - t, |s| - u);
        if more {
          SuffixFound(p, q, s, t, u);
          return true, calls;
        }
        u := u + 1;
      }
      SpentMost(maxstars, |s| - j, u - t);
      SuffixAbsent(p, q, s, t);
      return false, calls;
  }

  // The invocations after `done` suffixes of a string of length n were tried.
  function Spent(k: nat, n: nat, done: nat): nat
    requires k > 0
  {
    1 + done * Calls(k - 1, n)
  }

  lemma SpentNone(k: nat, n: nat)
    requires k > 0
    ensures Spent(k, n, 0) == 1
  {
  }

  lemma SpentStep(k: nat, n: nat, done: nat, left: nat)
    requires k > 0 && done + left <= n && left > 0
    ensures Spent(k, n, done) + Calls(k - 1, left) <= Spent(k, n, done + 1) <= Calls(k, n)
  {
    hide Calls;
    CallsGrow(k - 1, left, n);
    SpentMost(k, n, done + 1);
    assert (done + 1) * Calls(k - 1, n) == done * Calls(k - 1, n) + Calls(k - 1, n);
  }

  lemma SpentMost(k: nat, n: nat, done: nat)
    requires k > 0 && done <= n
    ensures Spent(k, n, done) <= Calls(k, n)
  {
    Product(done, n, Calls(k - 1, n), Calls(k - 1, n));
  }

  lemma SuffixFound(p: cstring, q: nat, s: seq<byte>, t: nat, u: nat)
    requires q <= |p| && t <= u <= |s| && Matches(p, q, s[u..])
    ensures SuffixMatches(p, q, s[t..])
  {
    assert s[t..][u - t..] == s[u..];
  }

  // Behind a star group stands a token that takes a character, so the empty suffix is none.
  lemma SuffixAbsent(p: cstring, q: nat, s: seq<byte>, t: nat)
    requires q < |p| && p[q] != 42 && t <= |s|
    ensures SuffixMatches(p, q, s[t..]) ==> exists m {:trigger s[m..]} :: t <= m < |s| && Matches(p, q, s[m..])
  {
    hide Matches;
    TokenTakesOne(p, q);
    if SuffixMatches(p, q, s[t..]) {
      var m :| 0 <= m <= |s[t..]| && Matches(p, q, s[t..][m..]);
      assert s[t..][m..] == s[t + m..];
      assert |s[t + m..]| == |s| - t - m;
    }
  }

  lemma TokenTakesOne(p: cstring, q: nat)
    requires q < |p| && p[q] != 42
    ensures !Matches(p, q, [])
  {
    hide SetAt;
  }

  datatype Skip = AtEnd | TooShort | Rest(q: nat, t: nat)

  // The regrouping loop: walks over the group at p[i] and takes a character for each question mark.
  method SkipGroup(p: cstring, i: nat, s: cstring, j: nat) returns (r: Skip)
    requires i < |p| && p[i] == 42 && j <= |s|
    ensures r == AtEnd ==> Matches(p, i, s[j..]) && Groups(p, i) == 1
    ensures r == TooShort ==> !Matches(p, i, s[j..])
    ensures r.Rest? ==>
      && r.q < |p| && p[r.q] != 42 && j <= r.t <= |s|
      && (Matches(p, i, s[j..]) <==> SuffixMatches(p, r.q, s[r.t..]))
      && Groups(p, i) == 1 + Groups(p, r.q)
  {
    hide Matches, Groups, SuffixMatches;
    StarMeans(p, i, s[j..]);
    var q, t := i, j;
    while true
      invariant i <= q < |p| && j <= t <= |s|
      invariant Matches(p, i, s[j..]) <==> SuffixMatches(p, q + 1, s[t..])
      invariant Groups(p, i) == 1 + Groups(p, RunEnd(p, q + 1))
      decreases |p| - q
    {
      q := q + 1;
      if At(p, q) == 0 {
        StarThenEnd(p, s[t..]);
        EndMeans(p, s, t);
        return AtEnd;
      }
      if At(p, q) == 63 {
        StarThenAny(p, q, s[t..]);
        if At(s, t) == 0 {
          return TooShort;
        }
        assert s[t..][1..] == s[t + 1..];
        t := t + 1;
      } else if At(p, q) != 42 {
        return Rest(q, t);
      } else {
        StarThenStar(p, q, s[t..]);
      }
    }
  }

  datatype Code = Match | NoMatch | Fail

  // Curl_fnmatch: the language of the pattern, as far as two star groups go, in a number of
  // invocations quadratic in the length of the string.
  method CurlFnmatch(pattern: Option<cstring>, s: Option<cstring>) returns (code: Code, ghost calls: nat)
    ensures code == Fail <==> pattern == None || s == None
    ensures pattern.Some? && s.Some? ==>
      && (code == Match <==> Matches(pattern.value, 0, s.value) && Groups(pattern.value, 0) <= 2)
      && var n := |s.value|; calls <= 1 + n + n * n
  {
    if pattern == None || s == None {
      return Fail, 0;
    }
    var matched;
    matched, calls := Loop(pattern.value, 0, s.value, 0, 2);
    assert s.value[0..] == s.value;
    CallsTwo(|s.value|);
    return if matched then Match else NoMatch, calls;
  }

  lemma CallsTwo(n: nat)
    ensures Calls(2, n) == 1 + n + n * n
  {
    calc {
      Calls(2, n);
      1 + n * Calls(1, n);
      { assert Calls(1, n) == 1 + n * Calls(0, n); }
      1 + n * (1 + n);
      1 + n + n * n;
    }
  }

  // The text of one class as a set.
  lemma OneClass(p: cstring, word: seq<byte>, slot: nat, c: byte)
    requires p == [91, 91, 58] + word + [58, 93, 93] && AllLower(word) && Lookup(word) == Some(slot)
    ensures Matches(p, 0, [c]) <==> InSlot(slot, c)
  {
    hide ParseSet, Lookup, AllLower, InSlot;
    assert p[3..3 + |word|] == word;
    ClassParsed(p, 1, word, slot, false, {});
    SetClosed(p, 5 + |word|, {} + {slot});
    assert {} + {slot} == {slot};
    assert TokenAt(p, 0) == (Chars({slot}), |p|);
    assert [c][1..] == [] && Matches(p, |p|, []);
    AcceptsFirst({slot}, c);
    assert slot in {slot} && FirstClass({slot}) == slot;
  }

  // What [[:name:]] stands for, for each of the ten names.
  lemma NamedClasses(p: cstring, word: seq<byte>, c: byte)
    requires p == [91, 91, 58] + word + [58, 93, 93]
    ensures var upper, lower, digit := 65 <= c <= 90, 97 <= c <= 122, 48 <= c <= 57;
      && (word == [117, 112, 112, 101, 114] ==> (Matches(p, 0, [c]) <==> upper))                     // upper
      && (word == [108, 111, 119, 101, 114] ==> (Matches(p, 0, [c]) <==> lower))                     // lower
      && (word == [100, 105, 103, 105, 116] ==> (Matches(p, 0, [c]) <==> digit))                     // digit
      && (word == [97, 108, 112, 104, 97] ==> (Matches(p, 0, [c]) <==> upper || lower))              // alpha
      && (word == [97, 108, 110, 117, 109] ==> (Matches(p, 0, [c]) <==> upper || lower || digit))    // alnum
      && (word == [120, 100, 105, 103, 105, 116] ==>                                                 // xdigit
            (Matches(p, 0, [c]) <==> digit || 65 <= c <= 70 || 97 <= c <= 102))
      && (word == [112, 114, 105, 110, 116] ==>                                                      // print
            (Matches(p, 0, [c]) <==> 9 <= c <= 13 || 32 <= c <= 126))
      && (word == [103, 114, 97, 112, 104] ==>                                                       // graph
            (Matches(p, 0, [c]) <==> 9 <= c <= 13 || 33 <= c <= 126))
      && (word == [115, 112, 97, 99, 101] ==> (Matches(p, 0, [c]) <==> c == 32 || c == 9))           // space
      && (word == [98, 108, 97, 110, 107] ==> (Matches(p, 0, [c]) <==> c == 32 || c == 9))           // blank
  {
    hide Matches;
    if Lookup(word).Some? {
      OneClass(p, word, Lookup(word).value, c);
    }
  }

  // So the pattern [[:alpha:][:digit:]] does not match the string "5", although five is a digit.
  lemma AlphaDigitNoMatch(p: cstring)
    requires p == [91, 91, 58] + ALPHA_WORD + [58, 93, 91, 58] + DIGIT_WORD + [58, 93, 93]
    ensures !Matches(p, 0, [53]) && IsDigit(53)
  {
    AlphaDigitTurnsDownFive(p);
    hide SetAt, Accepts, Union;
    assert TokenAt(p, 0) == (Chars({ALPHA, DIGIT}), |p|);
  }
}
