// curl-8.13.0/lib/cookie.c: lines of a cookie file, as get_netscape_format writes them and
// parse_netscape reads them.

module CookieFile {
  import opened Common
  import opened StrParse
  import opened CookieDomain
  import opened CookieJar

  const TAB: byte := 9
  const SLASH: byte := 47
  const HASH: byte := 35
  const QUOTE: byte := 34

  const TRUE_WORD: seq<byte> := [84, 82, 85, 69]                              // TRUE
  const FALSE_WORD: seq<byte> := [70, 65, 76, 83, 69]                         // FALSE
  const HTTP_ONLY: seq<byte> := [35, 72, 116, 116, 112, 79, 110, 108, 121, 95] // #HttpOnly_
  const SECURE_NAME: seq<byte> := [95, 95, 83, 101, 99, 117, 114, 101, 45]    // __Secure-
  const HOST_NAME: seq<byte> := [95, 95, 72, 111, 115, 116, 45]               // __Host-
  const UNKNOWN: seq<byte> := [117, 110, 107, 110, 111, 119, 110]             // unknown

  // ---- numbers ----

  function Decimal(n: nat): seq<byte> {
    if n < 10 then [48 + n as byte] else Decimal(n / 10) + [48 + (n % 10) as byte]
  }

  function SignedDecimal(n: int): seq<byte> {
    if n < 0 then [45] + Decimal(-n) else Decimal(n)
  }

  lemma {:induction false} NumberFromDecimal(n: nat, t: seq<byte>)
    requires n <= FOREVER
    ensures NumberFrom(Decimal(n) + t, 0) == NumberFrom(t, n)
    ensures Decimal(n) != [] && IsDigit(Decimal(n)[0]) && forall i :: 0 <= i < |Decimal(n)| ==> IsDigit(Decimal(n)[i])
  {
    if n < 10 {
      assert ([48 + n as byte] + t)[1..] == t;
    } else {
      var d := [48 + (n % 10) as byte];
      NumberFromDecimal(n / 10, d + t);
      assert Decimal(n) + t == Decimal(n / 10) + (d + t);
      assert (d + t)[1..] == t;
    }
  }

  lemma NumberSigned(n: int)
    requires n <= FOREVER
    ensures Number(SignedDecimal(n)) == if n >= 0 then Some(n) else None
    ensures Clean(SignedDecimal(n))
  {
    if n >= 0 {
      NumberFromDecimal(n, []);
      assert Decimal(n) + [] == Decimal(n);
    } else {
      DecimalClean(-n);
    }
  }

  lemma {:induction false} DecimalClean(n: nat)
    ensures Clean(Decimal(n))
  {
    if n >= 10 {
      DecimalClean(n / 10);
    }
  }

  // ---- fields ----

  // Where strcspn(s, "\t\r\n") stops.
  predicate Stops(c: byte) {
    c == 0 || c == TAB || c == 10 || c == 13
  }

  ghost predicate Clean(s: seq<byte>) {
    forall i :: 0 <= i < |s| ==> !Stops(s[i])
  }

  function Span(s: seq<byte>): (n: nat)
    ensures n <= |s| && Clean(s[..n]) && (n < |s| ==> Stops(s[n]))
  {
    if s == [] || Stops(s[0]) then 0
    else
      var n := 1 + Span(s[1..]);
      assert s[..n] == [s[0]] + s[1..][..n - 1];
      n
  }

  // What is left of a line behind its first TAB.
  function Tail(s: seq<byte>): (t: Option<seq<byte>>)
    ensures t.Some? ==> |t.value| < |s|
  {
    var n := Span(s);
    if n < |s| && s[n] == TAB then Some(s[n + 1..]) else None
  }

  // The fields of a line: TABs separate them, the line ends at CR, LF or NUL.
  function Fields(s: seq<byte>): (fs: seq<seq<byte>>)
    ensures fs != []
    decreases |s|
  {
    match Tail(s)
    case None => [s[..Span(s)]]
    case Some(t) => [s[..Span(s)]] + Fields(t)
  }

  function Join(fs: seq<seq<byte>>): seq<byte>
    requires fs != []
  {
    if |fs| == 1 then fs[0] else fs[0] + [TAB] + Join(fs[1..])
  }

  lemma {:induction false} SpanAt(s: seq<byte>, n: nat)
    requires n <= |s| && Clean(s[..n]) && (n < |s| ==> Stops(s[n]))
    ensures Span(s) == n
  {
    if n > 0 {
      assert s[0] == s[..n][0];
      assert s[..n][1..] == s[1..][..n - 1];
      SpanAt(s[1..], n - 1);
    }
  }

  // Reading a line gives the fields it was made of.
  lemma {:induction false} FieldsOfJoin(fs: seq<seq<byte>>)
    requires fs != [] && forall i :: 0 <= i < |fs| ==> Clean(fs[i])
    ensures Fields(Join(fs)) == fs
  {
    var s, n := Join(fs), |fs[0]|;
    assert s[..n] == fs[0];
    SpanAt(s, n);
    if |fs| > 1 {
      assert s[n + 1..] == Join(fs[1..]);
      FieldsOfJoin(fs[1..]);
    }
  }

  // ---- single fields ----

  // sanitize_cookie_path
  function Sanitize(path: seq<byte>): seq<byte> {
    var p := if path != [] && path[0] == QUOTE then path[1..] else path;
    var q := if p != [] && p[|p| - 1] == QUOTE then p[..|p| - 1] else p;
    if p == [] || p[0] != SLASH then [SLASH]
    else if q != [] && q[|q| - 1] == SLASH then q[..|q| - 1]
    else q
  }

  // A path in quotes or not: the quotes go, and so does one slash at the end.
  lemma SanitizedQuoted(open: seq<byte>, body: seq<byte>, close: seq<byte>)
    requires (open == [] || open == [34]) && (close == [] || close == [34])
    requires body != [] && body[0] == 47 && body[|body| - 1] != 34
    ensures body[|body| - 1] != 47 ==> Sanitize(open + body + close) == body
    ensures body[|body| - 1] == 47 ==> Sanitize(open + body + close) == body[..|body| - 1]
  {
    var path := open + body + close;
    assert open == [34] ==> path[1..] == body + close;
    assert (body + close)[..|body|] == body;
  }

  // What does not start with a slash, quoted or not, becomes the path of the whole host.
  lemma SanitizedRelative(path: seq<byte>)
    requires path == [] || path[0] != 47
    requires |path| > 1 && path[0] == 34 ==> path[1] != 47
    ensures Sanitize(path) == [47]
  {
  }

  // A sanitized path is empty for a single slash only, quoted or not.
  lemma SanitizedEmpty(p: seq<byte>)
    ensures Sanitize(p) == [] <==>
      p == [SLASH] || p == [QUOTE, SLASH] || p == [SLASH, QUOTE] || p == [QUOTE, SLASH, QUOTE]
  {
  }

  // A secure cookie for the path "/", and the same for "/a" without secure from an insecure origin: whether
  // the second is refused depends on the byte behind the first one's sanitized path.
  lemma OutOfBoundsDecides()
    ensures var c := Named([97], 1).(path := Some([SLASH]), spath := Some(Sanitize([SLASH])), secure := true);
      var co := Named([97], 2).(path := Some([SLASH, 97]), spath := Some(Sanitize([SLASH, 97])));
      !Refused([c], co, false, true) && Refused([c], co, false, false)
  {
    var c := Named([97], 1).(path := Some([SLASH]), spath := Some(Sanitize([SLASH])), secure := true);
    var co := Named([97], 2).(path := Some([SLASH, 97]), spath := Some(Sanitize([SLASH, 97])));
    SanitizedEmpty([SLASH]);
    assert co.spath == Some([SLASH, 97]);
    OverlaysDepends(c, co, false);
    assert c in [c] && Overlays(c, co, false, false);
  }

  // strncasecompare(f, "TRUE", |f|): true of the empty field as well
  predicate IsTrue(f: seq<byte>) {
    |f| <= |TRUE_WORD| && CiEq(f, TRUE_WORD[..|f|])
  }

  // So it is true of every beginning of the word, in any case of its letters.
  lemma TrueBeginnings(f: seq<byte>)
    ensures IsTrue(f) <==> exists rest: seq<byte> :: CiEq(f + rest, [84, 82, 85, 69])
  {
    if IsTrue(f) {
      assert CiEq(f + TRUE_WORD[|f|..], TRUE_WORD);
    }
    if rest: seq<byte> :| CiEq(f + rest, TRUE_WORD) {
      assert f == (f + rest)[..|f|];
    }
  }

  // A path field that looks like a boolean option: a beginning of TRUE or FALSE.
  predicate LooksBoolean(f: seq<byte>) {
    f <= TRUE_WORD || f <= FALSE_WORD
  }

  function NoDot(f: seq<byte>): seq<byte> {
    if f != [] && f[0] == DOT then f[1..] else f
  }

  // ---- writing ----

  function Word(b: bool): seq<byte> {
    if b then TRUE_WORD else FALSE_WORD
  }

  // The dot in front of a domain that allows tail matching.
  function Dot(co: Cookie): seq<byte> {
    if co.tailmatch && co.domain.Some? && !StartsWith(co.domain.value, DOT) then [DOT] else []
  }

  predicate StartsWith(s: seq<byte>, c: byte) {
    s != [] && s[0] == c
  }

  // get_netscape_format
  function Print(co: Cookie): seq<byte> {
    (if co.httponly then HTTP_ONLY else [])
    + Dot(co)
    + (if co.domain.Some? then co.domain.value else UNKNOWN) + [TAB]
    + Word(co.tailmatch) + [TAB]
    + (if co.path.Some? then co.path.value else [SLASH]) + [TAB]
    + Word(co.secure) + [TAB]
    + SignedDecimal(co.expires) + [TAB]
    + co.name + [TAB]
    + co.value
  }

  // ---- reading ----

  datatype Parsed = Good(co: Cookie) | Comment | BadSecure | Range | WrongFields

  // The fields, with a path made up where it was left out.
  function WithPath(fs: seq<seq<byte>>): seq<seq<byte>> {
    if |fs| > 2 && LooksBoolean(fs[2]) then fs[..2] + [[SLASH]] + fs[2..] else fs
  }

  predicate MadeUp(fs: seq<seq<byte>>) {
    |fs| > 2 && LooksBoolean(fs[2])
  }

  // What the fields seen so far make of the cookie.
  function Filled(fs: seq<seq<byte>>, httponly: bool): Cookie {
    FilledFrom(WithPath(fs), MadeUp(fs), httponly)
  }

  function FilledFrom(g: seq<seq<byte>>, madeUp: bool, httponly: bool): Cookie {
    var n := |g|;
    Cookie(
      if n > 5 then g[5] else [],
      if n > 6 then g[6] else [],
      if n > 2 then Some(g[2]) else None,
      if n > 2 then Some(if madeUp then [SLASH] else Sanitize(g[2])) else None,
      if n > 0 then Some(NoDot(g[0])) else None,
      if n > 4 && Number(g[4]).Some? then Number(g[4]).value else 0,
      0,
      n > 1 && IsTrue(g[1]),
      n > 3 && IsTrue(g[3]),
      false,
      httponly,
      n > 5 && CiEqN(SECURE_NAME, g[5], 9),
      n > 5 && !CiEqN(SECURE_NAME, g[5], 9) && CiEqN(HOST_NAME, g[5], 7))
  }

  predicate InsecureTrue(fs: seq<seq<byte>>, secure: bool) {
    var g := WithPath(fs); |g| > 3 && IsTrue(g[3]) && !secure
  }

  predicate BadExpiry(fs: seq<seq<byte>>) {
    var g := WithPath(fs); |g| > 4 && Number(g[4]) == None
  }

  function FromFields(fs: seq<seq<byte>>, httponly: bool, secure: bool): Parsed {
    var g := WithPath(fs);
    if InsecureTrue(fs, secure) then BadSecure
    else if BadExpiry(fs) then Range
    else if |g| != 6 && |g| != 7 then WrongFields
    else Good(Filled(fs, httponly))
  }

  // What a line means; `secure` covers a running cookie engine as well.
  function Meaning(line: seq<byte>, secure: bool): Parsed {
    var httponly := HTTP_ONLY <= line;
    var body := if httponly then line[10..] else line;
    if body != [] && body[0] == HASH then Comment
    else FromFields(Fields(body), httponly, secure)
  }

  const BLANK: Cookie := Cookie([], [], None, None, None, 0, 0, false, false, false, false, false, false)

  // parse_netscape
  method ParseNetscape(line: seq<byte>, secure: bool, running: bool) returns (rc: Parsed)
    ensures rc == Meaning(line, secure || running)
  {
    hide FromFields;
    if HTTP_ONLY <= line {
      if |line| > 10 && line[10] == HASH {
        return Comment;
      }
      rc := ParseFields(BLANK.(httponly := true), line[10..], secure || running);
    } else {
      if line != [] && line[0] == HASH {
        return Comment;
      }
      rc := ParseFields(BLANK, line, secure || running);
    }
  }

  // The loop over the fields and the checks after it.
  method ParseFields(blank: Cookie, line: seq<byte>, secure: bool) returns (rc: Parsed)
    requires blank == BLANK.(httponly := blank.httponly)
    ensures rc == FromFields(Fields(line), blank.httponly, secure)
  {
    hide Fields, Span, Tail, WithPath, Filled, InsecureTrue, BadExpiry;
    ghost var done: seq<seq<byte>>, httponly := [], blank.httponly;
    FilledNone(httponly, secure);
    var co, fields, next := blank, 0, Some(line);
    while next.Some?
      invariant Fields(line) == done + if next.Some? then Fields(next.value) else []
      invariant fields == |WithPath(done)| && co == Filled(done, httponly)
      invariant !InsecureTrue(done, secure) && !BadExpiry(done)
      decreases if next.Some? then 1 + |next.value| else 0
    {
      var ptr := next.value;
      var len := Span(ptr);
      FieldsStep(ptr);
      next := Tail(ptr);
      ghost var rest := if next.Some? then Fields(next.value) else [];
      assert Fields(line) == (done + [ptr[..len]]) + rest;
      ErrorsStay(done + [ptr[..len]], rest, secure);
      rc, co, fields := OneField(done, httponly, co, fields, ptr[..len], secure);
      done := done + [ptr[..len]];
      if !rc.Good? {
        return;
      }
    }
    assert done == Fields(line);
    FilledSize(done, httponly);
    if fields == 6 {
      co := co.(value := []);
      fields := fields + 1;
    }
    if fields != 7 {
      return WrongFields;
    }
    return Good(co);
  }

  // The switch of parse_netscape, counting the field; rc is Good while the line may be fine.
  method OneField(
      ghost done: seq<seq<byte>>, ghost httponly: bool, co0: Cookie, fields0: nat, f: seq<byte>, secure: bool)
    returns (rc: Parsed, co: Cookie, fields: nat)
    requires fields0 == |WithPath(done)| && co0 == Filled(done, httponly)
    requires !InsecureTrue(done, secure) && !BadExpiry(done)
    ensures rc ==
      if InsecureTrue(done + [f], secure) then BadSecure else if BadExpiry(done + [f]) then Range else Good(co)
    ensures rc.Good? ==> fields == |WithPath(done + [f])| && co == Filled(done + [f], httponly)
  {
    hide Number, Sanitize, IsTrue, CiEqN, LooksBoolean, WithPath, MadeUp, Filled, InsecureTrue, BadExpiry;
    WithPathStep(done, f);
    ErrorsAt(done, f, secure);
    FilledAt(done, f, httponly);
    co, fields := co0, fields0;
    match fields {
    case 0 =>
      co := co.(domain := Some(NoDot(f)));
    case 1 =>
      co := co.(tailmatch := IsTrue(f));
    case 2 =>
      if !LooksBoolean(f) {
        co := co.(path := Some(f), spath := Some(Sanitize(f)));
      } else {
        co := co.(path := Some([SLASH]), spath := Some([SLASH]));
        fields := fields + 1;
        co := co.(secure := IsTrue(f));
        if IsTrue(f) && !secure {
          return BadSecure, co, fields;
        }
      }
    case 3 =>
      co := co.(secure := IsTrue(f));
      if IsTrue(f) && !secure {
        return BadSecure, co, fields;
      }
    case 4 =>
      var n := Number(f);
      if n == None {
        return Range, co, fields;
      }
      co := co.(expires := n.value);
    case 5 =>
      co := co.(name := f);
      if CiEqN(SECURE_NAME, f, 9) {
        co := co.(prefixSecure := true);
      } else if CiEqN(HOST_NAME, f, 7) {
        co := co.(prefixHost := true);
      }
    case 6 =>
      co := co.(value := f);
    case _ =>
    }
    rc, fields := Good(co), fields + 1;
  }

  // The cookie after field n.
  function WithField(co: Cookie, n: nat, f: seq<byte>): Cookie {
    match n
    case 0 => co.(domain := Some(NoDot(f)))
    case 1 => co.(tailmatch := IsTrue(f))
    case 2 =>
      if LooksBoolean(f) then co.(path := Some([SLASH]), spath := Some([SLASH]), secure := IsTrue(f))
      else co.(path := Some(f), spath := Some(Sanitize(f)))
    case 3 => co.(secure := IsTrue(f))
    case 4 => co.(expires := if Number(f).Some? then Number(f).value else 0)
    case 5 =>
      co.(name := f, prefixSecure := CiEqN(SECURE_NAME, f, 9),
          prefixHost := !CiEqN(SECURE_NAME, f, 9) && CiEqN(HOST_NAME, f, 7))
    case 6 => co.(value := f)
    case _ => co
  }

  lemma FilledAt(done: seq<seq<byte>>, f: seq<byte>, httponly: bool)
    ensures Filled(done + [f], httponly) == WithField(Filled(done, httponly), |WithPath(done)|, f)
    ensures |WithPath(done)| <= 5 ==>
      Filled(done, httponly).name == [] && !Filled(done, httponly).prefixSecure && !Filled(done, httponly).prefixHost
  {
    hide Number, Sanitize, IsTrue, CiEqN, LooksBoolean, NoDot, FilledFrom, WithPath;
    WithPathStep(done, f);
    var g := WithPath(done);
    MadeUpSize(done);
    FilledShort(g, MadeUp(done), httponly);
    if |g| == 2 && LooksBoolean(f) {
      MadeUpNext(g, f, httponly);
    } else {
      FilledNext(g, MadeUp(done), f, httponly);
    }
  }

  lemma MadeUpSize(fs: seq<seq<byte>>)
    ensures MadeUp(fs) ==> |WithPath(fs)| >= 4
  {
  }

  lemma FilledShort(g: seq<seq<byte>>, madeUp: bool, httponly: bool)
    ensures |g| <= 5 ==>
      var co := FilledFrom(g, madeUp, httponly); co.name == [] && !co.prefixSecure && !co.prefixHost
  {
  }

  lemma FilledNext(g: seq<seq<byte>>, madeUp: bool, f: seq<byte>, httponly: bool)
    requires (madeUp ==> |g| >= 4) && !(|g| == 2 && LooksBoolean(f))
    ensures FilledFrom(g + [f], madeUp, httponly) == WithField(FilledFrom(g, madeUp, httponly), |g|, f)
  {
    hide Number, Sanitize, IsTrue, CiEqN, LooksBoolean, NoDot;
  }

  lemma MadeUpNext(g: seq<seq<byte>>, f: seq<byte>, httponly: bool)
    requires |g| == 2 && LooksBoolean(f)
    ensures FilledFrom(g + [[SLASH], f], true, httponly) == WithField(FilledFrom(g, false, httponly), 2, f)
  {
    hide Number, Sanitize, IsTrue, CiEqN, LooksBoolean, NoDot;
  }

  lemma ErrorsAt(done: seq<seq<byte>>, f: seq<byte>, secure: bool)
    requires !InsecureTrue(done, secure) && !BadExpiry(done)
    ensures var n := |WithPath(done)|;
      && (InsecureTrue(done + [f], secure) <==> (n == 3 || (n == 2 && LooksBoolean(f))) && IsTrue(f) && !secure)
      && (BadExpiry(done + [f]) <==> n == 4 && Number(f) == None)
  {
    hide Number, IsTrue, LooksBoolean;
    WithPathStep(done, f);
  }

  lemma WithPathStep(done: seq<seq<byte>>, f: seq<byte>)
    ensures WithPath(done + [f]) ==
      if |done| == 2 && LooksBoolean(f) then WithPath(done) + [[SLASH], f] else WithPath(done) + [f]
    ensures |WithPath(done)| == |done| + if MadeUp(done) then 1 else 0
    ensures MadeUp(done + [f]) <==> MadeUp(done) || (|done| == 2 && LooksBoolean(f))
    ensures var n := |WithPath(done)|; |WithPath(done + [f])| == n + if n == 2 && LooksBoolean(f) then 2 else 1
  {
    hide LooksBoolean;
  }

  lemma FieldsStep(s: seq<byte>)
    ensures Fields(s) == [s[..Span(s)]] + if Tail(s).Some? then Fields(Tail(s).value) else []
  {
    hide Span, Tail;
  }

  lemma FilledNone(httponly: bool, secure: bool)
    ensures WithPath([]) == [] && Filled([], httponly) == BLANK.(httponly := httponly)
    ensures !InsecureTrue([], secure) && !BadExpiry([])
  {
  }

  lemma FilledSize(fs: seq<seq<byte>>, httponly: bool)
    ensures |WithPath(fs)| == 6 ==> Filled(fs, httponly).value == []
  {
  }

  // An error is there to stay.
  lemma ErrorsStay(done: seq<seq<byte>>, rest: seq<seq<byte>>, secure: bool)
    ensures InsecureTrue(done, secure) ==> InsecureTrue(done + rest, secure)
    ensures BadExpiry(done) ==> BadExpiry(done + rest)
    ensures BadExpiry(done) && InsecureTrue(done + rest, secure) ==> InsecureTrue(done, secure)
  {
  }

  // ---- the round trip ----

  ghost predicate CleanCookie(co: Cookie) {
    && Clean(co.name) && Clean(co.value)
    && (co.domain.Some? ==> Clean(co.domain.value)) && (co.path.Some? ==> Clean(co.path.value))
    && co.expires <= FOREVER
  }

  // What the file is to keep of a cookie.
  ghost predicate Restored(co: Cookie, p: Parsed) {
    && p.Good?
    && p.co.name == co.name && p.co.value == co.value && p.co.path == co.path && p.co.domain == co.domain
    && p.co.tailmatch == co.tailmatch && p.co.secure == co.secure && p.co.httponly == co.httponly
    && p.co.expires == co.expires
  }

  // The cookies a line of the file can hold.
  predicate Writable(co: Cookie) {
    && co.domain.Some? && !StartsWith(co.domain.value, DOT)
    && (co.tailmatch || !StartsWith(co.domain.value, HASH))
    && co.path.Some? && !LooksBoolean(co.path.value)
    && co.expires >= 0
  }

  // The fields of the line, the first one with its dot.
  function Written(co: Cookie): seq<seq<byte>> {
    [ Dot(co) + (if co.domain.Some? then co.domain.value else UNKNOWN),
      Word(co.tailmatch),
      if co.path.Some? then co.path.value else [SLASH],
      Word(co.secure),
      SignedDecimal(co.expires),
      co.name,
      co.value ]
  }

  lemma {:induction false} JoinSnoc(fs: seq<seq<byte>>, x: seq<byte>)
    requires fs != []
    ensures Join(fs + [x]) == Join(fs) + [TAB] + x
  {
    var all := fs + [x];
    assert Join(all) == all[0] + [TAB] + Join(all[1..]);
    if |fs| == 1 {
      assert all[1..] == [x];
    } else {
      assert all[1..] == fs[1..] + [x];
      JoinSnoc(fs[1..], x);
    }
  }

  lemma JoinedUpTo(h: seq<byte>, w: seq<seq<byte>>, k: nat)
    requires 0 < k < |w|
    ensures h + Join(w[..k + 1]) == h + Join(w[..k]) + [TAB] + w[k]
  {
    assert w[..k + 1] == w[..k] + [w[k]];
    JoinSnoc(w[..k], w[k]);
  }

  lemma JoinSeven(h: seq<byte>, dot: seq<byte>, w: seq<seq<byte>>, domain: seq<byte>)
    requires |w| == 7 && w[0] == dot + domain
    ensures h + dot + domain + [TAB] + w[1] + [TAB] + w[2] + [TAB] + w[3] + [TAB] + w[4] + [TAB] + w[5] + [TAB] + w[6]
         == h + Join(w)
  {
    hide Join;
    assert h + dot + domain == h + w[0];
    JoinOne(w);
    JoinedUpTo(h, w, 1);
    JoinedUpTo(h, w, 2);
    JoinedUpTo(h, w, 3);
    JoinedUpTo(h, w, 4);
    JoinedUpTo(h, w, 5);
    JoinedUpTo(h, w, 6);
    assert w[..7] == w;
  }

  lemma PrintJoins(co: Cookie)
    ensures Print(co) == (if co.httponly then HTTP_ONLY else []) + Join(Written(co))
  {
    hide SignedDecimal, Word, Join;
    var h, domain := if co.httponly then HTTP_ONLY else [], if co.domain.Some? then co.domain.value else UNKNOWN;
    JoinSeven(h, Dot(co), Written(co), domain);
  }

  lemma JoinOne(w: seq<seq<byte>>)
    requires w != []
    ensures Join(w[..1]) == w[0]
  {
  }

  lemma WordRead(b: bool)
    ensures IsTrue(Word(b)) == b && Clean(Word(b))
  {
    if !b {
      assert CiEq(FALSE_WORD, FALSE_WORD);
    }
  }

  lemma WrittenClean(co: Cookie)
    requires CleanCookie(co)
    ensures forall i :: 0 <= i < 7 ==> Clean(Written(co)[i])
  {
    hide SignedDecimal, Word, Number;
    NumberSigned(co.expires);
    WordRead(co.tailmatch);
    WordRead(co.secure);
  }

  lemma JoinStart(w: seq<seq<byte>>)
    requires |w| > 1
    ensures w[0] + [TAB] <= Join(w)
  {
    assert Join(w) == w[0] + [TAB] + Join(w[1..]);
  }

  // Unless it starts with a hash sign, the line is read as the fields it was made of.
  lemma PrintRead(co: Cookie)
    requires CleanCookie(co) && !StartsWith(Written(co)[0], HASH)
    ensures Meaning(Print(co), true) == FromFields(Written(co), co.httponly, true)
  {
    hide FromFields, Join, Print, Written, Fields;
    var w := Written(co);
    WrittenSize(co);
    PrintJoins(co);
    JoinStart(w);
    assert Join(w)[0] == (w[0] + [TAB])[0];
    WrittenClean(co);
    FieldsOfJoin(w);
    if co.httponly {
      assert Print(co)[10..] == Join(w);
    } else {
      assert Print(co) == Join(w);
    }
  }

  lemma WrittenSize(co: Cookie)
    ensures |Written(co)| == 7
  {
  }

  // Without tail matching, a domain that starts with a hash sign makes the line a comment or adds httponly.
  lemma HashLost(co: Cookie)
    requires StartsWith(Written(co)[0], HASH)
    ensures !Restored(co, Meaning(Print(co), true)) && !Writable(co)
  {
    hide Join, Fields, Print;
    var w := Written(co);
    PrintJoins(co);
    JoinStart(w);
    assert Join(w)[0] == (w[0] + [TAB])[0] == HASH;
    if co.httponly {
      assert Print(co)[10..] == Join(w);
    }
  }

  lemma FieldsRead(co: Cookie)
    requires CleanCookie(co) && !StartsWith(Written(co)[0], HASH)
    ensures Restored(co, FromFields(Written(co), co.httponly, true)) <==> Writable(co)
  {
    hide Number, SignedDecimal, Sanitize, Word, IsTrue;
    NumberSigned(co.expires);
    WordRead(co.tailmatch);
    WordRead(co.secure);
    var w := Written(co);
    if co.domain.Some? {
      assert ([DOT] + co.domain.value)[1..] == co.domain.value;
      assert [] + co.domain.value == co.domain.value;
    }
    if LooksBoolean(w[2]) {
      assert |WithPath(w)| == 8;
    } else {
      assert WithPath(w) == w;
      var c := Filled(w, co.httponly);
      assert c.domain == co.domain <==> co.domain.Some? && !StartsWith(co.domain.value, DOT);
      assert c.path == co.path <==> co.path.Some?;
    }
  }

  // Reading a written line restores a cookie with clean fields just when the line can hold it.
  lemma RoundTrip(co: Cookie)
    requires CleanCookie(co)
    ensures Restored(co, Meaning(Print(co), true)) <==> Writable(co)
  {
    hide Print, Meaning, Written, Writable, FromFields;
    WrittenSize(co);
    if StartsWith(Written(co)[0], HASH) {
      HashLost(co);
    } else {
      PrintRead(co);
      FieldsRead(co);
    }
  }

  // The cookie prefixes, in any case of their letters.
  lemma PrefixFlags(line: seq<byte>, secure: bool)
    ensures var p := Meaning(line, secure); p.Good? ==>
      && (p.co.prefixSecure <==>                       // __Secure-
            |p.co.name| >= 9 && CiEq(p.co.name[..9], [95, 95, 83, 101, 99, 117, 114, 101, 45]))
      && (p.co.prefixHost <==>                         // __Host-
            |p.co.name| >= 7 && CiEq(p.co.name[..7], [95, 95, 72, 111, 115, 116, 45]))
  {
    hide Fields, Number, Sanitize, IsTrue, LooksBoolean, Clean;
    var p := Meaning(line, secure);
    if p.Good? {
      var name := p.co.name;
      if |name| >= 9 {
        assert name[..7] == name[..9][..7];
        assert name[..9][2] == name[2];
      }
    }
  }

  // One line in full.
  lemma PrintedLine(co: Cookie)
    requires co.httponly && co.tailmatch && co.secure && co.expires == 10
    requires co.domain == Some([97, 46, 98]) && co.path == Some([47, 120]) && co.name == [110] && co.value == [118]
    ensures Print(co) ==
      [35, 72, 116, 116, 112, 79, 110, 108, 121, 95]                 // #HttpOnly_
      + [46, 97, 46, 98, 9] + [84, 82, 85, 69, 9] + [47, 120, 9]     // .a.b TRUE /x
      + [84, 82, 85, 69, 9] + [49, 48, 9] + [110, 9] + [118]         // TRUE 10 n v
  {
    assert Decimal(1) == [49];
    assert Decimal(10) == [49, 48];
  }

  // A line of seven fields, whatever they are, and what goes wrong with it.
  lemma SevenFields(fs: seq<seq<byte>>, secure: bool)
    requires |fs| == 7 && (forall i :: 0 <= i < 7 ==> Clean(fs[i])) && !StartsWith(fs[0], HASH)
    requires !LooksBoolean(fs[2])
    ensures var p := Meaning(Join(fs), secure); var flag, number := IsTrue(fs[3]), Number(fs[4]);
      && (p == BadSecure <==> flag && !secure)
      && (p == Range <==> !(flag && !secure) && number == None)
      && (p.Good? <==> !(flag && !secure) && number.Some?)
      && (p.Good? ==>
            && p.co.domain == Some(NoDot(fs[0])) && p.co.tailmatch == IsTrue(fs[1])
            && p.co.path == Some(fs[2]) && p.co.spath == Some(Sanitize(fs[2])) && p.co.secure == flag
            && p.co.expires == number.value && p.co.name == fs[5] && p.co.value == fs[6] && !p.co.httponly)
  {
    hide Join, Fields, Number, Sanitize, IsTrue, LooksBoolean, CiEqN, NoDot;
    JoinedMeans(fs, secure);
    assert WithPath(fs) == fs;
  }

  lemma JoinedMeans(fs: seq<seq<byte>>, secure: bool)
    requires |fs| > 1 && (forall i :: 0 <= i < |fs| ==> Clean(fs[i])) && !StartsWith(fs[0], HASH)
    ensures Meaning(Join(fs), secure) == FromFields(fs, false, secure)
  {
    hide FromFields, Join, Fields;
    FieldsOfJoin(fs);
    JoinStart(fs);
    assert Join(fs)[0] == (fs[0] + [TAB])[0];
  }

  // Without the path field there are six, or five if the value is missing too; other numbers are errors.
  lemma OtherFields(fs: seq<seq<byte>>, secure: bool)
    requires |fs| > 1 && (forall i :: 0 <= i < |fs| ==> Clean(fs[i])) && !StartsWith(fs[0], HASH)
    ensures var p, noPath := Meaning(Join(fs), secure), |fs| > 2 && LooksBoolean(fs[2]);
      && (p.Good? ==> |fs| == (if noPath then 6 else 7) || |fs| == (if noPath then 5 else 6))
      && (p.Good? && noPath ==>
            && p.co.path == Some([47]) && p.co.spath == Some([47]) && p.co.secure == IsTrue(fs[2])
            && p.co.name == fs[4] && p.co.value == if |fs| == 6 then fs[5] else [])
      && (p.Good? && !noPath ==> p.co.name == fs[5] && p.co.value == if |fs| == 7 then fs[6] else [])
  {
    hide Join, Fields, Sanitize, IsTrue, LooksBoolean, FromFields, Meaning;
    JoinedMeans(fs, secure);
    GoodMeans(fs, secure);
  }

  // A good line by its fields and the path made up.
  lemma GoodMeans(fs: seq<seq<byte>>, secure: bool)
    ensures var p, g := FromFields(fs, false, secure), WithPath(fs); p.Good? ==>
      && (|g| == 6 || |g| == 7)
      && p.co.name == g[5] && p.co.value == (if |g| == 7 then g[6] else [])
      && p.co.path == Some(g[2]) && p.co.secure == IsTrue(g[3])
      && p.co.spath == Some(if MadeUp(fs) then [SLASH] else Sanitize(g[2]))
  {
    hide Number, Sanitize, IsTrue, CiEqN, NoDot, WithPath, MadeUp;
  }
}
