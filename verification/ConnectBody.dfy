// curl-8.13.0/lib/cf-h1-proxy.c: what the header lines of a response to a CONNECT say about its body.

module ConnectBody {
  import opened Common
  import opened StrParse
  import opened ConnectSpec

  // The lines of a header block.
  function Lines(bytes: seq<byte>): seq<seq<byte>>
    decreases |bytes|
  {
    match LineLen(bytes)
    case None => []
    case Some(n) => [bytes[..n]] + if Blank(bytes[..n]) then [] else Lines(bytes[n..])
  }

  // The code in the last status line, `code` if there is none.
  function LastCode(code: nat, lines: seq<seq<byte>>): nat {
    if lines == [] then code
    else
      var line := lines[|lines| - 1];
      if IsStatus(line) then StatusCode(line) else LastCode(code, lines[..|lines| - 1])
  }

  predicate SaysLength(line: seq<byte>, code: nat) {
    HasPrefix(line, CONTENT_LENGTH) && code / 100 != 2
  }

  function LengthIn(line: seq<byte>): Option<nat> {
    Number(PassBlanks(AfterName(line, CONTENT_LENGTH)))
  }

  // The number in the last Content-Length line that stands where the code so far is not 2xx; `cl` if there
  // is no such line.
  function LastLength(cl: nat, code: nat, lines: seq<seq<byte>>): nat {
    if lines == [] then cl
    else
      var line, before := lines[|lines| - 1], lines[..|lines| - 1];
      if SaysLength(line, LastCode(code, before)) then (if LengthIn(line).Some? then LengthIn(line).value else 0)
      else LastLength(cl, code, before)
  }

  // The line has this name, in any case of the letters, and its value begins with this word.
  predicate Says(line: seq<byte>, name: seq<byte>, word: seq<byte>) {
    && |line| >= |name| && CiEq(line[..|name|], name)
    && var value := HeaderValue(line, name); |value| >= |word| && CiEq(value[..|word|], word)
  }

  const PROXY: seq<byte> := [80, 114, 111, 120, 121, 45]                       // Proxy-
  const TRANSFER: seq<byte> := [84, 114, 97, 110, 115, 102, 101, 114, 45]      // Transfer-
  const ENCODING: seq<byte> := [69, 110, 99, 111, 100, 105, 110, 103, 58]      // Encoding:

  predicate Closes(line: seq<byte>) {
    var connection := [67, 111, 110, 110, 101, 99, 116, 105, 111, 110, 58];
    var close := [99, 108, 111, 115, 101];
    Says(line, connection, close) || Says(line, PROXY + connection, close)
  }

  predicate SaysChunked(line: seq<byte>) {
    Says(line, TRANSFER + ENCODING, [99, 104, 117, 110, 107, 101, 100])
  }

  ghost predicate SomeCloses(lines: seq<seq<byte>>) {
    exists i :: 0 <= i < |lines| && Closes(lines[i])
  }

  // Some line says chunked where the code so far is not 2xx.
  ghost predicate SomeChunked(code: nat, lines: seq<seq<byte>>) {
    exists i :: 0 <= i < |lines| && SaysChunked(lines[i]) && LastCode(code, lines[..i]) / 100 != 2
  }

  // ---- the same from the first line on ----

  lemma {:induction false} LastCodeCons(code: nat, line: seq<byte>, lines: seq<seq<byte>>)
    ensures LastCode(code, [line] + lines) == LastCode(LastCode(code, [line]), lines)
  {
    if lines == [] {
      assert [line] + lines == [line];
    } else {
      assert ([line] + lines)[..|lines|] == [line] + lines[..|lines| - 1];
      LastCodeCons(code, line, lines[..|lines| - 1]);
    }
  }

  lemma {:induction false} LastLengthCons(cl: nat, code: nat, line: seq<byte>, lines: seq<seq<byte>>)
    ensures LastLength(cl, code, [line] + lines) ==
            LastLength(LastLength(cl, code, [line]), LastCode(code, [line]), lines)
  {
    hide SaysLength, LengthIn, IsStatus;
    if lines == [] {
      assert [line] + lines == [line];
    } else {
      var before := lines[..|lines| - 1];
      assert ([line] + lines)[..|lines|] == [line] + before;
      LastLengthCons(cl, code, line, before);
      LastCodeCons(code, line, before);
    }
  }

  lemma SomeClosesCons(line: seq<byte>, lines: seq<seq<byte>>)
    ensures SomeCloses([line] + lines) <==> Closes(line) || SomeCloses(lines)
  {
    hide Closes;
    var all := [line] + lines;
    assert all[0] == line;
    if i :| 0 <= i < |lines| && Closes(lines[i]) {
      assert all[i + 1] == lines[i];
    }
  }

  lemma SomeChunkedCons(code: nat, line: seq<byte>, lines: seq<seq<byte>>)
    ensures SomeChunked(code, [line] + lines) <==>
      (SaysChunked(line) && code / 100 != 2) || SomeChunked(LastCode(code, [line]), lines)
  {
    hide SaysChunked, IsStatus;
    var all := [line] + lines;
    assert all[0] == line && all[..0] == [];
    forall i | 0 <= i < |lines|
      ensures all[i + 1] == lines[i] && LastCode(code, all[..i + 1]) == LastCode(LastCode(code, [line]), lines[..i])
    {
      assert all[..i + 1] == [line] + lines[..i];
      LastCodeCons(code, line, lines[..i]);
    }
    assert forall i :: 0 < i < |all| ==> all[i] == lines[i - 1];
  }

  // ---- what reading the lines leads to ----

  // The names of the other headers keep a status line from being one of them.
  lemma StatusApart(line: seq<byte>, code: nat)
    ensures IsStatus(line) ==>
      && !IsAuth(line, code) && !HasPrefix(line, CONTENT_LENGTH) && !HasPrefix(line, TRANSFER_ENCODING)
      && !Compareheader(line, CONNECTION, CLOSE) && !Compareheader(line, PROXY_CONNECTION, CLOSE)
    ensures HasPrefix(line, CONTENT_LENGTH) ==> !IsAuth(line, code)
    ensures Blank(line) ==> !IsStatus(line) && !HasPrefix(line, CONTENT_LENGTH)
  {
    if line != [] {
      FirstLetter(line, CONTENT_LENGTH);
      FirstLetter(line, WWW_AUTHENTICATE);
      FirstLetter(line, PROXY_AUTHENTICATE);
      FirstLetter(line, TRANSFER_ENCODING);
      FirstLetter(line, CONNECTION);
      FirstLetter(line, PROXY_CONNECTION);
    }
  }

  lemma FirstLetter(line: seq<byte>, prefix: seq<byte>)
    requires line != [] && prefix != []
    ensures HasPrefix(line, prefix) ==> Upper(line[0]) == Upper(prefix[0])
  {
    assert prefix[..Min(|prefix|, |prefix|)][0] == prefix[0];
    assert line[..Min(|prefix|, |line|)][0] == line[0];
  }

  // One line.
  lemma LineSays(env: Env, t: Tunnel, line: seq<byte>)
    requires t.rcvbuf == line && EndLine(env, t).1 == None
    ensures var t' := EndLine(env, t).0;
      && t'.httpcode == LastCode(t.httpcode, [line])
      && t'.cl == LastLength(t.cl, t.httpcode, [line])
      && t'.lines == t.lines + [line]
  {
    hide Compareheader, HasPrefix, IsAuth, IsStatus, StatusCode, AfterName, Number, PassBlanks, Blank;
    StatusApart(line, t.httpcode);
    assert [line][..0] == [];
  }

  lemma LetterAt(line: seq<byte>, prefix: seq<byte>, k: nat)
    requires k < |prefix|
    ensures HasPrefix(line, prefix) ==> |line| > k && Upper(line[k]) == Upper(prefix[k])
  {
    assert prefix[..Min(|prefix|, |prefix|)][k] == prefix[k];
    if |line| >= |prefix| {
      assert line[..Min(|prefix|, |line|)][k] == line[k];
    }
  }

  // The two ways to look for a word at the start of a value.
  lemma SaysCompare(line: seq<byte>, name: seq<byte>, word: seq<byte>)
    ensures Says(line, name, word) <==> Compareheader(line, name, word)
  {
    hide HeaderValue;
    var value := HeaderValue(line, name);
    assert value[0..] == value;
    CiEqSwap(line[..Min(|name|, |line|)], name);
    CiEqSwap(value[..Min(|word|, |value|)], word);
    assert name[..|name|] == name && word[..|word|] == word;
  }

  lemma CiEqSwap(a: seq<byte>, b: seq<byte>)
    ensures CiEq(a, b) <==> CiEq(b, a)
  {
  }

  lemma SaysMeans(line: seq<byte>)
    ensures Closes(line) <==> Compareheader(line, CONNECTION, CLOSE) || Compareheader(line, PROXY_CONNECTION, CLOSE)
    ensures SaysChunked(line) <==> Compareheader(line, TRANSFER_ENCODING, CHUNKED)
  {
    hide Says, Compareheader;
    assert PROXY + CONNECTION == PROXY_CONNECTION && TRANSFER + ENCODING == TRANSFER_ENCODING;
    SaysCompare(line, CONNECTION, CLOSE);
    SaysCompare(line, PROXY_CONNECTION, CLOSE);
    SaysCompare(line, TRANSFER_ENCODING, CHUNKED);
  }

  // No line has two of the names.
  lemma NamesApart(line: seq<byte>, code: nat)
    ensures HasPrefix(line, CONNECTION) || HasPrefix(line, PROXY_CONNECTION) || HasPrefix(line, TRANSFER_ENCODING) ==>
      !IsAuth(line, code) && !HasPrefix(line, CONTENT_LENGTH) && !Blank(line)
    ensures HasPrefix(line, TRANSFER_ENCODING) ==> !HasPrefix(line, CONNECTION) && !HasPrefix(line, PROXY_CONNECTION)
  {
    hide HasPrefix;
    LetterAt(line, CONNECTION, 0);
    LetterAt(line, CONNECTION, 3);
    LetterAt(line, PROXY_CONNECTION, 0);
    LetterAt(line, PROXY_CONNECTION, 6);
    LetterAt(line, TRANSFER_ENCODING, 0);
    LetterAt(line, CONTENT_LENGTH, 0);
    LetterAt(line, CONTENT_LENGTH, 3);
    LetterAt(line, WWW_AUTHENTICATE, 0);
    LetterAt(line, PROXY_AUTHENTICATE, 0);
    LetterAt(line, PROXY_AUTHENTICATE, 6);
  }

  // One line and the flags.
  lemma LineFlags(env: Env, t: Tunnel, line: seq<byte>)
    requires t.rcvbuf == line && EndLine(env, t).1 == None
    ensures var t', chunks := EndLine(env, t).0, SaysChunked(line) && t.httpcode / 100 != 2;
      && t'.closeConnection == (t.closeConnection || Closes(line))
      && t'.chunkedEncoding == (t.chunkedEncoding || chunks)
      && t'.chunked == if chunks then [] else t.chunked
  {
    SaysMeans(line);
    NamesApart(line, t.httpcode);
    WithName(line);
    hide Compareheader, HasPrefix, IsAuth, IsStatus, StatusCode, AfterName, Number, PassBlanks, Blank;
    hide Closes, SaysChunked;
  }

  lemma WithName(line: seq<byte>)
    ensures Compareheader(line, CONNECTION, CLOSE) ==> HasPrefix(line, CONNECTION)
    ensures Compareheader(line, PROXY_CONNECTION, CLOSE) ==> HasPrefix(line, PROXY_CONNECTION)
    ensures Compareheader(line, TRANSFER_ENCODING, CHUNKED) ==> HasPrefix(line, TRANSFER_ENCODING)
  {
    hide HasPrefix, StandsAt;
  }

  // The flags behind the header block: the connection is to be closed if some line says so, and the body is
  // chunked if some line says so that counts.
  lemma {:induction false} HeaderFlags(env: Env, t: Tunnel, bytes: seq<byte>)
    requires HeaderLen(bytes).Some? && Header(env, t, bytes).1 == None
    ensures var hs, ls := Header(env, t, bytes).0, Lines(bytes);
      && (hs.closeConnection <==> t.closeConnection || SomeCloses(ls))
      && (hs.chunkedEncoding <==> t.chunkedEncoding || SomeChunked(t.httpcode, ls))
      && hs.chunked == if SomeChunked(t.httpcode, ls) then [] else t.chunked
    decreases |bytes|
  {
    hide EndLine, Blank, LastCode, LineLen, Header, HeaderLen, Lines, Closes, SaysChunked, SomeCloses, SomeChunked;
    FirstOfHeader(env, t, bytes);
    var n := LineLen(bytes).value;
    var line, rest := bytes[..n], bytes[n..];
    var u := t.(rcvbuf := line);
    LineFlags(env, u, line);
    LineSays(env, u, line);
    var later := if Blank(line) then [] else Lines(rest);
    if Blank(line) {
      NoneSays(LastCode(t.httpcode, [line]));
      assert [line] + [] == [line];
    } else {
      HeaderFlags(env, EndLine(env, u).0, rest);
    }
    SomeClosesCons(line, later);
    SomeChunkedCons(t.httpcode, line, later);
  }

  lemma NoneSays(code: nat)
    ensures !SomeCloses([]) && !SomeChunked(code, [])
  {
  }

  // The header block taken apart at its first line.
  lemma FirstOfHeader(env: Env, t: Tunnel, bytes: seq<byte>)
    requires HeaderLen(bytes).Some? && Header(env, t, bytes).1 == None
    ensures LineLen(bytes).Some?
    ensures var line, rest := bytes[..LineLen(bytes).value], bytes[LineLen(bytes).value..];
      var (t', e) := EndLine(env, t.(rcvbuf := line));
      && e == None && |rest| < |bytes|
      && (Blank(line) ==> Header(env, t, bytes) == (t', None) && Lines(bytes) == [line])
      && (!Blank(line) ==>
            && HeaderLen(rest).Some? && Header(env, t', rest) == Header(env, t, bytes)
            && Lines(bytes) == [line] + Lines(rest))
  {
    hide EndLine, Blank, LineLen;
  }

  // The whole header block: only its status and Content-Length lines matter for code and length.
  lemma {:induction false} HeaderSays(env: Env, t: Tunnel, bytes: seq<byte>)
    requires HeaderLen(bytes).Some? && Header(env, t, bytes).1 == None
    ensures var hs := Header(env, t, bytes).0;
      && hs.httpcode == LastCode(t.httpcode, Lines(bytes))
      && hs.cl == LastLength(t.cl, t.httpcode, Lines(bytes))
      && hs.lines == t.lines + Lines(bytes)
    decreases |bytes|
  {
    hide EndLine, Blank, LastCode, LastLength, LineLen, Header, HeaderLen, Lines;
    FirstOfHeader(env, t, bytes);
    var n := LineLen(bytes).value;
    var line, rest := bytes[..n], bytes[n..];
    LineSays(env, t.(rcvbuf := line), line);
    if !Blank(line) {
      HeaderSays(env, EndLine(env, t.(rcvbuf := line)).0, rest);
      LastCodeCons(t.httpcode, line, Lines(rest));
      LastLengthCons(t.cl, t.httpcode, line, Lines(rest));
      assert t.lines + [line] + Lines(rest) == t.lines + ([line] + Lines(rest));
    }
  }

  // A response takes its header block and, for a 407 without an authentication problem, as many bytes as its
  // last Content-Length line says, or the length from before where it has none; else no byte more.
  lemma ConsumedByLines(env: Env, t: Tunnel, bytes: seq<byte>)
    requires t.keepon == KeepConnect && t.rcvbuf == []
    requires HeaderLen(bytes).Some? && Header(env, t, bytes).1 == None
    ensures var p, h, ls := Read(env, t, bytes), HeaderLen(bytes).value, Lines(bytes);
      var drops := LastCode(t.httpcode, ls) == 407 && !env.authProblem(t.lines + ls);
      var n := if drops then LastLength(t.cl, t.httpcode, ls) else 0;
      (n > 0 || !drops || !Header(env, t, bytes).0.chunkedEncoding) ==>
        && p.error == None
        && (p.t.keepon == KeepDone <==> |bytes| >= h + n)
        && p.used == Min(|bytes|, h + n)
  {
    hide Read, Header, HeaderLen, Lines, LastCode, LastLength, Drops;
    Consumed(env, t, bytes);
    HeaderSays(env, t, bytes);
    DropsMeans(env, Header(env, t, bytes).0);
  }

  lemma DropsMeans(env: Env, t: Tunnel)
    ensures Drops(env, t) <==> t.httpcode == 407 && !env.authProblem(t.lines)
  {
  }

  // ---- a chunked flag left over from an earlier response ----

  // Where the flag differs before a header block, all that can differ behind it is the flag, and whether a
  // body is awaited.
  predicate FlagOnly(a: Tunnel, b: Tunnel) {
    && b.chunkedEncoding
    && a == b.(keepon := a.keepon, chunkedEncoding := a.chunkedEncoding)
  }

  lemma FlagOnHeader(env: Env, a: Tunnel, b: Tunnel, line: seq<byte>)
    requires FlagOnly(a, b)
    ensures var (a', d) := OnHeader(env, a, line); var (b', e) := OnHeader(env, b, line);
      d == e && FlagOnly(a', b') && a'.keepon == a.keepon && b'.keepon == b.keepon
  {
    hide Compareheader, HasPrefix, IsAuth, IsStatus, StatusCode, AfterName, Number, PassBlanks;
  }

  lemma FlagLine(env: Env, a: Tunnel, b: Tunnel)
    requires FlagOnly(a, b) && a.keepon == b.keepon
    ensures var (a', d) := EndLine(env, a); var (b', e) := EndLine(env, b);
      d == e && FlagOnly(a', b') && (!Blank(a.rcvbuf) ==> a'.keepon == b'.keepon)
  {
    hide OnHeader, Blank, Drops;
    var line := a.rcvbuf;
    FlagOnHeader(
      env,
      a.(headerlines := a.headerlines + 1, lines := a.lines + [line]),
      b.(headerlines := b.headerlines + 1, lines := b.lines + [line]),
      line);
  }

  lemma {:induction false} FlagHeader(env: Env, a: Tunnel, b: Tunnel, bytes: seq<byte>)
    requires FlagOnly(a, b) && a.keepon == b.keepon
    ensures var (a', d) := Header(env, a, bytes); var (b', e) := Header(env, b, bytes);
      d == e && FlagOnly(a', b')
    decreases |bytes|
  {
    hide EndLine, Blank, LineLen;
    match LineLen(bytes)
    case None =>
    case Some(n) =>
      var line := bytes[..n];
      FlagLine(env, a.(rcvbuf := line), b.(rcvbuf := line));
      var (a', d) := EndLine(env, a.(rcvbuf := line));
      var (b', e) := EndLine(env, b.(rcvbuf := line));
      if n + 1 <= LIMIT && d == None && !Blank(line) {
        FlagHeader(env, a', b', bytes[n..]);
      }
  }

  // Two tunnels that differ in the flag only read a response alike exactly when it says itself that it is
  // chunked, has no body to drop, or has a length: a 407 without any of these ends at its header block for
  // one and goes on for the other.
  lemma LeftOverChunked(env: Env, t: Tunnel, bytes: seq<byte>)
    requires t.keepon == KeepConnect && t.rcvbuf == [] && !t.chunkedEncoding
    requires HeaderLen(bytes).Some? && Header(env, t, bytes).1 == None
    ensures var hs := Header(env, t, bytes).0;
      var p, q := Read(env, t, bytes), Read(env, t.(chunkedEncoding := true), bytes);
      (p.error == q.error && p.used == q.used && p.t.keepon == q.t.keepon) <==>
        hs.chunkedEncoding || !Drops(env, hs) || hs.cl > 0
  {
    hide Read, Header, Drops, EndLine;
    var u := t.(chunkedEncoding := true);
    FlagHeader(env, t, u, bytes);
    HeaderRead(env, t, bytes);
    HeaderRead(env, u, bytes);
    var hs, hu, rest := Header(env, t, bytes).0, Header(env, u, bytes).0, bytes[HeaderLen(bytes).value..];
    DropsAlike(env, hs, hu);
    if hs.keepon == KeepDone {
      ReadDone(env, hs, rest);
      if hu.keepon == KeepDone {
        ReadDone(env, hu, rest);
      } else {
        ReadChunks(env, hu, rest);
        IgnoreReads(env, hu, rest);
      }
    } else if hs.cl > 0 {
      ReadBody(env, hs, rest);
      ReadBody(env, hu, rest);
    } else {
      assert hs == hu;
    }
  }

  lemma DropsAlike(env: Env, a: Tunnel, b: Tunnel)
    requires FlagOnly(a, b)
    ensures Drops(env, a) == Drops(env, b)
  {
  }

  // A reader that awaits a body takes a byte of it if there is one.
  lemma IgnoreReads(env: Env, t: Tunnel, rest: seq<byte>)
    requires t.keepon == KeepIgnore
    ensures rest == [] ==> Read(env, t, rest) == Progress(t, None, 0)
    ensures rest != [] ==> Read(env, t, rest).used > 0
  {
    hide Take;
  }

  // ---- what counts as which line ----

  // A status line: HTTP/1.0 or HTTP/1.1, a blank, and three digits that make the code.
  lemma StatusLine(minor: byte, a: byte, b: byte, c: byte, rest: seq<byte>)
    requires 48 <= a <= 57 && 48 <= b <= 57 && 48 <= c <= 57
    ensures var line := [72, 84, 84, 80, 47, 49, 46] + [minor, 32, a, b, c] + rest;
      && (IsStatus(line) <==> 48 <= minor <= 49 && (rest == [] || rest[0] < 48 || 57 < rest[0]))
      && (IsStatus(line) ==> StatusCode(line) == 100 * (a as nat - 48) + 10 * (b as nat - 48) + (c as nat - 48))
  {
    var line := [72, 84, 84, 80, 47, 49, 46] + [minor, 32, a, b, c] + rest;
    assert line[..7] == HTTP_1 && At(line, 7) == minor && At(line, 8) == 32;
    assert At(line, 9) == a && At(line, 10) == b && At(line, 11) == c;
    assert At(line, 12) == if rest == [] then 0 else rest[0];
  }

  lemma StatusOnly(line: seq<byte>)
    ensures IsStatus(line) ==>
      && |line| >= 12 && line[..7] == [72, 84, 84, 80, 47, 49, 46] && line[8] == 32
      && forall k :: 9 <= k <= 11 ==> 48 <= line[k] <= 57
  {
  }

  predicate Named(line: seq<byte>, name: seq<byte>) {
    |line| >= |name| && CiEq(line[..|name|], name)
  }

  lemma NamedPrefix(line: seq<byte>, name: seq<byte>)
    ensures Named(line, name) <==> HasPrefix(line, name)
  {
    CiEqSwap(line[..Min(|name|, |line|)], name);
    assert name[..|name|] == name;
  }

  // When a header line is an error: the challenges of a 401 or a 407 can be refused, and outside a 2xx
  // answer the length must be a number.
  lemma HeaderErrors(env: Env, t: Tunnel, line: seq<byte>)
    ensures var e := OnHeader(env, t, line).1;
      var www := [87, 87, 87, 45, 65, 117, 116, 104, 101, 110, 116, 105, 99, 97, 116, 101, 58];
      var proxy := PROXY + [97, 117, 116, 104, 101, 110, 116, 105, 99, 97, 116, 101, 58];
      var challenge := (t.httpcode == 401 && Named(line, www)) || (t.httpcode == 407 && Named(line, proxy));
      var length := [67, 111, 110, 116, 101, 110, 116, 45] + [76, 101, 110, 103, 116, 104, 58];
      && (e == Some(AuthError) <==> challenge && env.authRefuses(t.lines))
      && (e == Some(WeirdReply) <==>
            Named(line, length) && t.httpcode / 100 != 2 && Number(PassBlanks(line[15..])) == None)
      && (e.Some? ==> e == Some(AuthError) || e == Some(WeirdReply))
  {
    hide Named, HasPrefix, Compareheader, IsStatus, StatusCode, Number, PassBlanks;
    assert PROXY + [97, 117, 116, 104, 101, 110, 116, 105, 99, 97, 116, 101, 58] == PROXY_AUTHENTICATE;
    assert [67, 111, 110, 116, 101, 110, 116, 45] + [76, 101, 110, 103, 116, 104, 58] == CONTENT_LENGTH;
    NamedPrefix(line, WWW_AUTHENTICATE);
    NamedPrefix(line, PROXY_AUTHENTICATE);
    NamedPrefix(line, CONTENT_LENGTH);
    NamedLong(line, CONTENT_LENGTH);
    StatusApart(line, t.httpcode);
  }

  lemma NamedLong(line: seq<byte>, name: seq<byte>)
    ensures Named(line, name) ==> |line| >= |name|
  {
  }

  // A line of 16384 bytes is too long.
  lemma LineLimit(env: Env, t: Tunnel, bytes: seq<byte>)
    requires t.keepon == KeepConnect && t.rcvbuf == [] && LF !in bytes[..Min(16383, |bytes|)]
    ensures var p := Read(env, t, bytes);
      if |bytes| >= 16384 then p.error == Some(TooLarge) && p.used == 16384
      else p.error == None && p.used == |bytes|
  {
    hide Read, EndLine;
    if |bytes| >= 16384 {
      ReadTooLong(env, t, bytes);
    } else {
      assert bytes[..Min(16383, |bytes|)] == bytes;
      ReadPart(env, t, bytes);
    }
  }
}
