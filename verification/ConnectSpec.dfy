// curl-8.13.0/lib/cf-h1-proxy.c: what reading the response to a CONNECT does, byte by byte and line by line.

module ConnectSpec {
  import opened Common
  import opened StrParse

  const LIMIT: nat := 16384  // DYN_PROXY_CONNECT_HEADERS, with the NUL
  const CR: byte := 13
  const LF: byte := 10

  const CONTENT_LENGTH: seq<byte> := [67, 111, 110, 116, 101, 110, 116, 45, 76, 101, 110, 103, 116, 104, 58]
  const TRANSFER_ENCODING: seq<byte> :=
    [84, 114, 97, 110, 115, 102, 101, 114, 45, 69, 110, 99, 111, 100, 105, 110, 103, 58]
  const WWW_AUTHENTICATE: seq<byte> :=
    [87, 87, 87, 45, 65, 117, 116, 104, 101, 110, 116, 105, 99, 97, 116, 101, 58]
  const PROXY_AUTHENTICATE: seq<byte> :=
    [80, 114, 111, 120, 121, 45, 97, 117, 116, 104, 101, 110, 116, 105, 99, 97, 116, 101, 58]
  const CONNECTION: seq<byte> := [67, 111, 110, 110, 101, 99, 116, 105, 111, 110, 58]
  const PROXY_CONNECTION: seq<byte> :=
    [80, 114, 111, 120, 121, 45, 67, 111, 110, 110, 101, 99, 116, 105, 111, 110, 58]
  const CLOSE: seq<byte> := [99, 108, 111, 115, 101]
  const CHUNKED: seq<byte> := [99, 104, 117, 110, 107, 101, 100]
  const HTTP_1: seq<byte> := [72, 84, 84, 80, 47, 49, 46]

  datatype Keepon = KeepDone | KeepConnect | KeepIgnore

  datatype Error = TooLarge | ClientError | AuthError | WeirdReply | BadChunk | RecvError

  datatype Chunk = ChunkMore | ChunkDone | ChunkBad

  // The code around the reader. What it answers may depend on all the lines, or body bytes, it has seen.
  datatype Env = Env(
    clientRefuses: seq<seq<byte>> -> bool,       // Curl_client_write and Curl_bump_headersize
    authRefuses: seq<seq<byte>> -> bool,         // Curl_http_input_auth
    authProblem: seq<seq<byte>> -> bool,         // data->state.authproblem
    chunk: seq<byte> -> Chunk,                   // Curl_httpchunk_read
    authAct: seq<seq<byte>> -> Option<Error>,    // Curl_http_auth_act, on an answer that is not 2xx
    authOffered: bool)                           // proxy authentication was asked for and is available

  // struct h1_tunnel_state and the request fields the reader uses.
  datatype Tunnel = Tunnel(
    rcvbuf: seq<byte>,
    headerlines: nat,
    keepon: Keepon,
    cl: nat,
    chunkedEncoding: bool,
    closeConnection: bool,
    httpcode: nat,
    lines: seq<seq<byte>>,  // the header lines written to the client
    chunked: seq<byte>)     // the body bytes given to the chunk decoder

  // checkprefix
  predicate HasPrefix(line: seq<byte>, prefix: seq<byte>) {
    CiEqN(prefix, line, |prefix|)
  }

  function At(line: seq<byte>, i: nat): byte {
    if i < |line| then line[i] else 0
  }

  predicate IsStatus(line: seq<byte>) {
    && HTTP_1 <= line
    && (At(line, 7) == 48 || At(line, 7) == 49)
    && At(line, 8) == 32
    && IsDigit(At(line, 9)) && IsDigit(At(line, 10)) && IsDigit(At(line, 11))
    && !IsDigit(At(line, 12))
  }

  function StatusCode(line: seq<byte>): nat
    requires IsStatus(line)
  {
    (At(line, 9) as nat - 48) * 100 + (At(line, 10) as nat - 48) * 10 + (At(line, 11) as nat - 48)
  }

  function PassBlanks(s: seq<byte>): seq<byte> {
    if s != [] && (s[0] == 32 || s[0] == 9) then PassBlanks(s[1..]) else s
  }

  function TrimBlanks(s: seq<byte>): seq<byte> {
    if s != [] && (s[|s| - 1] == 32 || s[|s| - 1] == 9) then TrimBlanks(s[..|s| - 1]) else s
  }

  // Curl_str_untilnl
  function UntilNewline(s: seq<byte>): seq<byte> {
    if s == [] || s[0] == CR || s[0] == LF || s[0] == 0 then [] else [s[0]] + UntilNewline(s[1..])
  }

  predicate IsAuth(line: seq<byte>, httpcode: nat) {
    (HasPrefix(line, WWW_AUTHENTICATE) && httpcode == 401) || (HasPrefix(line, PROXY_AUTHENTICATE) && httpcode == 407)
  }

  // What follows a header's name.
  function AfterName(line: seq<byte>, header: seq<byte>): seq<byte> {
    line[Min(|line|, |header|)..]
  }

  // The value of a header line, without blanks around it.
  function HeaderValue(line: seq<byte>, header: seq<byte>): seq<byte> {
    TrimBlanks(PassBlanks(UntilNewline(AfterName(line, header))))
  }

  ghost predicate AllBlank(s: seq<byte>) {
    forall i :: 0 <= i < |s| ==> s[i] == 32 || s[i] == 9
  }

  // The value is what stands between the blanks.
  lemma ValueBetween(name: seq<byte>, a: seq<byte>, v: seq<byte>, z: seq<byte>, rest: seq<byte>)
    requires AllBlank(a) && AllBlank(z) && forall i :: 0 <= i < |v| ==> v[i] != CR && v[i] != LF && v[i] != 0
    requires v != [] && v[0] != 32 && v[0] != 9 && v[|v| - 1] != 32 && v[|v| - 1] != 9
    ensures HeaderValue(name + (a + v + z + [CR] + rest), name) == v
  {
    hide UntilNewline, PassBlanks, TrimBlanks;
    var line := name + (a + v + z + [CR] + rest);
    assert line[|name|..] == (a + v + z) + [CR] + rest;
    UntilCr(a + v + z, rest);
    assert a + v + z == a + (v + z);
    PassedBlanks(a, v + z);
    TrimmedBlanks(v, z);
  }

  lemma {:induction false} PassedBlanks(a: seq<byte>, s: seq<byte>)
    requires AllBlank(a) && s != [] && s[0] != 32 && s[0] != 9
    ensures PassBlanks(a + s) == s
  {
    if a == [] {
      assert a + s == s;
    } else {
      assert (a + s)[1..] == a[1..] + s;
      PassedBlanks(a[1..], s);
    }
  }

  lemma {:induction false} TrimmedBlanks(s: seq<byte>, z: seq<byte>)
    requires AllBlank(z) && s != [] && s[|s| - 1] != 32 && s[|s| - 1] != 9
    ensures TrimBlanks(s + z) == s
  {
    if z == [] {
      assert s + z == s;
    } else {
      assert (s + z)[..|s + z| - 1] == s + z[..|z| - 1];
      TrimmedBlanks(s, z[..|z| - 1]);
    }
  }

  // The content stands at place k of the value, whatever the case of letters.
  predicate StandsAt(value: seq<byte>, content: seq<byte>, k: nat) {
    k + |content| <= |value| && CiEqN(content, value[k..], |content|)
  }

  ghost predicate Contains(value: seq<byte>, content: seq<byte>) {
    exists k :: StandsAt(value, content, k)
  }

  // What Curl_compareheader decides: the value starts with the content.
  predicate Compareheader(line: seq<byte>, header: seq<byte>, content: seq<byte>) {
    HasPrefix(line, header) && StandsAt(HeaderValue(line, header), content, 0)
  }

  // Curl_compareheader. The loop counts down from the length of the value while it is not below it.
  method CompareLine(line: seq<byte>, header: seq<byte>, content: seq<byte>) returns (found: bool)
    requires content != []
    ensures found == Compareheader(line, header, content)
  {
    if !HasPrefix(line, header) {
      return false;
    }
    var val := UntilNewline(AfterName(line, header));
    if val == [] {
      return false;
    }
    val := TrimBlanks(PassBlanks(val));
    if |val| >= |content| {
      var p, len := 0, |val|;
      while len >= |val|
        invariant p + len == |val|
        invariant len < |val| ==> !StandsAt(val, content, 0)
        decreases len
      {
        if CiEqN(content, val[p..], |content|) {
          return true;
        }
        len, p := len - 1, p + 1;
      }
    }
    return false;
  }

  // It agrees with its description, that the value contains the content, just when the content stands at
  // the start of the value or nowhere in it.
  lemma CompareheaderExact(line: seq<byte>, header: seq<byte>, content: seq<byte>)
    requires HasPrefix(line, header)
    ensures var value := HeaderValue(line, header);
      (Compareheader(line, header, content) <==> Contains(value, content)) <==>
        StandsAt(value, content, 0) || !Contains(value, content)
  {
  }

  // "gzip, chunked"
  const GZIP_CHUNKED: seq<byte> := [103, 122, 105, 112, 44, 32] + CHUNKED

  // Transfer-Encoding: gzip, chunked
  const GZIP_CHUNKED_LINE: seq<byte> := TRANSFER_ENCODING + [32] + GZIP_CHUNKED + [CR, LF]

  // That line contains the word but is not taken as chunked.
  lemma GzipChunkedMissed()
    ensures var value := HeaderValue(GZIP_CHUNKED_LINE, TRANSFER_ENCODING);
      && value == GZIP_CHUNKED && Contains(value, CHUNKED)
      && HasPrefix(GZIP_CHUNKED_LINE, TRANSFER_ENCODING)
      && !Compareheader(GZIP_CHUNKED_LINE, TRANSFER_ENCODING, CHUNKED)
  {
    var rest := [32 as byte] + GZIP_CHUNKED + [CR, LF];
    assert GZIP_CHUNKED_LINE == TRANSFER_ENCODING + rest;
    assert AfterName(GZIP_CHUNKED_LINE, TRANSFER_ENCODING) == rest;
    UntilCr([32 as byte] + GZIP_CHUNKED, [LF]);
    assert rest == [32 as byte] + GZIP_CHUNKED + [CR] + [LF];
    assert PassBlanks([32 as byte] + GZIP_CHUNKED) == PassBlanks(GZIP_CHUNKED) == GZIP_CHUNKED;
    assert GZIP_CHUNKED[6..] == CHUNKED;
    assert StandsAt(GZIP_CHUNKED, CHUNKED, 6);
  }

  lemma {:induction false} UntilCr(s: seq<byte>, rest: seq<byte>)
    requires forall i :: 0 <= i < |s| ==> s[i] != CR && s[i] != LF && s[i] != 0
    ensures UntilNewline(s + [CR] + rest) == s
  {
    if s != [] {
      assert (s + [CR] + rest)[1..] == s[1..] + [CR] + rest;
      UntilCr(s[1..], rest);
    }
  }

  // on_resp_header for the last of `lines`
  function OnHeader(env: Env, t: Tunnel, line: seq<byte>): (Tunnel, Option<Error>) {
    if IsAuth(line, t.httpcode) then
      (t, if env.authRefuses(t.lines) then Some(AuthError) else None)
    else if HasPrefix(line, CONTENT_LENGTH) then
      if t.httpcode / 100 == 2 then (t, None)
      else
        match Number(PassBlanks(AfterName(line, CONTENT_LENGTH)))
        case None => (t.(cl := 0), Some(WeirdReply))
        case Some(n) => (t.(cl := n), None)
    else if Compareheader(line, CONNECTION, CLOSE) then (t.(closeConnection := true), None)
    else if HasPrefix(line, TRANSFER_ENCODING) then
      if t.httpcode / 100 != 2 && Compareheader(line, TRANSFER_ENCODING, CHUNKED) then
        (t.(chunkedEncoding := true, chunked := []), None)
      else (t, None)
    else if Compareheader(line, PROXY_CONNECTION, CLOSE) then (t.(closeConnection := true), None)
    else if IsStatus(line) then (t.(httpcode := StatusCode(line)), None)
    else (t, None)
  }

  predicate Blank(line: seq<byte>) {
    At(line, 0) == CR || At(line, 0) == LF
  }

  // A 407 whose body is to be read and dropped.
  predicate Drops(env: Env, t: Tunnel) {
    t.httpcode == 407 && !env.authProblem(t.lines)
  }

  // The end of a header line, rcvbuf holding all of it.
  function EndLine(env: Env, t0: Tunnel): (Tunnel, Option<Error>) {
    var line := t0.rcvbuf;
    var t := t0.(headerlines := t0.headerlines + 1, lines := t0.lines + [line]);
    if env.clientRefuses(t.lines) then (t, Some(ClientError))
    else if Blank(line) then
      (t.(keepon := if Drops(env, t) && (t.cl > 0 || t.chunkedEncoding) then KeepIgnore else KeepDone), None)
    else
      var (t', e) := OnHeader(env, t, line);
      (if e == None then t'.(rcvbuf := []) else t', e)
  }

  // One byte of the response.
  function Take(env: Env, t: Tunnel, b: byte): (Tunnel, Option<Error>) {
    if t.keepon == KeepIgnore then
      if t.cl > 0 then (t.(cl := t.cl - 1, keepon := if t.cl == 1 then KeepDone else KeepIgnore), None)
      else if t.chunkedEncoding then
        var t' := t.(chunked := t.chunked + [b]);
        match env.chunk(t'.chunked)
        case ChunkBad => (t', Some(BadChunk))
        case ChunkDone => (t'.(keepon := KeepDone), None)
        case ChunkMore => (t', None)
      else (t, None)
    else if |t.rcvbuf| + 2 > LIMIT then (t.(rcvbuf := []), Some(TooLarge))
    else
      var t' := t.(rcvbuf := t.rcvbuf + [b]);
      if b != LF then (t', None) else EndLine(env, t')
  }

  // How far reading got: the state, an error, the number of bytes taken.
  datatype Progress = Progress(t: Tunnel, error: Option<Error>, used: nat)

  function After(p: Progress, n: nat): Progress {
    p.(used := p.used + n)
  }

  predicate Stopped(t: Tunnel, error: Option<Error>) {
    error.Some? || t.keepon == KeepDone
  }

  // Reading until done, an error or the end of what is there.
  function Read(env: Env, t: Tunnel, bytes: seq<byte>): (p: Progress)
    ensures p.used <= |bytes|
    ensures p.used < |bytes| ==> Stopped(p.t, p.error)
    decreases |bytes|
  {
    if bytes == [] || t.keepon == KeepDone then Progress(t, None, 0)
    else
      var (t', e) := Take(env, t, bytes[0]);
      if e.Some? then Progress(t', e, 1) else After(Read(env, t', bytes[1..]), 1)
  }

  // Reading in two goes is reading in one.
  lemma {:induction false} ReadConcat(env: Env, t: Tunnel, a: seq<byte>, b: seq<byte>)
    ensures var p := Read(env, t, a);
      Read(env, t, a + b) == if Stopped(p.t, p.error) then p else After(Read(env, p.t, b), |a|)
    decreases |a|
  {
    hide Take;
    if a == [] {
      assert a + b == b;
    } else if t.keepon != KeepDone {
      assert (a + b)[0] == a[0] && (a + b)[1..] == a[1..] + b;
      var (t', e) := Take(env, t, a[0]);
      if e == None {
        ReadConcat(env, t', a[1..], b);
      }
    }
  }

  // ---- lines ----

  // The bytes up to the first LF.
  function LineLen(bytes: seq<byte>): (n: Option<nat>)
    ensures n.Some? ==> 0 < n.value <= |bytes| && bytes[n.value - 1] == LF && LF !in bytes[..n.value - 1]
    ensures n == None ==> LF !in bytes
  {
    if bytes == [] then None
    else if bytes[0] == LF then Some(1)
    else
      match LineLen(bytes[1..])
      case None => None
      case Some(n) =>
        assert bytes[..n] == [bytes[0]] + bytes[1..][..n - 1];
        Some(n + 1)
  }

  // The header block: the lines through the first that starts with CR or LF.
  function HeaderLen(bytes: seq<byte>): (h: Option<nat>)
    ensures h.Some? ==> 0 < h.value <= |bytes|
    decreases |bytes|
  {
    match LineLen(bytes)
    case None => None
    case Some(n) =>
      if Blank(bytes[..n]) then Some(n)
      else
        match HeaderLen(bytes[n..])
        case None => None
        case Some(h) => Some(n + h)
  }

  // The state after the header block, or at the first error in it.
  function Header(env: Env, t: Tunnel, bytes: seq<byte>): (Tunnel, Option<Error>)
    decreases |bytes|
  {
    match LineLen(bytes)
    case None => if |bytes| + 1 > LIMIT then (t.(rcvbuf := []), Some(TooLarge)) else (t.(rcvbuf := bytes), None)
    case Some(n) =>
      if n + 1 > LIMIT then (t.(rcvbuf := []), Some(TooLarge))
      else
        var (t', e) := EndLine(env, t.(rcvbuf := bytes[..n]));
        if e.Some? || Blank(bytes[..n]) then (t', e) else Header(env, t', bytes[n..])
  }

  // Bytes without a line end pile up in the buffer.
  lemma {:induction false} ReadPart(env: Env, t: Tunnel, part: seq<byte>)
    requires t.keepon == KeepConnect && LF !in part && |t.rcvbuf| + |part| + 1 <= LIMIT
    ensures Read(env, t, part) == Progress(t.(rcvbuf := t.rcvbuf + part), None, |part|)
    decreases |part|
  {
    if part == [] {
      assert t.rcvbuf + part == t.rcvbuf;
    } else {
      var t' := t.(rcvbuf := t.rcvbuf + [part[0]]);
      ReadPart(env, t', part[1..]);
      assert t'.rcvbuf + part[1..] == t.rcvbuf + part;
    }
  }

  // A line that fits into the buffer.
  lemma ReadLine(env: Env, t: Tunnel, line: seq<byte>)
    requires t.keepon == KeepConnect && t.rcvbuf == [] && LineLen(line) == Some(|line|) && |line| + 1 <= LIMIT
    ensures var (t', e) := EndLine(env, t.(rcvbuf := line)); Read(env, t, line) == Progress(t', e, |line|)
  {
    hide EndLine, LineLen;
    var n := |line| - 1;
    LineParts(line);
    ReadPart(env, t, line[..n]);
    ReadConcat(env, t, line[..n], [LF]);
    var t1 := t.(rcvbuf := line[..n]);
    assert [] + line[..n] == line[..n];
    ReadLast(env, t1);
  }

  lemma LineParts(line: seq<byte>)
    requires LineLen(line) == Some(|line|)
    ensures line != [] && line == line[..|line| - 1] + [LF] && LF !in line[..|line| - 1]
  {
    hide LineLen;
    var n := LineLen(line).value;
    assert n == |line| && line[n - 1] == LF && line == line[..n - 1] + [line[n - 1]];
  }

  lemma ReadLast(env: Env, t: Tunnel)
    requires t.keepon == KeepConnect && |t.rcvbuf| + 2 <= LIMIT
    ensures var (t', e) := EndLine(env, t.(rcvbuf := t.rcvbuf + [LF])); Read(env, t, [LF]) == Progress(t', e, 1)
  {
    hide EndLine;
    var (t', e) := EndLine(env, t.(rcvbuf := t.rcvbuf + [LF]));
    assert [LF][1..] == [];
    assert Read(env, t', []) == Progress(t', None, 0);
  }

  // A line that does not fit.
  lemma ReadTooLong(env: Env, t: Tunnel, bytes: seq<byte>)
    requires t.keepon == KeepConnect && t.rcvbuf == [] && |bytes| + 1 > LIMIT && LF !in bytes[..LIMIT - 1]
    ensures Read(env, t, bytes) == Progress(t.(rcvbuf := []), Some(TooLarge), LIMIT)
  {
    hide EndLine;
    var part, rest := bytes[..LIMIT - 1], bytes[LIMIT - 1..];
    assert bytes == part + rest && [] + part == part;
    ReadPart(env, t, part);
    ReadConcat(env, t, part, rest);
  }

  // p reads `bytes` from t as the lines of the header block say.
  ghost predicate ByLines(env: Env, t: Tunnel, bytes: seq<byte>, p: Progress) {
    var (hs, e) := Header(env, t, bytes);
    match HeaderLen(bytes)
    case None =>
      if e.Some? then p.t == hs && p.error == e else p == Progress(hs, None, |bytes|) && hs.keepon == KeepConnect
    case Some(h) =>
      if e.Some? then p.t == hs && p.error == e
      else
        && p == After(Read(env, hs, bytes[h..]), h)
        && hs.keepon == if Drops(env, hs) && (hs.cl > 0 || hs.chunkedEncoding) then KeepIgnore else KeepDone
  }

  // Reading byte by byte is reading line by line; what is left after the header block is read in the state
  // the lines led to.
  lemma {:induction false} HeaderRead(env: Env, t: Tunnel, bytes: seq<byte>)
    requires t.keepon == KeepConnect && t.rcvbuf == []
    ensures ByLines(env, t, bytes, Read(env, t, bytes))
    decreases |bytes|
  {
    hide EndLine, Read, Blank, ByLines, Header, HeaderLen, LineLen;
    match LineLen(bytes)
    case None =>
      PartOnly(env, t, bytes);
    case Some(n) =>
      if n + 1 > LIMIT {
        LineTooLong(env, t, bytes, n);
      } else {
        var line, rest := bytes[..n], bytes[n..];
        assert bytes == line + rest;
        FirstLine(bytes);
        ReadLine(env, t, line);
        ReadConcat(env, t, line, rest);
        EndLineKeeps(env, t.(rcvbuf := line));
        var (t', e) := EndLine(env, t.(rcvbuf := line));
        if e.Some? {
          LineError(env, t, bytes, n, t', e);
        } else if Blank(line) {
          if t'.keepon == KeepDone {
            ReadDone(env, t', rest);
          }
          LastLine(env, t, bytes, n, t');
        } else {
          HeaderRead(env, t', rest);
          OneLine(env, t, bytes, n, t');
        }
      }
  }

  lemma PartOnly(env: Env, t: Tunnel, bytes: seq<byte>)
    requires t.keepon == KeepConnect && t.rcvbuf == [] && LineLen(bytes) == None
    ensures ByLines(env, t, bytes, Read(env, t, bytes))
  {
    hide Read, EndLine;
    if |bytes| + 1 > LIMIT {
      ReadTooLong(env, t, bytes);
    } else {
      ReadPart(env, t, bytes);
      assert [] + bytes == bytes;
    }
  }

  lemma LineTooLong(env: Env, t: Tunnel, bytes: seq<byte>, n: nat)
    requires t.keepon == KeepConnect && t.rcvbuf == [] && LineLen(bytes) == Some(n) && n + 1 > LIMIT
    ensures ByLines(env, t, bytes, Read(env, t, bytes))
  {
    hide Read, EndLine, LineLen, HeaderLen;
    assert bytes[..n - 1][..LIMIT - 1] == bytes[..LIMIT - 1];
    ReadTooLong(env, t, bytes);
  }

  lemma LineError(env: Env, t: Tunnel, bytes: seq<byte>, n: nat, t': Tunnel, e: Option<Error>)
    requires LineLen(bytes) == Some(n) && n + 1 <= LIMIT && EndLine(env, t.(rcvbuf := bytes[..n])) == (t', e) && e.Some?
    ensures ByLines(env, t, bytes, Progress(t', e, n))
  {
    hide Read, EndLine, LineLen, HeaderLen;
  }

  lemma LastLine(env: Env, t: Tunnel, bytes: seq<byte>, n: nat, t': Tunnel)
    requires LineLen(bytes) == Some(n) && n + 1 <= LIMIT && EndLine(env, t.(rcvbuf := bytes[..n])) == (t', None)
    requires Blank(bytes[..n])
    requires t'.keepon == if Drops(env, t') && (t'.cl > 0 || t'.chunkedEncoding) then KeepIgnore else KeepDone
    ensures ByLines(env, t, bytes, After(Read(env, t', bytes[n..]), n))
  {
    hide Read, EndLine, LineLen, Blank, Drops;
  }

  lemma OneLine(env: Env, t: Tunnel, bytes: seq<byte>, n: nat, t': Tunnel)
    requires LineLen(bytes) == Some(n) && n + 1 <= LIMIT && EndLine(env, t.(rcvbuf := bytes[..n])) == (t', None)
    requires !Blank(bytes[..n]) && ByLines(env, t', bytes[n..], Read(env, t', bytes[n..]))
    ensures ByLines(env, t, bytes, After(Read(env, t', bytes[n..]), n))
  {
    hide Read, EndLine, LineLen, Blank, Drops;
    var rest := bytes[n..];
    if HeaderLen(rest).Some? {
      assert rest[HeaderLen(rest).value..] == bytes[n + HeaderLen(rest).value..];
    }
  }

  lemma {:induction false} FirstLine(bytes: seq<byte>)
    requires LineLen(bytes).Some?
    ensures LineLen(bytes[..LineLen(bytes).value]) == LineLen(bytes)
  {
    if bytes[0] != LF {
      FirstLine(bytes[1..]);
      var n := LineLen(bytes).value;
      assert bytes[..n][1..] == bytes[1..][..n - 1];
    }
  }

  // A header line leaves the reader where it was, the blank line ends the header.
  lemma EndLineKeeps(env: Env, t: Tunnel)
    requires t.keepon == KeepConnect
    ensures var (t', e) := EndLine(env, t);
      && (e == None && !Blank(t.rcvbuf) ==> t'.keepon == KeepConnect && t'.rcvbuf == [])
      && (e == None && Blank(t.rcvbuf) ==>
            t'.keepon == if Drops(env, t') && (t'.cl > 0 || t'.chunkedEncoding) then KeepIgnore else KeepDone)
  {
    hide HasPrefix, Blank, IsStatus, Number, PassBlanks, Compareheader, IsAuth;
  }

  // ---- the body ----

  lemma {:induction false} ReadBody(env: Env, t: Tunnel, rest: seq<byte>)
    requires t.keepon == KeepIgnore && t.cl > 0
    ensures Read(env, t, rest) ==
      if |rest| >= t.cl then Progress(t.(cl := 0, keepon := KeepDone), None, t.cl)
      else Progress(t.(cl := t.cl - |rest|), None, |rest|)
    decreases |rest|
  {
    if rest != [] && t.cl > 1 {
      ReadBody(env, t.(cl := t.cl - 1), rest[1..]);
    }
  }

  // The chunk decoder gets every byte, and none after it says it is done.
  lemma {:induction false} ReadChunks(env: Env, t: Tunnel, rest: seq<byte>)
    requires t.keepon == KeepIgnore && t.cl == 0 && t.chunkedEncoding
    ensures var p := Read(env, t, rest);
      && p.t.chunked == t.chunked + rest[..p.used] && p.t.chunkedEncoding
      && (forall k :: 0 < k < p.used ==> env.chunk(t.chunked + rest[..k]) == ChunkMore)
      && (Stopped(p.t, p.error) <==> p.used > 0 && env.chunk(t.chunked + rest[..p.used]) != ChunkMore)
      && (p.error.Some? <==> p.used > 0 && env.chunk(t.chunked + rest[..p.used]) == ChunkBad)
    decreases |rest|
  {
    var p := Read(env, t, rest);
    if rest == [] {
      assert t.chunked + rest[..0] == t.chunked;
    } else {
      var t' := t.(chunked := t.chunked + [rest[0]]);
      assert t.chunked + rest[..1] == t'.chunked;
      if env.chunk(t'.chunked) == ChunkMore {
        ReadChunks(env, t', rest[1..]);
        var p' := Read(env, t', rest[1..]);
        assert p == After(p', 1);
        forall k | 0 < k <= p.used
          ensures t.chunked + rest[..k] == t'.chunked + rest[1..][..k - 1]
        {
        }
      }
    }
  }

  // How many bytes a response takes: its header block, then, for a 407 without an authentication problem,
  // as many as its Content-Length says; else none.
  lemma Consumed(env: Env, t: Tunnel, bytes: seq<byte>)
    requires t.keepon == KeepConnect && t.rcvbuf == []
    requires HeaderLen(bytes).Some? && Header(env, t, bytes).1 == None
    ensures var h := HeaderLen(bytes).value; var hs := Header(env, t, bytes).0; var p := Read(env, t, bytes);
      var n := if Drops(env, hs) then hs.cl else 0;
      (n > 0 || !Drops(env, hs) || !hs.chunkedEncoding) ==>
        && p.error == None
        && (p.t.keepon == KeepDone <==> |bytes| >= h + n)
        && p.used == Min(|bytes|, h + n)
  {
    hide Read, Header, Drops;
    HeaderRead(env, t, bytes);
    var h, hs := HeaderLen(bytes).value, Header(env, t, bytes).0;
    if hs.keepon == KeepDone {
      ReadDone(env, hs, bytes[h..]);
    } else if hs.cl > 0 {
      ReadBody(env, hs, bytes[h..]);
    }
  }

  lemma ReadDone(env: Env, t: Tunnel, rest: seq<byte>)
    requires t.keepon == KeepDone
    ensures Read(env, t, rest) == Progress(t, None, 0)
  {
  }

  // Without a header block there is no end.
  lemma NoEndWithoutHeader(env: Env, t: Tunnel, bytes: seq<byte>)
    requires t.keepon == KeepConnect && t.rcvbuf == [] && HeaderLen(bytes) == None
    ensures var p := Read(env, t, bytes); p.error.Some? || (p.t.keepon == KeepConnect && p.used == |bytes|)
  {
    HeaderRead(env, t, bytes);
  }

  // With a chunked body the decoder says where the end is.
  lemma ConsumedChunked(env: Env, t: Tunnel, bytes: seq<byte>)
    requires t.keepon == KeepConnect && t.rcvbuf == []
    ensures HeaderLen(bytes).Some? && Header(env, t, bytes).1 == None ==>
      var h := HeaderLen(bytes).value; var hs := Header(env, t, bytes).0; var p := Read(env, t, bytes);
      Drops(env, hs) && hs.cl == 0 && hs.chunkedEncoding ==>
        var body := bytes[h..];
        && h <= p.used <= |bytes|
        && (p.error == None && p.t.keepon == KeepDone <==>
              p.used > h && env.chunk(hs.chunked + body[..p.used - h]) == ChunkDone)
        && forall k :: 0 < k < p.used - h ==> env.chunk(hs.chunked + body[..k]) == ChunkMore
  {
    hide Read, Header, Drops;
    HeaderRead(env, t, bytes);
    var hs := Header(env, t, bytes).0;
    if HeaderLen(bytes).Some? && hs.keepon == KeepIgnore && hs.cl == 0 && hs.chunkedEncoding {
      ReadChunks(env, hs, bytes[HeaderLen(bytes).value..]);
    }
  }
}
