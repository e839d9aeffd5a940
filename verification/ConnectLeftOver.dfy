// curl-8.13.0/lib/cf-h1-proxy.c: a run in which the chunked flag of one response misleads the reader about
// the next.

module ConnectLeftOver {
  import opened Common
  import opened StrParse
  import opened ConnectSpec
  import opened ConnectBody
  import opened ConnectReader

  const STATUS_407: seq<byte> := HTTP_1 + [49, 32, 52, 48, 55, 32, 80, CR, LF]          // HTTP/1.1 407 P
  const CHUNKED_LINE: seq<byte> := TRANSFER_ENCODING + [32] + CHUNKED + [CR, LF]        // Transfer-Encoding: chunked
  const BLANK_LINE: seq<byte> := [CR, LF]
  const LAST_CHUNK: seq<byte> := [48, CR, LF, CR, LF]

  const FRESH: Tunnel := Tunnel([], 0, KeepConnect, 0, false, false, 0, [], [])

  // A client that takes every line, an authentication that never is a problem, and a decoder that is done
  // behind the last chunk.
  ghost predicate Plain(env: Env) {
    && (forall lines :: !env.clientRefuses(lines) && !env.authProblem(lines))
    && env.chunk(LAST_CHUNK) == ChunkDone
    && forall k :: 0 < k < |LAST_CHUNK| ==> env.chunk(LAST_CHUNK[..k]) == ChunkMore
  }

  lemma {:induction false} LineLenIs(s: seq<byte>, rest: seq<byte>)
    requires LF !in s
    ensures LineLen(s + [LF] + rest) == Some(|s| + 1)
  {
    if s != [] {
      assert (s + [LF] + rest)[1..] == s[1..] + [LF] + rest;
      LineLenIs(s[1..], rest);
    }
  }

  // A line taken off the front of a response.
  lemma HeaderCons(env: Env, t: Tunnel, s: seq<byte>, rest: seq<byte>, t': Tunnel)
    requires LF !in s && |s| + 2 <= LIMIT && EndLine(env, t.(rcvbuf := s + [LF])) == (t', None)
    ensures var line := s + [LF];
      if Blank(line) then Header(env, t, line + rest) == (t', None) && HeaderLen(line + rest) == Some(|line|)
      else
        && Header(env, t, line + rest) == Header(env, t', rest)
        && (HeaderLen(rest).Some? ==> HeaderLen(line + rest) == Some(|line| + HeaderLen(rest).value))
  {
    hide EndLine, Blank, Header, HeaderLen;
    var line := s + [LF];
    var bytes := line + rest;
    LineLenIs(s, rest);
    assert bytes[..|line|] == line && bytes[|line|..] == rest;
    HeaderUnfolds(env, t, bytes, |line|, t');
  }

  lemma HeaderUnfolds(env: Env, t: Tunnel, bytes: seq<byte>, n: nat, t': Tunnel)
    requires LineLen(bytes) == Some(n) && n + 1 <= LIMIT && EndLine(env, t.(rcvbuf := bytes[..n])) == (t', None)
    ensures
      if Blank(bytes[..n]) then Header(env, t, bytes) == (t', None) && HeaderLen(bytes) == Some(n)
      else
        && Header(env, t, bytes) == Header(env, t', bytes[n..])
        && (HeaderLen(bytes[n..]).Some? ==> HeaderLen(bytes) == Some(n + HeaderLen(bytes[n..]).value))
  {
    hide EndLine, Blank, LineLen;
  }

  // The tunnel after a line that was written to the client.
  function Noted(t: Tunnel, line: seq<byte>): Tunnel {
    t.(headerlines := t.headerlines + 1, lines := t.lines + [line])
  }

  lemma StatusTaken(env: Env, t: Tunnel)
    requires Plain(env) && t.rcvbuf == STATUS_407
    ensures EndLine(env, t) == (Noted(t, STATUS_407).(httpcode := 407, rcvbuf := []), None)
    ensures !Blank(STATUS_407)
  {
    hide IsAuth, HasPrefix, Compareheader;
    assert STATUS_407[..7] == HTTP_1;
    assert IsStatus(STATUS_407) && StatusCode(STATUS_407) == 407;
    StatusApart(STATUS_407, t.httpcode);
  }

  lemma ChunkedTaken(env: Env, t: Tunnel)
    requires Plain(env) && t.rcvbuf == CHUNKED_LINE && t.httpcode == 407
    ensures EndLine(env, t) ==
            (Noted(t, CHUNKED_LINE).(chunkedEncoding := true, chunked := [], rcvbuf := []), None)
    ensures !Blank(CHUNKED_LINE)
  {
    hide IsStatus, HasPrefix, Compareheader;
    ChunkedLineMeans();
  }

  lemma ChunkedLineMeans()
    ensures HasPrefix(CHUNKED_LINE, TRANSFER_ENCODING) && Compareheader(CHUNKED_LINE, TRANSFER_ENCODING, CHUNKED)
    ensures !IsAuth(CHUNKED_LINE, 407) && !HasPrefix(CHUNKED_LINE, CONTENT_LENGTH)
    ensures !Compareheader(CHUNKED_LINE, CONNECTION, CLOSE)
  {
    FirstLetter(CHUNKED_LINE, CONTENT_LENGTH);
    FirstLetter(CHUNKED_LINE, WWW_AUTHENTICATE);
    FirstLetter(CHUNKED_LINE, PROXY_AUTHENTICATE);
    FirstLetter(CHUNKED_LINE, CONNECTION);
    var rest := [32 as byte] + CHUNKED + [CR, LF];
    assert CHUNKED_LINE == TRANSFER_ENCODING + rest;
    assert AfterName(CHUNKED_LINE, TRANSFER_ENCODING) == rest;
    UntilCr([32 as byte] + CHUNKED, [LF]);
    assert rest == [32 as byte] + CHUNKED + [CR] + [LF];
    assert PassBlanks([32 as byte] + CHUNKED) == PassBlanks(CHUNKED) == CHUNKED;
  }

  lemma BlankTaken(env: Env, t: Tunnel)
    requires Plain(env) && t.rcvbuf == BLANK_LINE && t.httpcode == 407
    ensures EndLine(env, t) == (Noted(t, BLANK_LINE).(
      keepon := if t.cl > 0 || t.chunkedEncoding then KeepIgnore else KeepDone), None)
    ensures Blank(BLANK_LINE)
  {
  }

  // A 407 with nothing but its status line.
  lemma BareHeader(env: Env, t: Tunnel)
    requires Plain(env) && t.keepon == KeepConnect && t.rcvbuf == []
    ensures var (hs, e) := Header(env, t, STATUS_407 + BLANK_LINE);
      && e == None && HeaderLen(STATUS_407 + BLANK_LINE) == Some(|STATUS_407 + BLANK_LINE|)
      && hs.keepon == if t.cl > 0 || t.chunkedEncoding then KeepIgnore else KeepDone
  {
    hide EndLine, Blank, Header, HeaderLen;
    var t1 := Noted(t, STATUS_407).(httpcode := 407, rcvbuf := []);
    StatusTaken(env, t.(rcvbuf := STATUS_407));
    BlankTaken(env, t1.(rcvbuf := BLANK_LINE));
    var s := HTTP_1 + [49, 32, 52, 48, 55, 32, 80, CR];
    assert STATUS_407 == s + [LF];
    HeaderCons(env, t, s, BLANK_LINE, t1);
    assert [CR] + [LF] == BLANK_LINE && BLANK_LINE + [] == BLANK_LINE;
    HeaderCons(env, t1, [CR], [], EndLine(env, t1.(rcvbuf := BLANK_LINE)).0);
  }

  // A chunked 407 on a fresh tunnel.
  lemma ChunkedHeader(env: Env)
    requires Plain(env)
    ensures var head := STATUS_407 + CHUNKED_LINE + BLANK_LINE; var (hs, e) := Header(env, FRESH, head + LAST_CHUNK);
      && e == None && HeaderLen(head + LAST_CHUNK) == Some(|head|)
      && hs.keepon == KeepIgnore && hs.cl == 0 && hs.chunkedEncoding && hs.chunked == []
  {
    hide EndLine, Blank, Header, HeaderLen;
    var rest := BLANK_LINE + LAST_CHUNK;
    var t1 := Noted(FRESH, STATUS_407).(httpcode := 407, rcvbuf := []);
    var t2 := Noted(t1, CHUNKED_LINE).(chunkedEncoding := true, chunked := [], rcvbuf := []);
    StatusTaken(env, FRESH.(rcvbuf := STATUS_407));
    ChunkedTaken(env, t1.(rcvbuf := CHUNKED_LINE));
    BlankTaken(env, t2.(rcvbuf := BLANK_LINE));
    var s1 := HTTP_1 + [49, 32, 52, 48, 55, 32, 80, CR];
    var s2 := TRANSFER_ENCODING + [32] + CHUNKED + [CR];
    assert STATUS_407 == s1 + [LF] && CHUNKED_LINE == s2 + [LF] && BLANK_LINE == [CR] + [LF];
    HeaderCons(env, FRESH, s1, CHUNKED_LINE + rest, t1);
    HeaderCons(env, t1, s2, rest, t2);
    HeaderCons(env, t2, [CR], LAST_CHUNK, EndLine(env, t2.(rcvbuf := BLANK_LINE)).0);
    assert STATUS_407 + CHUNKED_LINE + BLANK_LINE + LAST_CHUNK == STATUS_407 + (CHUNKED_LINE + rest);
  }

  // The run: a chunked 407 is read to its end, the tunnel goes back to its initial state, and a bare 407
  // comes. A fresh tunnel is done with it; this one goes on to wait for chunks.
  lemma LeftOverRun(env: Env)
    requires Plain(env)
    ensures var first, second := STATUS_407 + CHUNKED_LINE + BLANK_LINE + LAST_CHUNK, STATUS_407 + BLANK_LINE;
      var p := Read(env, FRESH, first);
      && p.error == None && p.t.keepon == KeepDone && p.used == |first|
      && Read(env, FRESH, second).t.keepon == KeepDone
      && Read(env, Entered(p.t, TunnelInit), second).t.keepon == KeepIgnore
  {
    hide Read, Header, HeaderLen, ByLines;
    var head, second := STATUS_407 + CHUNKED_LINE + BLANK_LINE, STATUS_407 + BLANK_LINE;
    ChunkedHeader(env);
    var hs := Header(env, FRESH, head + LAST_CHUNK).0;
    AfterHeader(env, FRESH, head + LAST_CHUNK);
    assert (head + LAST_CHUNK)[|head|..] == LAST_CHUNK;
    LastChunkRead(env, hs);
    var u := Entered(Read(env, FRESH, head + LAST_CHUNK).t, TunnelInit);
    BareHeader(env, FRESH);
    AfterHeader(env, FRESH, second);
    NothingLeft(env, Header(env, FRESH, second).0);
    BareHeader(env, u);
    AfterHeader(env, u, second);
    NothingLeft(env, Header(env, u, second).0);
    assert second[|second|..] == [];
  }

  lemma AfterHeader(env: Env, t: Tunnel, bytes: seq<byte>)
    requires t.keepon == KeepConnect && t.rcvbuf == []
    requires HeaderLen(bytes).Some? && Header(env, t, bytes).1 == None
    ensures var h := HeaderLen(bytes).value;
      Read(env, t, bytes) == After(Read(env, Header(env, t, bytes).0, bytes[h..]), h)
  {
    hide Read, Header, HeaderLen;
    HeaderRead(env, t, bytes);
  }

  lemma NothingLeft(env: Env, t: Tunnel)
    ensures Read(env, t, []) == Progress(t, None, 0)
  {
  }

  lemma LastChunkRead(env: Env, t: Tunnel)
    requires Plain(env) && t.keepon == KeepIgnore && t.cl == 0 && t.chunkedEncoding && t.chunked == []
    ensures var p := Read(env, t, LAST_CHUNK);
      p.error == None && p.t.keepon == KeepDone && p.used == |LAST_CHUNK| && p.t.chunkedEncoding
  {
    hide Read;
    ReadChunks(env, t, LAST_CHUNK);
    var p := Read(env, t, LAST_CHUNK);
    assert [] + LAST_CHUNK[..p.used] == LAST_CHUNK[..p.used] && LAST_CHUNK[..|LAST_CHUNK|] == LAST_CHUNK;
  }
}
