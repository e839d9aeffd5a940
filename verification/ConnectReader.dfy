// curl-8.13.0/lib/cf-h1-proxy.c: recv_CONNECT_resp, called again and again while the response comes in.

module ConnectReader {
  import opened Common
  import opened StrParse
  import opened ConnectSpec

  // What a read of one byte gives: CURLE_AGAIN, a byte, the end of the stream, another error.
  datatype Event = Again | Got(b: byte) | Closed | Broken

  // What an event does to the tunnel.
  function Happen(env: Env, t: Tunnel, ev: Event): (Tunnel, Option<Error>) {
    match ev
    case Again => (t, None)
    case Got(b) => Take(env, t, b)
    case Closed =>
      if env.authOffered then (t.(closeConnection := true, keepon := KeepDone), None)
      else (t.(keepon := KeepDone), Some(RecvError))
    case Broken => (t.(keepon := KeepDone), Some(RecvError))
  }

  // One call: it returns when there is nothing to read for now.
  function Call(env: Env, t: Tunnel, evs: seq<Event>): (p: Progress)
    ensures p.used <= |evs|
    ensures evs != [] && t.keepon != KeepDone ==> p.used > 0
    decreases |evs|
  {
    if evs == [] || t.keepon == KeepDone then Progress(t, None, 0)
    else
      var (t', e) := Happen(env, t, evs[0]);
      if e.Some? || evs[0] == Again then Progress(t', e, 1) else After(Call(env, t', evs[1..]), 1)
  }

  // What a call returns: an error, or, for a finished answer that is not 2xx, what is to be done about
  // authentication.
  function Outcome(env: Env, t: Tunnel, error: Option<Error>): Option<Error> {
    if error == None && t.keepon == KeepDone && t.httpcode / 100 != 2 then env.authAct(t.lines) else error
  }

  // All the events, as if nobody ever had to wait.
  function All(env: Env, t: Tunnel, evs: seq<Event>): (p: Progress)
    ensures p.used <= |evs|
    decreases |evs|
  {
    if evs == [] || t.keepon == KeepDone then Progress(t, None, 0)
    else
      var (t', e) := Happen(env, t, evs[0]);
      if e.Some? then Progress(t', e, 1) else After(All(env, t', evs[1..]), 1)
  }

  // Calling again for the rest adds up to reading all of it.
  lemma {:induction false} Resume(env: Env, t: Tunnel, evs: seq<Event>)
    ensures var p := Call(env, t, evs);
      All(env, t, evs) == if Stopped(p.t, p.error) then p else After(All(env, p.t, evs[p.used..]), p.used)
    decreases |evs|
  {
    hide Happen;
    if evs != [] && t.keepon != KeepDone {
      var (t', e) := Happen(env, t, evs[0]);
      if e == None && evs[0] != Again {
        Resume(env, t', evs[1..]);
        var p := Call(env, t', evs[1..]);
        assert evs[1..][p.used..] == evs[p.used + 1..];
      }
    } else {
      assert evs[0..] == evs;
    }
    HappenAgain(env, t);
  }

  lemma HappenAgain(env: Env, t: Tunnel)
    ensures Happen(env, t, Again) == (t, None)
  {
  }

  function Steady(evs: seq<Event>): seq<Event> {
    if evs == [] then [] else if evs[0] == Again then Steady(evs[1..]) else [evs[0]] + Steady(evs[1..])
  }

  // Where reads would block makes no difference to where reading ends up.
  lemma {:induction false} SplitsDoNotMatter(env: Env, t: Tunnel, evs: seq<Event>)
    ensures var p, q := All(env, t, evs), Call(env, t, Steady(evs));
      p.t == q.t && p.error == q.error && |Steady(evs[..p.used])| == q.used
    decreases |evs|
  {
    hide Take;
    var p := All(env, t, evs);
    if evs == [] || t.keepon == KeepDone {
      assert evs[..0] == [];
    } else {
      var (t', e) := Happen(env, t, evs[0]);
      assert evs[..p.used][1..] == evs[1..][..p.used - 1];
      if e == None {
        SplitsDoNotMatter(env, t', evs[1..]);
        assert evs[0] != Again ==> Steady(evs)[1..] == Steady(evs[1..]);
      } else {
        assert evs[1..][..0] == [];
      }
    }
  }

  function BytesOf(evs: seq<Event>): seq<byte> {
    if evs == [] then [] else if evs[0].Got? then [evs[0].b] + BytesOf(evs[1..]) else BytesOf(evs[1..])
  }

  // As long as the connection holds, what counts are the bytes.
  lemma {:induction false} JustBytes(env: Env, t: Tunnel, evs: seq<Event>)
    requires forall ev :: ev in evs ==> ev.Got? || ev.Again?
    ensures var p, q := All(env, t, evs), Read(env, t, BytesOf(evs));
      p.t == q.t && p.error == q.error && |BytesOf(evs[..p.used])| == q.used
    decreases |evs|
  {
    hide Take;
    var p := All(env, t, evs);
    if evs == [] || t.keepon == KeepDone {
      assert evs[..0] == [];
    } else {
      assert evs[0] in evs;
      var (t', e) := Happen(env, t, evs[0]);
      assert evs[..p.used][1..] == evs[1..][..p.used - 1];
      if e == None {
        JustBytes(env, t', evs[1..]);
        assert evs[0].Got? ==> BytesOf(evs)[1..] == BytesOf(evs[1..]);
      } else {
        assert evs[1..][..0] == [];
      }
    }
  }

  // The end of the stream, or an error, in the middle of a response: the reader is done. Where the proxy
  // was to be answered with a login, the end is none but leaves a connection to be closed.
  lemma {:induction false} Lost(env: Env, t: Tunnel, evs: seq<Event>, last: Event, more: seq<Event>)
    requires forall ev :: ev in evs ==> ev.Got? || ev.Again?
    requires last == Closed || last == Broken
    ensures var p, q := Read(env, t, BytesOf(evs)), All(env, t, evs + [last] + more);
      var login := last == Closed && env.authOffered;
      if Stopped(p.t, p.error) then q.t == p.t && q.error == p.error
      else
        && q.t == p.t.(keepon := KeepDone, closeConnection := p.t.closeConnection || login)
        && q.error == (if login then None else Some(RecvError))
        && q.used == |evs| + 1
    decreases |evs|
  {
    hide Take;
    var all := evs + [last] + more;
    if evs == [] {
      assert all[0] == last;
      LostAt(env, t, all);
    } else {
      assert all[0] == evs[0] && all[1..] == evs[1..] + [last] + more && evs[0] in evs;
      if t.keepon != KeepDone {
        var (t', e) := Happen(env, t, evs[0]);
        if e == None {
          Lost(env, t', evs[1..], last, more);
          assert evs[0].Got? ==> BytesOf(evs)[0] == evs[0].b && BytesOf(evs)[1..] == BytesOf(evs[1..]);
        }
      }
    }
  }

  lemma LostAt(env: Env, t: Tunnel, evs: seq<Event>)
    requires evs != [] && (evs[0] == Closed || evs[0] == Broken)
    ensures var q, login := All(env, t, evs), evs[0] == Closed && env.authOffered;
      t.keepon != KeepDone ==>
        && q.t == t.(keepon := KeepDone, closeConnection := t.closeConnection || login)
        && q.error == (if login then None else Some(RecvError)) && q.used == 1
  {
    hide Take;
  }

  datatype TunnelState = TunnelInit | TunnelConnect | TunnelReceive | TunnelResponse | TunnelEstablished | TunnelFailed

  // What entering a state does to the rest.
  function Entered(t: Tunnel, state: TunnelState): Tunnel {
    match state
    case TunnelInit => t.(rcvbuf := [], keepon := KeepConnect, cl := 0, closeConnection := false)
    case TunnelConnect => t.(rcvbuf := [], keepon := KeepConnect)
    case TunnelEstablished => t.(rcvbuf := [])
    case TunnelFailed => t.(rcvbuf := [])
    case _ => t
  }

  // struct h1_tunnel_state
  class H1Tunnel {
    const env: Env
    var rcvbuf: seq<byte>
    var headerlines: nat
    var keepon: Keepon
    var cl: nat
    var chunkedEncoding: bool
    var closeConnection: bool
    var tunnelState: TunnelState
    var httpcode: nat
    var lines: seq<seq<byte>>
    var chunked: seq<byte>

    function View(): Tunnel
      reads this
    {
      Tunnel(rcvbuf, headerlines, keepon, cl, chunkedEncoding, closeConnection, httpcode, lines, chunked)
    }

    // tunnel_init and tunnel_reinit
    constructor (env: Env)
      ensures this.env == env && tunnelState == TunnelInit
      ensures View() == Tunnel([], 0, KeepConnect, 0, false, false, 0, [], [])
    {
      this.env := env;
      rcvbuf, headerlines, keepon, cl, chunkedEncoding := [], 0, KeepConnect, 0, false;
      closeConnection, tunnelState, httpcode, lines, chunked := false, TunnelInit, 0, [], [];
    }

    // h1_tunnel_go_state. What the reader needs at the start of a response holds on the way to it; the count
    // of header lines and the chunked flag are left as they are.
    method GoState(state: TunnelState)
      modifies this
      ensures tunnelState == state
      ensures old(tunnelState) == state ==> View() == old(View())
      ensures old(tunnelState) != state ==> View() == Entered(old(View()), state)
      ensures old(tunnelState) != state && state == TunnelInit ==>
        rcvbuf == [] && keepon == KeepConnect && cl == 0 && !closeConnection && chunkedEncoding == old(chunkedEncoding)
      ensures old(tunnelState) != state && state == TunnelConnect ==>
        rcvbuf == [] && keepon == KeepConnect && cl == old(cl) && closeConnection == old(closeConnection)
      ensures old(tunnelState) != state && (state == TunnelEstablished || state == TunnelFailed) ==>
        View() == old(View()).(rcvbuf := [])
      ensures state == TunnelReceive || state == TunnelResponse ==> View() == old(View())
    {
      if tunnelState == state {
        return;
      }
      match state {
        case TunnelInit =>
          rcvbuf, keepon, cl, closeConnection := [], KeepConnect, 0, false;
        case TunnelConnect =>
          keepon, rcvbuf := KeepConnect, [];
        case TunnelEstablished =>
          rcvbuf := [];
        case TunnelFailed =>
          rcvbuf := [];
        case _ =>
      }
      tunnelState := state;
    }

    // on_resp_header
    method OnRespHeader(header: seq<byte>) returns (result: Option<Error>)
      modifies `cl, `closeConnection, `chunkedEncoding, `chunked, `httpcode
      ensures (View(), result) == OnHeader(env, old(View()), header)
    {
      hide HasPrefix, IsStatus, Number, PassBlanks, Compareheader, IsAuth;
      result := None;
      if IsAuth(header, httpcode) {
        if env.authRefuses(lines) {
          return Some(AuthError);
        }
      } else if HasPrefix(header, CONTENT_LENGTH) {
        if httpcode / 100 == 2 {
        } else {
          var n := Number(PassBlanks(AfterName(header, CONTENT_LENGTH)));
          if n == None {
            cl := 0;
            return Some(WeirdReply);
          }
          cl := n.value;
        }
      } else {
        result := OnOtherHeader(header);
      }
    }

    // The rest of on_resp_header.
    method OnOtherHeader(header: seq<byte>) returns (result: Option<Error>)
      requires !IsAuth(header, httpcode) && !HasPrefix(header, CONTENT_LENGTH)
      modifies `closeConnection, `chunkedEncoding, `chunked, `httpcode
      ensures (View(), result) == OnHeader(env, old(View()), header)
    {
      hide HasPrefix, IsStatus, Number, PassBlanks, Compareheader, IsAuth;
      result := None;
      var closes := CompareLine(header, CONNECTION, CLOSE);
      if closes {
        closeConnection := true;
      } else if HasPrefix(header, TRANSFER_ENCODING) {
        if httpcode / 100 != 2 {
          var isChunked := CompareLine(header, TRANSFER_ENCODING, CHUNKED);
          if isChunked {
            chunkedEncoding := true;
            chunked := [];
          }
        }
      } else {
        closes := CompareLine(header, PROXY_CONNECTION, CLOSE);
        if closes {
          closeConnection := true;
        } else if IsStatus(header) {
          httpcode := StatusCode(header);
        }
      }
    }

    // The body of the loop of recv_CONNECT_resp for one byte.
    method OneByte(b: byte) returns (result: Option<Error>)
      requires keepon != KeepDone
      modifies this
      ensures (View(), result) == Take(env, old(View()), b) && tunnelState == old(tunnelState)
      ensures result.Some? ==> keepon != KeepDone
    {
      hide OnHeader;
      result := None;
      if keepon == KeepIgnore {
        if cl > 0 {
          cl := cl - 1;
          if cl <= 0 {
            keepon := KeepDone;
          }
        } else if chunkedEncoding {
          chunked := chunked + [b];
          match env.chunk(chunked) {
            case ChunkBad => return Some(BadChunk);
            case ChunkDone => keepon := KeepDone;
            case ChunkMore =>
          }
        }
        return;
      }
      if |rcvbuf| + 2 > LIMIT {
        rcvbuf := [];
        return Some(TooLarge);
      }
      rcvbuf := rcvbuf + [b];
      if b != LF {
        return;
      }
      headerlines := headerlines + 1;
      var linep := rcvbuf;
      lines := lines + [linep];
      if env.clientRefuses(lines) {
        return Some(ClientError);
      }
      if At(linep, 0) == CR || At(linep, 0) == LF {
        if httpcode == 407 && !env.authProblem(lines) {
          keepon := KeepIgnore;
          if cl > 0 {
          } else if chunkedEncoding {
          } else {
            keepon := KeepDone;
          }
        } else {
          keepon := KeepDone;
        }
        return;
      }
      result := OnRespHeader(linep);
      if result == None {
        rcvbuf := [];
      }
    }

    // recv_CONNECT_resp; `evs` is what reading gives from here on, `used` how much of it this call sees.
    method Recv(pending: bool, evs: seq<Event>) returns (result: Option<Error>, done: bool, used: nat)
      modifies this
      ensures !pending ==> View() == old(View()) && result == None && !done && used == 0
      ensures pending ==> var p := Call(env, old(View()), evs);
        View() == p.t && used == p.used && result == Outcome(env, p.t, p.error)
      ensures pending ==> (done <==> keepon == KeepDone)
      ensures pending && result == None ==> !done || 200 <= httpcode < 300 || env.authAct(lines) == None
      ensures tunnelState == old(tunnelState)
    {
      hide Happen, Take;
      result, done, used := None, false, 0;
      if !pending {
        return;
      }
      assert evs[0..] == evs;
      while keepon != KeepDone && used < |evs|
        invariant used <= |evs| && tunnelState == old(tunnelState) && result == None
        invariant Call(env, old(View()), evs) == After(Call(env, View(), evs[used..]), used)
        decreases |evs| - used
      {
        assert evs[used..][1..] == evs[used + 1..];
        used := used + 1;
        HappenAgain(env, View());
        result := OneEvent(evs[used - 1]);
        if evs[used - 1] == Again {
          return;
        }
        if result.Some? {
          break;
        }
      }
      done := keepon == KeepDone;
      if result == None && done && httpcode / 100 != 2 {
        result := env.authAct(lines);
      }
    }

    // The ways a read of one byte goes on. An error while handling a byte leaves the reader not done.
    method OneEvent(ev: Event) returns (result: Option<Error>)
      requires keepon != KeepDone
      modifies this
      ensures (View(), result) == Happen(env, old(View()), ev) && tunnelState == old(tunnelState)
    {
      hide Take;
      result := None;
      match ev {
        case Again =>
        case Broken =>
          keepon := KeepDone;
          result := Some(RecvError);
        case Closed =>
          keepon := KeepDone;
          if env.authOffered {
            closeConnection := true;
          } else {
            result := Some(RecvError);
          }
        case Got(b) =>
          result := OneByte(b);
      }
    }

    // Calling recv_CONNECT_resp whenever there is something to read.
    method Drive(evs: seq<Event>) returns (result: Option<Error>, used: nat)
      modifies this
      ensures var p := All(env, old(View()), evs);
        && View() == p.t && used == p.used
        && result == if old(keepon) == KeepDone then None else Outcome(env, p.t, p.error)
    {
      hide Happen;
      result, used := None, 0;
      assert evs[0..] == evs;
      while keepon != KeepDone && used < |evs|
        invariant used <= |evs| && result == None
        invariant old(keepon) != KeepDone ==> Outcome(env, View(), None) == None
        invariant All(env, old(View()), evs) == After(All(env, View(), evs[used..]), used)
        decreases |evs| - used
      {
        Resume(env, View(), evs[used..]);
        var more, done;
        result, done, more := Recv(true, evs[used..]);
        assert evs[used..][more..] == evs[used + more..];
        used := used + more;
        if result.Some? {
          return;
        }
      }
    }
  }
}
