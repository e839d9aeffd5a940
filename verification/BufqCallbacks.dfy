// curl-8.13.0/lib/bufq.h: the two kinds of callback a queue works with. A callback answers from a
// script, so a statement about every script is a statement about every behaviour.

module BufqCallbacks {
  import opened Common
  import opened BufqChunk

  datatype Reply = Reply(n: int, err: Code)

  // Curl_bufq_writer: takes up to the offered number of bytes, or fails with a negative count.
  class Writer {
    var script: seq<Reply>
    ghost var taken: seq<byte>
    ghost var calls: nat
    ghost var offer: seq<byte>  // what the last call offered,
    ghost var lastN: int        // and its answer
    ghost var lastErr: Code

    constructor (script: seq<Reply>)
      ensures this.script == script && taken == [] && calls == 0
    {
      this.script := script;
      taken, calls, offer, lastN, lastErr := [], 0, [], 0, Ok;
    }

    method Write(buf: seq<byte>) returns (n: int, err: Code)
      modifies this
      ensures -1 <= n <= |buf|
      ensures taken == old(taken) + if n > 0 then buf[..n] else []
      ensures calls == old(calls) + 1 && offer == buf && lastN == n && lastErr == err
    {
      calls, offer := calls + 1, buf;
      if script == [] {
        lastN, lastErr := -1, Again;
        return -1, Again;
      }
      var reply := script[0];
      script := script[1..];
      err := reply.err;
      n := if reply.n < 0 then -1 else Min(reply.n, |buf|);
      lastN, lastErr := n, err;
      taken := taken + if n > 0 then buf[..n] else [];
    }
  }

  datatype Supply = Data(bytes: seq<byte>, err: Code) | Fail(err: Code)

  // Curl_bufq_reader: delivers up to the wanted number of bytes; 0 bytes is the end of the data.
  class Reader {
    var script: seq<Supply>
    ghost var delivered: seq<byte>
    ghost var calls: nat
    ghost var asked: nat     // for how many bytes the last call asked,
    ghost var lastN: int     // and its answer
    ghost var lastErr: Code

    constructor (script: seq<Supply>)
      ensures this.script == script && delivered == [] && calls == 0
    {
      this.script := script;
      delivered, calls, asked, lastN, lastErr := [], 0, 0, 0, Ok;
    }

    method Read(len: nat) returns (n: int, bytes: seq<byte>, err: Code)
      modifies this
      ensures if n == -1 then bytes == [] else 0 <= n == |bytes| <= len
      ensures delivered == old(delivered) + bytes && calls == old(calls) + 1
      ensures asked == len && lastN == n && lastErr == err
      ensures n > 0 ==> |script| < |old(script)|
      ensures |script| <= |old(script)|
    {
      calls, asked := calls + 1, len;
      if script == [] {
        lastN, lastErr := -1, Again;
        return -1, [], Again;
      }
      var supply := script[0];
      script := script[1..];
      match supply
      case Fail(e) =>
        lastN, lastErr := -1, e;
        return -1, [], e;
      case Data(data, e) =>
        bytes := data[..Min(len, |data|)];
        delivered := delivered + bytes;
        lastN, lastErr := |bytes|, e;
        return |bytes|, bytes, e;
    }
  }
}
