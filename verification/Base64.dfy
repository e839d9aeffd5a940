// curl-8.13.0/lib/base64.c: encoding and decoding as RFC 4648 has them. Shifts and masks of the source are
// written as quotients and remainders.

module Base64 {
  import opened Common

  const PAD: byte := 61  // the equals sign
  const BAD: nat := 255  // decodetable has it for what is no symbol

  // base64encdec and base64url
  function Symbol(url: bool, v: nat): byte
    requires v < 64
  {
    if v < 26 then 65 + v as byte       // A to Z
    else if v < 52 then 71 + v as byte  // a to z
    else if v < 62 then (v - 4) as byte // 0 to 9
    else if v == 62 then (if url then 45 else 43)
    else if url then 95 else 47
  }

  // decodetable, set in an array of BAD
  function Lookup(c: byte): (v: nat)
    ensures v < 64 || v == BAD
  {
    if 65 <= c <= 90 then c as nat - 65
    else if 97 <= c <= 122 then c as nat - 71
    else if 48 <= c <= 57 then c as nat + 4
    else if c == 43 then 62
    else if c == 47 then 63
    else BAD
  }

  // The standard alphabet, without the padding.
  predicate InAlphabet(c: byte) {
    65 <= c <= 90 || 97 <= c <= 122 || 48 <= c <= 57 || c == 43 || c == 47
  }

  lemma LookupSymbol(v: nat)
    requires v < 64
    ensures Lookup(Symbol(false, v)) == v && Symbol(false, v) != PAD && InAlphabet(Symbol(false, v))
  {
  }

  lemma SymbolLookup(c: byte)
    ensures Lookup(c) < 64 <==> InAlphabet(c)
    ensures InAlphabet(c) ==> Symbol(false, Lookup(c)) == c && c != PAD
  {
  }

  // ---- encoding ----

  // The four digits of three bytes: the bits of in0, in1, in2 in groups of six.
  function Quad(url: bool, in0: byte, in1: byte, in2: byte): (q: seq<byte>)
    ensures |q| == 4
  {
    [ Symbol(url, in0 as nat / 4),
      Symbol(url, in0 as nat % 4 * 16 + in1 as nat / 16),
      Symbol(url, in1 as nat % 16 * 4 + in2 as nat / 64),
      Symbol(url, in2 as nat % 64) ]
  }

  // What RFC 4648, section 4, and for the URL alphabet section 5, make of a byte string.
  function Encoded(url: bool, s: seq<byte>): (r: seq<byte>)
    decreases |s|
  {
    if s == [] then []
    else if |s| == 1 then Quad(url, s[0], 0, 0)[..2] + if url then [] else [PAD, PAD]
    else if |s| == 2 then Quad(url, s[0], s[1], 0)[..3] + if url then [] else [PAD]
    else Quad(url, s[0], s[1], s[2]) + Encoded(url, s[3..])
  }

  lemma {:induction false} EncodedLength(url: bool, s: seq<byte>)
    ensures |Encoded(url, s)| <= (|s| + 2) / 3 * 4
    ensures !url ==> |Encoded(url, s)| == (|s| + 2) / 3 * 4
    decreases |s|
  {
    hide Quad;
    if |s| >= 3 {
      EncodedLength(url, s[3..]);
      assert (|s| + 2) / 3 == (|s[3..]| + 2) / 3 + 1;
    }
  }

  function StrLen(s: seq<byte>): (n: nat)
    requires 0 in s
    ensures n < |s| && s[n] == 0 && 0 !in s[..n]
  {
    if s[0] == 0 then 0 else 1 + StrLen(s[1..])
  }

  // base64_encode. A size of 0 asks for a NUL-terminated string.
  method Encode(url: bool, inputbuff: seq<byte>, insize: nat) returns (out: array<byte>, outlen: nat)
    requires insize <= |inputbuff| && (insize == 0 ==> 0 in inputbuff)
    ensures fresh(out) && outlen < out.Length && out[outlen] == 0
    ensures out[..outlen] == Encoded(url, inputbuff[..if insize == 0 then StrLen(inputbuff) else insize])
  {
    hide Symbol, Encoded, Quad, StrLen;
    var size := if insize == 0 then StrLen(inputbuff) else insize;
    ghost var input := inputbuff[..size];
    out := new byte[(size + 2) / 3 * 4 + 1];
    var pos, i := 0, 0;
    EncodedLength(url, input);
    assert input[0..] == input && out[..0] == [];
    while size - i >= 3
      invariant i <= size && pos <= out.Length
      invariant out[..pos] + Encoded(url, input[i..]) == Encoded(url, input)
      decreases size - i
    {
      ghost var done, rest := out[..pos], Encoded(url, input[i + 3..]);
      EncodedStep(url, input[i..]);
      assert input[i..][3..] == input[i + 3..];
      var quad := Quad(url, inputbuff[i], inputbuff[i + 1], inputbuff[i + 2]);
      Regroup(done, quad, rest);
      Write(out, pos, quad);
      pos, i := pos + 4, i + 3;
    }
    outlen := EncodeRest(out, pos, url, inputbuff[i..size]);
    out[outlen] := 0;
  }

  lemma Regroup(a: seq<byte>, b: seq<byte>, c: seq<byte>)
    ensures a + (b + c) == (a + b) + c && |(a + b) + c| == |a| + |b| + |c|
  {
  }

  // The part of base64_encode for the last one or two bytes.
  method EncodeRest(out: array<byte>, pos: nat, url: bool, rest: seq<byte>) returns (end: nat)
    requires |rest| < 3 && pos + |Encoded(url, rest)| < out.Length
    modifies out
    ensures end == pos + |Encoded(url, rest)| && out[..end] == old(out[..pos]) + Encoded(url, rest)
  {
    hide Symbol, Encoded, Quad;
    EncodedStep(url, rest);
    ghost var done := out[..pos];
    end := pos;
    if |rest| == 1 {
      var digits := Quad(url, rest[0], 0, 0)[..2];
      Write(out, end, digits);
      end := end + 2;
      if !url {
        Regroup(done, digits, [PAD, PAD]);
        Write(out, end, [PAD, PAD]);
        end := end + 2;
      }
    } else if |rest| == 2 {
      var digits := Quad(url, rest[0], rest[1], 0)[..3];
      Write(out, end, digits);
      end := end + 3;
      if !url {
        Regroup(done, digits, [PAD]);
        Write(out, end, [PAD]);
        end := end + 1;
      }
    }
  }

  // Writing through an output pointer.
  method Write(out: array<byte>, pos: nat, s: seq<byte>)
    requires pos + |s| <= out.Length
    modifies out
    ensures out[..pos + |s|] == old(out[..pos]) + s
  {
    for k := 0 to |s|
      invariant out[..pos + k] == old(out[..pos]) + s[..k]
    {
      out[pos + k] := s[k];
      assert out[..pos + k + 1] == out[..pos + k] + [s[k]];
    }
    assert s[..|s|] == s;
  }

  lemma EncodedStep(url: bool, s: seq<byte>)
    ensures s == [] ==> Encoded(url, s) == []
    ensures |s| == 1 ==> Encoded(url, s) == Quad(url, s[0], 0, 0)[..2] + (if url then [] else [PAD, PAD])
    ensures |s| == 2 ==> Encoded(url, s) == Quad(url, s[0], s[1], 0)[..3] + (if url then [] else [PAD])
    ensures |s| >= 3 ==> Encoded(url, s) == Quad(url, s[0], s[1], s[2]) + Encoded(url, s[3..])
  {
    hide Quad;
  }

  // ---- decoding ----

  // The number of equals signs at the end, as far as three.
  function Padding(src: seq<byte>): (p: nat)
    requires |src| >= 4
    ensures p <= 3
  {
    if src[|src| - 1] != PAD then 0 else if src[|src| - 2] != PAD then 1 else if src[|src| - 3] != PAD then 2 else 3
  }

  // The strings RFC 4648 calls base 64: groups of four from the alphabet, up to two equals signs for the last.
  predicate Accepts(src: seq<byte>) {
    && src != [] && |src| % 4 == 0
    && Padding(src) <= 2
    && forall i :: 0 <= i < |src| - Padding(src) ==> InAlphabet(src[i])
  }

  function Value(c: byte): (v: nat)
    ensures InAlphabet(c) || c == PAD ==> v < 64
  {
    if c == PAD then 0 else Lookup(c)
  }

  // The bytes of four digits: their bits in groups of eight.
  function Triple(v0: nat, v1: nat, v2: nat, v3: nat): (t: seq<byte>)
    requires v0 < 64 && v1 < 64 && v2 < 64 && v3 < 64
    ensures |t| == 3
  {
    [(v0 * 4 + v1 / 16) as byte, (v1 % 16 * 16 + v2 / 4) as byte, (v2 % 4 * 64 + v3) as byte]
  }

  // The bytes an accepted string stands for.
  function Decoded(src: seq<byte>): seq<byte>
    requires Accepts(src)
    decreases |src|
  {
    if |src| == 4 then Triple(Value(src[0]), Value(src[1]), Value(src[2]), Value(src[3]))[..3 - Padding(src)]
    else
      AcceptsRest(src);
      Triple(Value(src[0]), Value(src[1]), Value(src[2]), Value(src[3])) + Decoded(src[4..])
  }

  lemma AcceptsRest(src: seq<byte>)
    requires |src| >= 8
    ensures Accepts(src) <==>
      Accepts(src[4..]) && forall i :: 0 <= i < 4 ==> InAlphabet(src[i])
    ensures Padding(src) == Padding(src[4..])
  {
    assert Accepts(src) ==> forall i :: 0 <= i < |src| - 4 - Padding(src) ==> src[4..][i] == src[i + 4];
    if Accepts(src[4..]) && forall i :: 0 <= i < 4 ==> InAlphabet(src[i]) {
      assert |src| % 4 == |src[4..]| % 4;
      forall i | 0 <= i < |src| - Padding(src)
        ensures InAlphabet(src[i])
      {
        assert i >= 4 ==> src[i] == src[4..][i - 4];
      }
    }
  }

  // The digits read so far as one number.
  function Digits(s: seq<byte>): nat {
    if s == [] then 0 else Digits(s[..|s| - 1]) * 0x40 + Value(s[|s| - 1])
  }

  predicate AllSymbols(s: seq<byte>) {
    forall i :: 0 <= i < |s| ==> InAlphabet(s[i])
  }

  // Symbols, then p equals signs.
  predicate Shape(src: seq<byte>, p: nat) {
    p <= |src| && AllSymbols(src[..|src| - p]) && src[|src| - p..] == seq(p, _ => PAD)
  }

  // Nothing else is accepted.
  lemma AcceptsShape(src: seq<byte>)
    ensures Accepts(src) <==> src != [] && |src| % 4 == 0 && exists p :: p <= 2 && Shape(src, p)
  {
    if src != [] && |src| % 4 == 0 {
      if Accepts(src) {
        assert Shape(src, Padding(src));
      }
      if p :| p <= 2 && Shape(src, p) {
        ShapePadding(src, p);
      }
    }
  }

  lemma ShapePadding(src: seq<byte>, p: nat)
    requires |src| >= 4 && p <= 2 && Shape(src, p)
    ensures Padding(src) == p && forall i :: 0 <= i < |src| - p ==> InAlphabet(src[i])
  {
    var n := |src|;
    assert forall i :: 0 <= i < n - p ==> src[..n - p][i] == src[i];
    SymbolLookup(src[n - p - 1]);
    assert p >= 1 ==> src[n - p..][p - 1] == src[n - 1] == PAD;
    assert p == 2 ==> src[n - p..][0] == src[n - 2] == PAD;
  }

  function TripleOf(s: seq<byte>): (t: seq<byte>)
    requires |s| == 4 && forall i :: 0 <= i < 4 ==> InAlphabet(s[i]) || s[i] == PAD
    ensures |t| == 3
  {
    Triple(Value(s[0]), Value(s[1]), Value(s[2]), Value(s[3]))
  }

  // The shifts of Curl_base64_decode take the bytes out of the number.
  lemma Unpack(s: seq<byte>)
    requires |s| == 4 && forall i :: 0 <= i < 4 ==> InAlphabet(s[i]) || s[i] == PAD
    ensures var x := Digits(s); TripleOf(s) == [Low(x / 0x1_0000), Low(x / 0x100), Low(x)]
  {
    var v0, v1, v2, v3 := Value(s[0]), Value(s[1]), Value(s[2]), Value(s[3]);
    assert s[..1][..0] == [] && s[..2][..1] == s[..1] && s[..3][..2] == s[..2] && s[..4] == s;
    assert Digits(s[..1]) == v0;
    assert Digits(s[..2]) == v0 * 0x40 + v1;
    assert Digits(s[..3]) == v0 * 0x1000 + v1 * 0x40 + v2;
    assert Digits(s) == v0 * 0x4_0000 + v1 * 0x1000 + v2 * 0x40 + v3;
    UnpackNumber(v0, v1, v2, v3);
  }

  lemma UnpackNumber(v0: nat, v1: nat, v2: nat, v3: nat)
    requires v0 < 64 && v1 < 64 && v2 < 64 && v3 < 64
    ensures var x := v0 * 0x4_0000 + v1 * 0x1000 + v2 * 0x40 + v3;
      Triple(v0, v1, v2, v3) == [Low(x / 0x1_0000), Low(x / 0x100), Low(x)]
  {
    hide Triple;
    UnpackBits(v0, v1, v2, v3, v1 / 16, v1 % 16, v2 / 4, v2 % 4);
    TripleBits(v0, v1, v2, v3);
  }

  lemma TripleBits(v0: nat, v1: nat, v2: nat, v3: nat)
    requires v0 < 64 && v1 < 64 && v2 < 64 && v3 < 64
    ensures Triple(v0, v1, v2, v3) ==
      [(v0 * 4 + v1 / 16) as byte, (v1 % 16 * 16 + v2 / 4) as byte, (v2 % 4 * 64 + v3) as byte]
  {
  }

  lemma UnpackBits(v0: nat, v1: nat, v2: nat, v3: nat, a: nat, b: nat, c: nat, d: nat)
    requires v0 < 64 && a < 4 && b < 16 && c < 16 && d < 4 && v3 < 64 && v1 == a * 16 + b && v2 == c * 4 + d
    ensures var x := v0 * 0x4_0000 + v1 * 0x1000 + v2 * 0x40 + v3;
      && Low(x / 0x1_0000) == (v0 * 4 + a) as byte
      && Low(x / 0x100) == (b * 16 + c) as byte
      && Low(x) == (d * 64 + v3) as byte
  {
    var x := v0 * 0x4_0000 + v1 * 0x1000 + v2 * 0x40 + v3;
    hide Low;
    var q, m, r := v0 * 4 + a, b * 16 + c, d * 64 + v3;
    assert x == q * 0x1_0000 + m * 0x100 + r;
    Bytes(q, m, r);
  }

  lemma Bytes(q: nat, m: nat, r: nat)
    requires q < 0x100 && m < 0x100 && r < 0x100
    ensures var x := q * 0x1_0000 + m * 0x100 + r;
      Low(x / 0x1_0000) == q as byte && Low(x / 0x100) == m as byte && Low(x) == r as byte
  {
    Above(q, m * 0x100 + r);
    Middle(q, m, r);
  }

  lemma Above(q: nat, r: nat)
    requires r < 0x1_0000
    ensures (q * 0x1_0000 + r) / 0x1_0000 == q
  {
  }

  lemma Middle(q: nat, m: nat, r: nat)
    requires m < 0x100 && r < 0x100
    ensures var x := q * 0x1_0000 + m * 0x100 + r; x / 0x100 == q * 0x100 + m && x % 0x100 == r
  {
  }

  function Low(n: nat): byte {
    (n % 0x100) as byte
  }

  // What is left of a string to decode, None if it cannot be.
  function Rest(s: seq<byte>): Option<seq<byte>> {
    if s == [] then Some([]) else if Accepts(s) then Some(Decoded(s)) else None
  }

  function Prefixed(done: seq<byte>, rest: Option<seq<byte>>): Option<seq<byte>> {
    match rest
    case None => None
    case Some(t) => Some(done + t)
  }

  lemma RestStep(s: seq<byte>)
    requires |s| >= 4 && |s| % 4 == 0 && Padding(s) <= 2 && (|s| == 4 ==> Padding(s) == 0)
    ensures Rest(s) == if AllSymbols(s[..4]) then Prefixed(TripleOf(s[..4]), Rest(s[4..])) else None
  {
    hide Triple, InAlphabet;
    if |s| > 4 {
      AcceptsRest(s);
    } else {
      assert s[..4] == s && s[4..] == [];
      assert Accepts(s) <==> AllSymbols(s);
      if AllSymbols(s) {
        assert Decoded(s) == TripleOf(s)[..3] == TripleOf(s) + [];
      }
    }
  }

  lemma DigitsNone()
    ensures Digits([]) == 0 && AllSymbols([])
  {
  }

  lemma DigitsStep(s: seq<byte>, j: nat)
    requires j < |s|
    ensures Digits(s[..j + 1]) == Digits(s[..j]) * 0x40 + Value(s[j])
    ensures AllSymbols(s[..j + 1]) <==> AllSymbols(s[..j]) && InAlphabet(s[j])
    ensures Value(s[j]) == if s[j] == PAD then 0 else Lookup(s[j])
  {
    hide InAlphabet, Lookup;
    assert s[..j + 1] == s[..j] + [s[j]];
  }

  lemma AllSymbolsPart(s: seq<byte>, j: nat)
    requires j < |s| && !InAlphabet(s[j])
    ensures forall n :: j < n <= |s| ==> !AllSymbols(s[..n])
  {
    forall n | j < n <= |s|
      ensures !AllSymbols(s[..n])
    {
      assert s[..n][j] == s[j];
    }
  }

  // The loop over a full group; None at a bad symbol.
  method ReadGroup(s: seq<byte>) returns (x: Option<nat>)
    requires |s| == 4
    ensures x == if AllSymbols(s) then Some(Digits(s)) else None
  {
    hide Lookup, InAlphabet, Digits, AllSymbols, Value;
    var n := 0;
    DigitsNone();
    assert s[..0] == [] && s[..4] == s;
    for j := 0 to 4
      invariant AllSymbols(s[..j]) && n == Digits(s[..j])
    {
      SymbolLookup(s[j]);
      DigitsStep(s, j);
      var val := Lookup(s[j]);
      if val == BAD {
        AllSymbolsPart(s, j);
        return None;
      }
      n := n * 0x40 + val;
    }
    return Some(n);
  }

  function Mark(b: bool): nat {
    if b then 1 else 0
  }

  // How many of the first n characters are equals signs.
  function Signs(s: seq<byte>, n: nat): nat
    requires n <= 4 == |s|
  {
    Mark(n > 0 && s[0] == PAD) + Mark(n > 1 && s[1] == PAD) + Mark(n > 2 && s[2] == PAD) + Mark(n > 3 && s[3] == PAD)
  }

  lemma SignsStep(s: seq<byte>, j: nat)
    requires j < 4 == |s|
    ensures Signs(s, 0) == 0 && Signs(s, j + 1) == Signs(s, j) + Mark(s[j] == PAD)
  {
  }

  // The loop over the last group when the string has padding.
  method ReadLast(s: seq<byte>, padding: nat) returns (x: Option<nat>)
    requires |s| == 4 && 1 <= padding <= 2 && Padding(s) == padding
    ensures x == if AllSymbols(s[..4 - padding]) then Some(Digits(s)) else None
  {
    hide Lookup, InAlphabet, Digits, AllSymbols, Value, Signs, Padding;
    var n, padc := 0, 0;
    DigitsNone();
    SignsStep(s, 0);
    assert s[..0] == [] && s[..4] == s;
    for j := 0 to 4
      invariant padc == Signs(s, j) <= padding && n == Digits(s[..j])
      invariant forall k :: 0 <= k < j ==> InAlphabet(s[k]) || s[k] == PAD
    {
      SymbolLookup(s[j]);
      DigitsStep(s, j);
      SignsStep(s, j);
      if s[j] == PAD {
        n := n * 0x40;
        padc := padc + 1;
        if padc > padding {
          SignAmongSymbols(s, padding, j);
          return None;
        }
      } else {
        var val := Lookup(s[j]);
        if val == BAD {
          PaddingEnds(s, padding, j);
          AllSymbolsPart(s, j);
          return None;
        }
        n := n * 0x40 + val;
      }
    }
    OnlyAtEnd(s, padding);
    return Some(n);
  }

  lemma PaddingEnds(s: seq<byte>, padding: nat, j: nat)
    requires |s| == 4 && padding <= 2 && Padding(s) == padding && j < 4 && s[j] != PAD
    ensures j < 4 - padding
  {
  }

  // Where all signs are counted, those at the end, the rest are symbols.
  lemma OnlyAtEnd(s: seq<byte>, padding: nat)
    requires |s| == 4 && 1 <= padding <= 2 && Padding(s) == padding && Signs(s, 4) <= padding
    requires forall k :: 0 <= k < 4 ==> InAlphabet(s[k]) || s[k] == PAD
    ensures AllSymbols(s[..4 - padding])
  {
    hide InAlphabet;
  }

  // More signs than stand at the end: one of them is badly placed.
  lemma SignAmongSymbols(s: seq<byte>, padding: nat, j: nat)
    requires |s| == 4 && 1 <= padding <= 2 && Padding(s) == padding && j < 4
    requires Signs(s, j + 1) > padding
    ensures !AllSymbols(s[..4 - padding])
  {
    hide InAlphabet, AllSymbols, Lookup;
    var k := if s[0] == PAD then 0 else if s[1] == PAD then 1 else 2;
    assert s[k] == PAD && k < 4 - padding;
    SymbolLookup(s[k]);
    AllSymbolsPart(s, k);
  }

  // Curl_base64_decode; None is CURLE_BAD_CONTENT_ENCODING.
  method Decode(src: seq<byte>) returns (out: Option<array<byte>>, outlen: nat)
    ensures out.Some? <==> Accepts(src)
    ensures out.Some? ==> fresh(out.value) && outlen < out.value.Length && out.value[outlen] == 0
    ensures out.Some? ==> out.value[..outlen] == Decoded(src)
  {
    hide Decoded, Accepts, Digits, AllSymbols, TripleOf, Rest, Low;
    AcceptsLength(src);
    if src == [] || |src| % 4 != 0 {
      return None, 0;
    }
    var padding := 0;
    while src[|src| - 1 - padding] == PAD
      invariant padding <= 2 && Padding(src) >= padding
      decreases 3 - padding
    {
      padding := padding + 1;
      if padding > 2 {
        return None, 0;
      }
    }
    assert Padding(src) == padding;
    var quantums := |src| / 4;
    var full := quantums - if padding > 0 then 1 else 0;
    var rawlen := quantums * 3 - padding;
    var newstr := new byte[rawlen + 1];
    var pos := 0;
    assert src[0..] == src && newstr[..0] == [];
    RestWhole(src);
    for i := 0 to full
      invariant pos == 3 * i && Prefixed(newstr[..pos], Rest(src[4 * i..])) == Rest(src)
      invariant fresh(newstr)
    {
      var here := src[4 * i..];
      PaddingRest(src, 4 * i);
      assert here[4..] == src[4 * (i + 1)..];
      var ok := DecodeGroup(newstr, pos, here);
      if !ok {
        return None, 0;
      }
      pos := pos + 3;
    }
    if padding > 0 {
      var here := src[4 * full..];
      PaddingRest(src, 4 * full);
      var ok := DecodeLast(newstr, pos, here, padding);
      if !ok {
        return None, 0;
      }
      pos := pos + 3 - padding;
    } else {
      assert src[4 * full..] == [];
      RestNone();
    }
    newstr[pos] := 0;
    return Some(newstr), rawlen;
  }

  // A full group: three bytes.
  method DecodeGroup(newstr: array<byte>, pos: nat, here: seq<byte>) returns (ok: bool)
    requires |here| >= 4 && |here| % 4 == 0 && Padding(here) <= 2 && (|here| == 4 ==> Padding(here) == 0)
    requires pos + 3 < newstr.Length
    modifies newstr
    ensures !ok ==> Rest(here) == None
    ensures ok ==> Prefixed(newstr[..pos + 3], Rest(here[4..])) == Prefixed(old(newstr[..pos]), Rest(here))
  {
    hide Digits, AllSymbols, TripleOf, Rest, Low, Padding;
    RestStep(here);
    var x := ReadGroup(here[..4]);
    if x == None {
      return false;
    }
    UnpackSymbols(here[..4]);
    var triple := [Low(x.value / 0x1_0000), Low(x.value / 0x100), Low(x.value)];
    PrefixedTwice(newstr[..pos], triple, Rest(here[4..]));
    Write(newstr, pos, triple);
    return true;
  }

  // The last group of a string with padding: one or two bytes.
  method DecodeLast(newstr: array<byte>, pos: nat, here: seq<byte>, padding: nat) returns (ok: bool)
    requires |here| == 4 && 1 <= padding <= 2 && Padding(here) == padding && pos + 3 - padding < newstr.Length
    modifies newstr
    ensures ok <==> Rest(here).Some?
    ensures ok ==> Prefixed(old(newstr[..pos]), Rest(here)) == Some(newstr[..pos + 3 - padding])
  {
    hide Digits, AllSymbols, Rest, Low;
    RestLast(here);
    var x := ReadLast(here, padding);
    if x == None {
      return false;
    }
    if padding == 1 {
      var two := [Low(x.value / 0x1_0000), Low(x.value / 0x100)];
      assert [two[0], two[1], Low(x.value)][..2] == two;
      Write(newstr, pos, two);
    } else {
      var one := [Low(x.value / 0x1_0000)];
      assert [one[0], Low(x.value / 0x100), Low(x.value)][..1] == one;
      Write(newstr, pos, one);
    }
    return true;
  }

  lemma AcceptsLength(src: seq<byte>)
    ensures Accepts(src) ==> src != [] && |src| % 4 == 0 && Padding(src) <= 2
  {
  }

  lemma RestNone()
    ensures Rest([]) == Some([])
  {
  }

  lemma RestWhole(src: seq<byte>)
    requires src != []
    ensures Rest(src) == if Accepts(src) then Some(Decoded(src)) else None
    ensures Prefixed([], Rest(src)) == Rest(src)
  {
    if Accepts(src) {
      assert [] + Decoded(src) == Decoded(src);
    }
  }

  lemma PaddingRest(src: seq<byte>, k: nat)
    requires k + 4 <= |src|
    ensures Padding(src[k..]) == Padding(src)
  {
  }

  lemma UnpackSymbols(s: seq<byte>)
    requires |s| == 4 && AllSymbols(s)
    ensures var x := Digits(s); TripleOf(s) == [Low(x / 0x1_0000), Low(x / 0x100), Low(x)]
  {
    Unpack(s);
  }

  lemma PrefixedTwice(a: seq<byte>, b: seq<byte>, rest: Option<seq<byte>>)
    ensures Prefixed(a, Prefixed(b, rest)) == Prefixed(a + b, rest)
  {
    if rest.Some? {
      Regroup(a, b, rest.value);
    }
  }

  lemma RestLast(s: seq<byte>)
    requires |s| == 4 && 1 <= Padding(s) <= 2
    ensures var x := Digits(s); var p := Padding(s);
      Rest(s) == if AllSymbols(s[..4 - p]) then Some([Low(x / 0x1_0000), Low(x / 0x100), Low(x)][..3 - p]) else None
  {
    hide InAlphabet, Triple;
    var p := Padding(s);
    if AllSymbols(s[..4 - p]) {
      forall i | 0 <= i < 4
        ensures InAlphabet(s[i]) || s[i] == PAD
      {
        assert i < 4 - p ==> s[i] == s[..4 - p][i];
      }
      Unpack(s);
    } else {
      var i :| 0 <= i < 4 - p && !InAlphabet(s[..4 - p][i]);
      assert !InAlphabet(s[i]);
    }
  }

  // ---- what the two are for ----

  lemma TripleOfBytes(in0: byte, in1: byte, in2: byte)
    ensures var a, b, c := in0 as nat, in1 as nat, in2 as nat;
      Triple(a / 4, a % 4 * 16 + b / 16, b % 16 * 4 + c / 64, c % 64) == [in0, in1, in2]
  {
    var a, b, c := in0 as nat, in1 as nat, in2 as nat;
    assert (a % 4 * 16 + b / 16) / 16 == a % 4 && (a % 4 * 16 + b / 16) % 16 == b / 16;
    assert (b % 16 * 4 + c / 64) / 4 == b % 16 && (b % 16 * 4 + c / 64) % 4 == c / 64;
  }

  lemma Symbols(in0: byte, in1: byte, in2: byte)
    ensures var q := Quad(false, in0, in1, in2);
      && (forall i :: 0 <= i < 4 ==> InAlphabet(q[i]) && q[i] != PAD)
      && Triple(Value(q[0]), Value(q[1]), Value(q[2]), Value(q[3])) == [in0, in1, in2]
  {
    hide Symbol, Lookup, InAlphabet, Triple;
    LookupSymbol(in0 as nat / 4);
    LookupSymbol(in0 as nat % 4 * 16 + in1 as nat / 16);
    LookupSymbol(in1 as nat % 16 * 4 + in2 as nat / 64);
    LookupSymbol(in2 as nat % 64);
    TripleOfBytes(in0, in1, in2);
  }

  lemma TripleFront(v0: nat, v1: nat, v2: nat, v3: nat, w2: nat, w3: nat)
    requires v0 < 64 && v1 < 64 && v2 < 64 && v3 < 64 && w2 < 64 && w3 < 64
    ensures Triple(v0, v1, v2, v3)[..1] == Triple(v0, v1, w2, w3)[..1]
    ensures Triple(v0, v1, v2, v3)[..2] == Triple(v0, v1, v2, w3)[..2]
  {
  }

  lemma ShortRoundTrip(s: seq<byte>)
    requires 1 <= |s| <= 3
    ensures Accepts(Encoded(false, s)) && Decoded(Encoded(false, s)) == s
  {
    hide Quad, InAlphabet, Value, Triple, Encoded, Accepts, Decoded, Padding;
    var in1, in2 := if |s| > 1 then s[1] else 0, if |s| > 2 then s[2] else 0;
    Symbols(s[0], in1, in2);
    var q := Quad(false, s[0], in1, in2);
    EncodedStep(false, s);
    var v0, v1, v2, v3 := Value(q[0]), Value(q[1]), Value(q[2]), Value(q[3]);
    PadValue();
    if |s| == 3 {
      EncodedStep(false, s[3..]);
      assert s == [s[0], s[1], s[2]] && q + [] == q;
      DecodedShort(q, 0);
    } else if |s| == 2 {
      var e := [q[0], q[1], q[2], PAD];
      assert q[..3] + [PAD] == e && s == [s[0], s[1], 0][..2];
      DecodedShort(e, 1);
      TripleFront(v0, v1, v2, v3, v2, 0);
    } else {
      var e := [q[0], q[1], PAD, PAD];
      assert q[..2] + [PAD, PAD] == e && s == [s[0], 0, 0][..1];
      DecodedShort(e, 2);
      TripleFront(v0, v1, v2, v3, 0, 0);
    }
  }

  lemma PadValue()
    ensures Value(PAD) == 0
  {
  }

  lemma DecodedShort(e: seq<byte>, p: nat)
    requires |e| == 4 && p <= 2
    requires forall i :: 0 <= i < 4 ==> if i < 4 - p then InAlphabet(e[i]) && e[i] != PAD else e[i] == PAD
    ensures Accepts(e) && Decoded(e) == Triple(Value(e[0]), Value(e[1]), Value(e[2]), Value(e[3]))[..3 - p]
  {
    hide InAlphabet, Triple, Value;
    assert Padding(e) == p;
  }

  // Decoding inverts encoding on every byte string that is not empty.
  lemma {:induction false} RoundTrip(s: seq<byte>)
    requires s != []
    ensures Accepts(Encoded(false, s)) && Decoded(Encoded(false, s)) == s
    decreases |s|
  {
    hide Quad, InAlphabet, Triple, Value, Padding;
    if |s| > 3 {
      Symbols(s[0], s[1], s[2]);
      var q, e := Quad(false, s[0], s[1], s[2]), Encoded(false, s);
      RoundTrip(s[3..]);
      assert e == q + e[4..] && e[4..] == Encoded(false, s[3..]);
      EncodedLength(false, s[3..]);
      AcceptsRest(e);
      assert s == [s[0], s[1], s[2]] + s[3..];
    } else {
      ShortRoundTrip(s);
    }
  }

  // The bits of the last symbol that no byte takes are zero (RFC 4648, section 3.5).
  predicate SpareBitsZero(src: seq<byte>)
    requires Accepts(src)
  {
    var p := Padding(src);
    (p == 1 ==> Value(src[|src| - 2]) % 4 == 0) && (p == 2 ==> Value(src[|src| - 3]) % 16 == 0)
  }

  // The digits of three bytes made of four digits are these digits.
  lemma QuadOfTriple(v0: nat, v1: nat, v2: nat, v3: nat)
    requires v0 < 64 && v1 < 64 && v2 < 64 && v3 < 64
    ensures var t := Triple(v0, v1, v2, v3);
      Quad(false, t[0], t[1], t[2]) == [Symbol(false, v0), Symbol(false, v1), Symbol(false, v2), Symbol(false, v3)]
    ensures var t := Triple(v0, v1, v2, v3);
      Quad(false, t[0], t[1], 0)[..3] == [Symbol(false, v0), Symbol(false, v1), Symbol(false, v2 / 4 * 4)]
    ensures var t := Triple(v0, v1, v2, v3);
      Quad(false, t[0], 0, 0)[..2] == [Symbol(false, v0), Symbol(false, v1 / 16 * 16)]
  {
    hide Symbol;
    assert (v0 * 4 + v1 / 16) / 4 == v0 && (v0 * 4 + v1 / 16) % 4 == v1 / 16;
    assert (v1 % 16 * 16 + v2 / 4) / 16 == v1 % 16 && (v1 % 16 * 16 + v2 / 4) % 16 == v2 / 4;
    assert (v2 % 4 * 64 + v3) / 64 == v2 % 4 && (v2 % 4 * 64 + v3) % 64 == v3;
  }

  lemma SymbolInjective(v: nat, w: nat)
    requires v < 64 && w < 64
    ensures Symbol(false, v) == Symbol(false, w) <==> v == w
  {
  }

  lemma ShortReEncode(src: seq<byte>)
    requires Accepts(src) && |src| == 4
    ensures Encoded(false, Decoded(src)) == src <==> SpareBitsZero(src)
  {
    hide Symbol, Quad, Triple, Lookup;
    SymbolLookup(src[0]);
    SymbolLookup(src[1]);
    SymbolLookup(src[2]);
    SymbolLookup(src[3]);
    var v0, v1, v2, v3 := Value(src[0]), Value(src[1]), Value(src[2]), Value(src[3]);
    var t, d := Triple(v0, v1, v2, v3), Decoded(src);
    QuadOfTriple(v0, v1, v2, v3);
    EncodedStep(false, d);
    if Padding(src) == 0 {
      assert d == t && d[3..] == [] && Encoded(false, d[3..]) == [];
    } else if Padding(src) == 1 {
      assert Encoded(false, d) == [Symbol(false, v0), Symbol(false, v1), Symbol(false, v2 / 4 * 4), PAD];
      SymbolInjective(v2, v2 / 4 * 4);
    } else {
      assert Encoded(false, d) == [Symbol(false, v0), Symbol(false, v1 / 16 * 16), PAD, PAD];
      SymbolInjective(v1, v1 / 16 * 16);
    }
  }

  // Encoding what was decoded gives the string back just when its spare bits are zero.
  lemma {:induction false} ReEncode(src: seq<byte>)
    requires Accepts(src)
    ensures Encoded(false, Decoded(src)) == src <==> SpareBitsZero(src)
    decreases |src|
  {
    hide Symbol, Quad, Triple, Lookup, InAlphabet, Value;
    if |src| > 4 {
      AcceptsRest(src);
      SymbolLookup(src[0]);
      SymbolLookup(src[1]);
      SymbolLookup(src[2]);
      SymbolLookup(src[3]);
      ValueSymbol(src[0]);
      ValueSymbol(src[1]);
      ValueSymbol(src[2]);
      ValueSymbol(src[3]);
      var t, rest := Triple(Value(src[0]), Value(src[1]), Value(src[2]), Value(src[3])), Decoded(src[4..]);
      QuadOfTriple(Value(src[0]), Value(src[1]), Value(src[2]), Value(src[3]));
      ReEncode(src[4..]);
      EncodedStep(false, t + rest);
      assert (t + rest)[3..] == rest;
      assert src == [src[0], src[1], src[2], src[3]] + src[4..];
      assert Encoded(false, Decoded(src)) == [src[0], src[1], src[2], src[3]] + Encoded(false, rest);
      SameFront([src[0], src[1], src[2], src[3]], Encoded(false, rest), src[4..]);
    } else {
      ShortReEncode(src);
    }
  }

  lemma ValueSymbol(c: byte)
    requires InAlphabet(c)
    ensures Value(c) < 64 && Symbol(false, Value(c)) == c
  {
  }

  lemma SameFront(a: seq<byte>, b: seq<byte>, c: seq<byte>)
    ensures a + b == a + c <==> b == c
  {
    if a + b == a + c {
      assert b == (a + b)[|a|..] == (a + c)[|a|..] == c;
    }
  }

  // ---- the URL alphabet ----

  function Unpadded(s: seq<byte>): seq<byte> {
    if s != [] && s[|s| - 1] == PAD then Unpadded(s[..|s| - 1]) else s
  }

  // Minus for plus, underscore for slash.
  function Swapped(s: seq<byte>): (r: seq<byte>)
    ensures |r| == |s|
  {
    seq(|s|, i requires 0 <= i < |s| => if s[i] == 43 then 45 else if s[i] == 47 then 95 else s[i])
  }

  lemma SwappedConcat(a: seq<byte>, b: seq<byte>)
    ensures Swapped(a + b) == Swapped(a) + Swapped(b)
  {
  }

  lemma {:induction false} UnpaddedConcat(a: seq<byte>, b: seq<byte>)
    requires a != [] && a[|a| - 1] != PAD
    ensures Unpadded(a + b) == a + Unpadded(b)
    decreases |b|
  {
    if b == [] {
      assert a + b == a;
    } else if b[|b| - 1] == PAD {
      assert (a + b)[..|a + b| - 1] == a + b[..|b| - 1];
      UnpaddedConcat(a, b[..|b| - 1]);
    }
  }

  lemma QuadSwapped(in0: byte, in1: byte, in2: byte)
    ensures Quad(true, in0, in1, in2) == Swapped(Quad(false, in0, in1, in2))
    ensures forall i :: 0 <= i < 4 ==> Quad(false, in0, in1, in2)[i] != PAD
  {
  }

  // The URL form is the standard form with two characters changed and the padding dropped.
  lemma {:induction false} UrlForm(s: seq<byte>)
    ensures Encoded(true, s) == Swapped(Unpadded(Encoded(false, s)))
    decreases |s|
  {
    hide Quad, Swapped;
    EncodedStep(true, s);
    EncodedStep(false, s);
    var q := if s == [] then [] else Quad(false, s[0], if |s| > 1 then s[1] else 0, if |s| > 2 then s[2] else 0);
    if |s| >= 3 {
      UrlForm(s[3..]);
      QuadSwapped(s[0], s[1], s[2]);
      UnpaddedConcat(q, Encoded(false, s[3..]));
      SwappedConcat(q, Unpadded(Encoded(false, s[3..])));
    } else if |s| == 2 {
      QuadSwapped(s[0], s[1], 0);
      UnpaddedConcat(q[..3], [PAD]);
      SwappedPrefix(q, 3);
    } else if |s| == 1 {
      QuadSwapped(s[0], 0, 0);
      UnpaddedConcat(q[..2], [PAD, PAD]);
      TwoPads();
      assert q[..2] + [] == q[..2];
      assert Encoded(false, s) == q[..2] + [PAD, PAD] && Encoded(true, s) == Quad(true, s[0], 0, 0)[..2];
      SwappedPrefix(q, 2);
    } else {
      assert Swapped([]) == [];
    }
  }

  lemma TwoPads()
    ensures Unpadded([PAD, PAD]) == []
  {
    assert [PAD, PAD][..1] == [PAD] && [PAD][..0] == [];
    assert Unpadded([PAD]) == Unpadded([]);
  }

  lemma SwappedPrefix(s: seq<byte>, n: nat)
    requires n <= |s|
    ensures Swapped(s[..n]) == Swapped(s)[..n]
  {
  }
}
