// curl-8.13.0/lib/base64.c against RFC 4648: which symbol stands for which bits.

module Base64Bits {
  import opened Common
  import opened Base64

  // A to Z, a to z, 0 to 9, and the last two.
  const CAPITALS: seq<byte> := [
    65, 66, 67, 68, 69, 70, 71, 72, 73, 74, 75, 76, 77,
    78, 79, 80, 81, 82, 83, 84, 85, 86, 87, 88, 89, 90
  ]
  const SMALL: seq<byte> := [
    97, 98, 99, 100, 101, 102, 103, 104, 105, 106, 107, 108, 109,
    110, 111, 112, 113, 114, 115, 116, 117, 118, 119, 120, 121, 122
  ]
  const FIGURES: seq<byte> := [48, 49, 50, 51, 52, 53, 54, 55, 56, 57]
  const LAST: seq<byte> := [43, 47]
  const URL_LAST: seq<byte> := [45, 95]

  // The symbols have the order of the tables in sections 4 and 5 of RFC 4648.
  lemma SymbolTable(url: bool, v: nat)
    requires v < 64
    ensures var table := CAPITALS + SMALL + FIGURES + if url then URL_LAST else LAST;
      |table| == 64 && Symbol(url, v) == table[v] && (!url ==> Lookup(table[v]) == v)
  {
    LookupSymbol(v);
    Listed();
    if v < 26 {
      CapitalAt(v);
    } else if v < 52 {
      SmallAt(v - 26);
    } else if v < 62 {
      FigureAt(v - 52);
    }
  }

  lemma Listed()
    ensures |CAPITALS| == |SMALL| == 26 && |FIGURES| == 10 && |LAST| == |URL_LAST| == 2
    ensures LAST[0] == 43 && LAST[1] == 47 && URL_LAST[0] == 45 && URL_LAST[1] == 95
  {
  }

  lemma CapitalAt(k: nat)
    requires k < 26
    ensures |CAPITALS| == 26 && CAPITALS[k] == 65 + k as byte
  {
  }

  lemma SmallAt(k: nat)
    requires k < 26
    ensures |SMALL| == 26 && SMALL[k] == 97 + k as byte
  {
  }

  lemma FigureAt(k: nat)
    requires k < 10
    ensures |FIGURES| == 10 && FIGURES[k] == 48 + k as byte
  {
  }

  // Bit i of a byte string, the highest bit of each byte first; 0 behind its end.
  function Bit(s: seq<byte>, i: nat): (b: nat)
    ensures b < 2
  {
    if i / 8 < |s| then s[i / 8] as nat / Power(7 - i % 8) % 2 else 0
  }

  function Power(k: nat): (p: nat)
    ensures p > 0
  {
    if k == 0 then 1 else 2 * Power(k - 1)
  }

  // Six bits as a number.
  function Sextet(s: seq<byte>, k: nat): (v: nat)
    ensures v < 64
  {
    32 * Bit(s, 6 * k) + 16 * Bit(s, 6 * k + 1) + 8 * Bit(s, 6 * k + 2)
    + 4 * Bit(s, 6 * k + 3) + 2 * Bit(s, 6 * k + 4) + Bit(s, 6 * k + 5)
  }

  lemma Halves(n: nat)
    ensures n / 2 == 2 * (n / 4) + n / 2 % 2 && n / 4 == 2 * (n / 8) + n / 4 % 2
    ensures n / 8 == 2 * (n / 16) + n / 8 % 2 && n / 16 == 2 * (n / 32) + n / 16 % 2
    ensures n / 32 == 2 * (n / 64) + n / 32 % 2 && n / 64 == 2 * (n / 128) + n / 64 % 2
  {
    assert n / 2 / 2 == n / 4;
    assert n / 4 / 2 == n / 8;
    assert n / 8 / 2 == n / 16;
    assert n / 16 / 2 == n / 32;
    assert n / 32 / 2 == n / 64;
    assert n / 64 / 2 == n / 128;
  }

  // Parts of a byte by its eight bits.
  lemma ByteBits(n: nat)
    requires n < 256
    ensures var b: seq<nat> := BitsOf(n);
      && n / 4 == 32 * b[0] + 16 * b[1] + 8 * b[2] + 4 * b[3] + 2 * b[4] + b[5] && n % 4 == 2 * b[6] + b[7]
      && n / 16 == 8 * b[0] + 4 * b[1] + 2 * b[2] + b[3] && n % 16 == 8 * b[4] + 4 * b[5] + 2 * b[6] + b[7]
      && n / 64 == 2 * b[0] + b[1]
      && n % 64 == 32 * b[2] + 16 * b[3] + 8 * b[4] + 4 * b[5] + 2 * b[6] + b[7]
  {
    Halves(n);
    assert n / 128 == n / 128 % 2;
    assert n == 2 * (n / 2) + n % 2;
    assert n == 4 * (n / 4) + n % 4 && n == 16 * (n / 16) + n % 16 && n == 64 * (n / 64) + n % 64;
  }

  function BitsOf(n: nat): (b: seq<nat>)
    ensures |b| == 8
  {
    [n / 128 % 2, n / 64 % 2, n / 32 % 2, n / 16 % 2, n / 8 % 2, n / 4 % 2, n / 2 % 2, n % 2]
  }

  // The bits of byte k.
  lemma BitOf(s: seq<byte>, k: nat, j: nat)
    requires j < 8
    ensures Bit(s, 8 * k + j) == BitsOf(ByteAt(s, k))[j]
  {
    assert (8 * k + j) / 8 == k && (8 * k + j) % 8 == j;
    PowerIs(j);
  }

  lemma PowerIs(j: nat)
    requires j < 8
    ensures Power(7 - j) == [128, 64, 32, 16, 8, 4, 2, 1][j]
  {
    assert Power(0) == 1 && Power(1) == 2 && Power(2) == 4 && Power(3) == 8;
    assert Power(4) == 16 && Power(5) == 32 && Power(6) == 64 && Power(7) == 128;
  }

  lemma BitsIn(s: seq<byte>, k: nat)
    ensures forall j :: 0 <= j < 8 ==> Bit(s, 8 * k + j) == BitsOf(ByteAt(s, k))[j]
  {
    forall j: nat | j < 8
      ensures Bit(s, 8 * k + j) == BitsOf(ByteAt(s, k))[j]
    {
      BitOf(s, k, j);
    }
  }

  function ByteAt(s: seq<byte>, i: nat): nat {
    if i < |s| then s[i] as nat else 0
  }

  // The first four groups of six bits are those that Quad takes.
  lemma FirstSextets(s: seq<byte>)
    ensures var in0, in1, in2 := ByteAt(s, 0), ByteAt(s, 1), ByteAt(s, 2);
      && Sextet(s, 0) == in0 / 4 && Sextet(s, 1) == in0 % 4 * 16 + in1 / 16
      && Sextet(s, 2) == in1 % 16 * 4 + in2 / 64 && Sextet(s, 3) == in2 % 64
  {
    hide Bit, BitsOf, ByteAt;
    BitsIn(s, 0);
    BitsIn(s, 1);
    BitsIn(s, 2);
    var b0, b1, b2 := BitsOf(ByteAt(s, 0)), BitsOf(ByteAt(s, 1)), BitsOf(ByteAt(s, 2));
    assert Bit(s, 0) == b0[0] && Bit(s, 1) == b0[1] && Bit(s, 2) == b0[2] && Bit(s, 3) == b0[3];
    assert Bit(s, 4) == b0[4] && Bit(s, 5) == b0[5] && Bit(s, 6) == b0[6] && Bit(s, 7) == b0[7];
    assert Bit(s, 8 + 0) == b1[0] && Bit(s, 8 + 1) == b1[1] && Bit(s, 8 + 2) == b1[2] && Bit(s, 8 + 3) == b1[3];
    assert Bit(s, 8 + 4) == b1[4] && Bit(s, 8 + 5) == b1[5] && Bit(s, 8 + 6) == b1[6] && Bit(s, 8 + 7) == b1[7];
    assert Bit(s, 16 + 0) == b2[0] && Bit(s, 16 + 1) == b2[1] && Bit(s, 16 + 2) == b2[2] && Bit(s, 16 + 3) == b2[3];
    assert Bit(s, 16 + 4) == b2[4] && Bit(s, 16 + 5) == b2[5] && Bit(s, 16 + 6) == b2[6] && Bit(s, 16 + 7) == b2[7];
    ByteSmall(s);
    ByteBits(ByteAt(s, 0));
    ByteBits(ByteAt(s, 1));
    ByteBits(ByteAt(s, 2));
  }

  lemma ByteSmall(s: seq<byte>)
    ensures forall i: nat :: ByteAt(s, i) < 256
  {
  }

  lemma LaterSextets(s: seq<byte>, k: nat)
    requires |s| >= 3 && k >= 4
    ensures Sextet(s, k) == Sextet(s[3..], k - 4)
  {
    hide Bit;
    var i := 6 * k;
    BitLater(s, i);
    BitLater(s, i + 1);
    BitLater(s, i + 2);
    BitLater(s, i + 3);
    BitLater(s, i + 4);
    BitLater(s, i + 5);
  }

  lemma BitLater(s: seq<byte>, i: nat)
    requires |s| >= 3 && i >= 24
    ensures Bit(s, i) == Bit(s[3..], i - 24)
  {
    hide Power;
    assert (i - 24) / 8 == i / 8 - 3 && (i - 24) % 8 == i % 8;
  }

  // Symbol k of an encoding stands for the bits from 6 * k on, and behind the symbols is the padding.
  lemma {:induction false} EncodedAt(url: bool, s: seq<byte>, k: nat)
    requires k < |Encoded(url, s)|
    ensures Encoded(url, s)[k] == if 6 * k < 8 * |s| then Symbol(url, Sextet(s, k)) else 61
    decreases |s|
  {
    hide Symbol, Sextet;
    FirstSextets(s);
    if |s| >= 3 && k >= 4 {
      LaterSextets(s, k);
      EncodedAt(url, s[3..], k - 4);
    }
  }

  // Vectors of RFC 4648, section 10: f, fo, foo, foobar.
  lemma TestVectors()
    ensures Encoded(false, [102]) == [90, 103, 61, 61]
    ensures Encoded(false, [102, 111]) == [90, 109, 56, 61]
    ensures Encoded(false, [102, 111, 111]) == [90, 109, 57, 118]
    ensures Encoded(false, [102, 111, 111, 98, 97, 114]) == [90, 109, 57, 118, 89, 109, 70, 121]
  {
    var foobar: seq<byte> := [102, 111, 111, 98, 97, 114];
    assert foobar[3..] == [98, 97, 114] && foobar[3..][3..] == [] && foobar[..3][3..] == [];
  }
}
