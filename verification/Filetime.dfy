// curl-8.13.0/lib/curl_ntlm_core.c: time2filetime, with and without 64-bit arithmetic.

module Filetime {

  const W: int := 0x1_0000_0000             // one more than the largest unsigned int
  const WW: int := 0x1_0000_0000_0000_0000
  const BIAS: int := 11644473600            // seconds from 1601 to 1970
  const TICKS: int := 10000000              // tenths of a microsecond in a second

  type word = n: int | 0 <= n < 0x1_0000_0000

  // struct ms_filetime: two words for one 64-bit number in two's complement.
  datatype MsFiletime = MsFiletime(dwLowDateTime: word, dwHighDateTime: word)

  function Value(ft: MsFiletime): (v: nat)
    ensures v < WW
  {
    ft.dwHighDateTime * W + ft.dwLowDateTime
  }

  // A 64-bit number has one pair of words.
  lemma ValueInjective(a: MsFiletime, b: MsFiletime)
    requires Value(a) == Value(b)
    ensures a == b
  {
    assert a.dwLowDateTime == Value(a) % W;
    assert b.dwLowDateTime == Value(b) % W;
  }

  // The branch for a time_t of more than four bytes. The signed result must not overflow.
  method Wide(t: int) returns (ft: MsFiletime)
    requires -0x8000_0000_0000_0000 <= (t + BIAS) * TICKS < 0x8000_0000_0000_0000
    ensures Value(ft) == (t + BIAS) * TICKS % WW
  {
    var t' := (t + BIAS) * TICKS;
    ft := MsFiletime(t' % W, (t' / W) % W);
    WordsOf(t');
  }

  lemma WordsOf(n: int)
    ensures (n / W) % W * W + n % W == n % WW
  {
    assert n == n / W * W + n % W;
    assert n / W == n / W / W * W + n / W % W;
    assert n == n / W / W * WW + ((n / W) % W * W + n % W);
    Remainder(n, n / W / W, (n / W) % W * W + n % W, WW);
  }

  // Quotient and remainder are the only ones.
  lemma Remainder(n: int, q: int, r: int, d: nat)
    requires n == q * d + r && 0 <= r < d
    ensures n % d == r && n / d == q
  {
    var k := n / d - q;
    assert k * d == r - n % d;
    assert k >= 1 ==> k * d >= d;
    assert k <= -1 ==> k * d + d <= 0;
  }

  // The branch for a time_t of four bytes, signed or not.
  method Narrow(t: int, isUnsigned: bool) returns (ft: MsFiletime)
    requires if isUnsigned then 0 <= t < W else -0x8000_0000 <= t < 0x8000_0000
    ensures Value(ft) == (t + BIAS) * TICKS % WW
  {
    var low, high: word := t % W, 0;
    if !isUnsigned && low >= 0x8000_0000 {
      high := W - 1;
    }
    assert high * W + low == if t < 0 then t + WW else t;
    low, high := Bias(low, high);
    BiasMod(t);
    low, high := Multiply(low, high);
    ft := MsFiletime(low, high);
    MulMod(t + BIAS, TICKS);
  }

  method Bias(low0: word, high0: word) returns (low: word, high: word)
    ensures high * W + low == (high0 * W + low0 + BIAS) % WW
  {
    var r := low0;
    low := (low0 + 0xB6109100) % W;
    high := (high0 + if low < r then 3 else 2) % W;
    ghost var c := (high0 + if low < r then 3 else 2) / W;
    Remainder(high0 * W + low0 + BIAS, c, high * W + low, WW);
  }

  lemma BiasMod(t: int)
    requires -W < t < W
    ensures ((if t < 0 then t + WW else t) + BIAS) % WW == (t + BIAS) % WW
  {
    var q, r := (t + BIAS) / WW, (t + BIAS) % WW;
    if t < 0 {
      Remainder(t + WW + BIAS, q + 1, r, WW);
    }
  }

  lemma MulMod(a: int, k: int)
    ensures (a % WW) * k % WW == a * k % WW
  {
    var q, r := a / WW, a % WW;
    var q', r' := r * k / WW, r * k % WW;
    assert a * k == (q * WW + r) * k == (q * k) * WW + r * k == (q * k + q') * WW + r';
    Remainder(a * k, q * k + q', r', WW);
  }

  predicate AtByte(i: nat) {
    i == 0 || i == 8 || i == 16 || i == 24
  }

  // 1 << i
  function Weight(i: nat): (d: nat)
    requires AtByte(i) || i == 32
    ensures d > 0
  {
    if i == 0 then 1 else if i == 8 then 0x100 else if i == 16 then 0x1_0000 else if i == 24 then 0x100_0000 else W
  }

  // 1 << (31 - i)
  function Half(i: nat): (d: nat)
    requires AtByte(i)
    ensures d > 0
  {
    if i == 0 then 0x8000_0000 else if i == 8 then 0x80_0000 else if i == 16 then 0x8000 else 0x80
  }

  // The multiplication by ten million, byte by byte of the low word while that is being changed.
  method Multiply(low0: word, high0: word) returns (low: word, high: word)
    ensures high * W + low == (high0 * W + low0) * TICKS % WW
  {
    hide Weight, Half;
    low, high := low0, high0 * TICKS % W;
    ghost var q := high0 * TICKS / W;  // what has overflowed so far
    assert high0 * TICKS == q * W + high;
    WeightEnds();
    var i: nat := 32;
    while i > 0
      invariant i == 32 || AtByte(i)
      invariant low % Weight(i) == low0 % Weight(i)
      invariant q * WW + high * W + low
             == high0 * TICKS * W + low0 + (low0 - low0 % Weight(i)) * (TICKS - 1)
    {
      i := i - 8;
      ByteOf(low, low0, i);
      ghost var q';
      low, high, q' := AddByte(low, high, i);
      q := q + q';
    }
    assert q * WW + high * W + low == (high0 * W + low0) * TICKS;
    Remainder((high0 * W + low0) * TICKS, q, high * W + low, WW);
  }

  // One turn of the loop adds the byte's share to the 64-bit number.
  method AddByte(low0: word, high0: word, i: nat) returns (low: word, high: word, ghost q: int)
    requires AtByte(i)
    ensures q * WW + high * W + low == high0 * W + low0 + (ByteAt(low0, i) * (TICKS - 1)) * Weight(i)
    ensures low % Weight(i) == low0 % Weight(i)
  {
    hide Weight, Half;
    var s: word := ByteAt(low0, i) * (TICKS - 1);
    var r: word := s * Weight(i) % W;
    ShiftSplit(s, i);
    ghost var shifted := s * Weight(i);
    s := s / 2;
    s := s / Half(i);
    ghost var up, carry := s, if (low0 + r) % W < r then 1 else 0;
    low := (low0 + r) % W;
    if low < r {
      s := s + 1;
    }
    high := (high0 + s) % W;
    q := (high0 + s) / W;
    Carries(low0, high0, shifted, up, r, carry, low, high, q);
    LowBits(low0, low, r, i);
  }

  // (low0 >> i) & 0xFF
  function ByteAt(low0: word, i: nat): (b: nat)
    requires AtByte(i)
    ensures b <= 0xFF && b == low0 / Weight(i) % 0x100
  {
    low0 / Weight(i) % 0x100
  }

  // The sum of two 64-bit numbers, word by word.
  lemma Carries(low0: word, high0: word, shifted: nat, up: nat, r: word, carry: nat, low: word, high: word, q: int)
    requires shifted == up * W + r
    requires low == (low0 + r) % W && carry == if low < r then 1 else 0
    requires high == (high0 + up + carry) % W && q == (high0 + up + carry) / W
    ensures q * WW + high * W + low == high0 * W + low0 + shifted
  {
    assert low == low0 + r - carry * W;
    assert q * W + high == high0 + up + carry;
  }

  lemma WeightEnds()
    ensures Weight(0) == 1 && Weight(32) == W
  {
  }

  // What the first shift and the mask leave of s << i is the part the two other shifts drop.
  predicate Splits(s: word, d: nat, h: nat)
    requires h > 0 && d > 0
  {
    s * d == s / 2 / h * W + s * d % W && (s * d % W) % d == 0 && s / 2 / h < W - 1
  }

  lemma ShiftSplit(s: word, i: nat)
    requires AtByte(i)
    ensures Splits(s, Weight(i), Half(i))
  {
    hide Splits;
    if i == 0 {
      Shift0(s);
    } else if i == 8 {
      Shift8(s, s / 0x100_0000, s % 0x100_0000);
    } else if i == 16 {
      Shift16(s, s / 0x1_0000, s % 0x1_0000);
    } else {
      Shift24(s, s / 0x100, s % 0x100);
    }
  }

  lemma Shift0(s: word)
    ensures Splits(s, 1, 0x8000_0000)
  {
  }

  lemma Shift8(s: word, k: nat, m: nat)
    requires s == k * 0x100_0000 + m && m < 0x100_0000
    ensures Splits(s, 0x100, 0x80_0000)
  {
    Remainder(s * 0x100, k, m * 0x100, W);
    Remainder(s / 2, k, m / 2, 0x80_0000);
  }

  lemma Shift16(s: word, k: nat, m: nat)
    requires s == k * 0x1_0000 + m && m < 0x1_0000
    ensures Splits(s, 0x1_0000, 0x8000)
  {
    Remainder(s * 0x1_0000, k, m * 0x1_0000, W);
    Remainder(s / 2, k, m / 2, 0x8000);
  }

  lemma Shift24(s: word, k: nat, m: nat)
    requires s == k * 0x100 + m && m < 0x100
    ensures Splits(s, 0x100_0000, 0x80)
  {
    Remainder(s * 0x100_0000, k, m * 0x100_0000, W);
    Remainder(s / 2, k, m / 2, 0x80);
  }

  lemma LowBits(low0: word, low: word, r: word, i: nat)
    requires AtByte(i) && r % Weight(i) == 0 && low == (low0 + r) % W
    ensures low % Weight(i) == low0 % Weight(i)
  {
    var d, c := Weight(i), (low0 + r) / W;
    var k, e := r / d, 2 * Half(i);
    assert W == e * d;
    assert low == low0 + r - c * W == low0 + k * d - c * e * d;
    var m := low0 / d + k - c * e;
    assert low == m * d + low0 % d;
    Remainder(low, m, low0 % d, d);
  }

  lemma Products(q: nat, b: nat, d: nat)
    ensures q * (0x100 * d) + b * d == (q * 0x100 + b) * d
    ensures b * d < 0x100 * d ==> b < 0x100
  {
    if b >= 0x100 {
      assert b * d == 0x100 * d + (b - 0x100) * d;
    }
  }

  lemma Parts(n: nat, d: nat, q: nat, b: nat, low: nat)
    requires n == (q * 0x100 + b) * d + low && low < d
    ensures n / d == q * 0x100 + b && n % d == low
  {
    Remainder(n, q * 0x100 + b, low, d);
  }

  // The byte at i of a number, and the number without what is below.
  lemma Digit(n: word, i: nat)
    requires AtByte(i)
    ensures var d, e := Weight(i), Weight(i + 8);
      && n / d % 0x100 == n % e / d && n % d == n % e % d
      && n - n % d == n - n % e + n / d % 0x100 * d
  {
    if i == 0 {
      DigitOf(n, 1, 0x100, n / 0x100, n % 0x100, n % 0x100 / 1, n % 0x100 % 1);
    } else if i == 8 {
      DigitOf(n, 0x100, 0x1_0000, n / 0x1_0000, n % 0x1_0000, n % 0x1_0000 / 0x100, n % 0x1_0000 % 0x100);
    } else if i == 16 {
      var r := n % 0x100_0000;
      DigitOf(n, 0x1_0000, 0x100_0000, n / 0x100_0000, r, r / 0x1_0000, r % 0x1_0000);
    } else {
      DigitOf(n, 0x100_0000, W, n / W, n % W, n % W / 0x100_0000, n % W % 0x100_0000);
    }
  }

  lemma DigitOf(n: nat, d: nat, e: nat, q: nat, rest: nat, b: nat, low: nat)
    requires d > 0 && e == 0x100 * d
    requires n == q * e + rest && rest < e && rest == b * d + low && low < d
    ensures n / d % 0x100 == b && n % d == low && n / d % 0x100 * d == b * d
  {
    Products(q, b, d);
    Parts(n, d, q, b, low);
  }

  // The byte at i is still that of the start; taken together with the bytes above it makes up the number
  // without what is below.
  lemma ByteOf(low: word, low0: word, i: nat)
    requires AtByte(i) && low % Weight(i + 8) == low0 % Weight(i + 8)
    ensures low % Weight(i) == low0 % Weight(i)
    ensures var b := low / Weight(i) % 0x100;
      && b == low0 / Weight(i) % 0x100
      && (low0 - low0 % Weight(i)) * (TICKS - 1) ==
         (low0 - low0 % Weight(i + 8)) * (TICKS - 1) + (b * (TICKS - 1)) * Weight(i)
  {
    var d := Weight(i);
    assert Weight(i + 8) == 0x100 * d;
    Digit(low, i);
    Digit(low0, i);
    var b := low / d % 0x100;
    assert (b * (TICKS - 1)) * d == b * d * (TICKS - 1);
  }
}
