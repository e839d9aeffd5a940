// curl-8.13.0/lib/strcase.c and strparse.c: comparing without case, reading numbers.

module StrParse {
  import opened Common

  const OFF_T_MAX: int := 0x7FFF_FFFF_FFFF_FFFF  // CURL_OFF_T_MAX

  // Curl_raw_toupper
  function Upper(c: byte): byte {
    if 97 <= c <= 122 then c - 32 else c
  }

  // strcasecompare
  predicate CiEq(a: seq<byte>, b: seq<byte>) {
    |a| == |b| && forall i :: 0 <= i < |a| ==> Upper(a[i]) == Upper(b[i])
  }

  // Two letters of either case, or the same byte twice.
  lemma CiEqMeans(a: seq<byte>, b: seq<byte>)
    ensures CiEq(a, b) <==>
      |a| == |b| && forall i :: 0 <= i < |a| ==>
        || a[i] == b[i]
        || (65 <= a[i] <= 90 && b[i] as nat == a[i] as nat + 32)
        || (65 <= b[i] <= 90 && a[i] as nat == b[i] as nat + 32)
  {
    assert forall i :: 0 <= i < |a| && |a| == |b| ==>
      (Upper(a[i]) == Upper(b[i]) <==>
       || a[i] == b[i]
       || (65 <= a[i] <= 90 && b[i] as nat == a[i] as nat + 32)
       || (65 <= b[i] <= 90 && a[i] as nat == b[i] as nat + 32));
  }

  // strncasecompare
  predicate CiEqN(a: seq<byte>, b: seq<byte>, n: nat) {
    CiEq(a[..Min(n, |a|)], b[..Min(n, |b|)])
  }

  predicate IsDigit(c: byte) {
    48 <= c <= 57
  }

  // Curl_str_number with the largest curl_off_t as limit; what follows the digits does not matter.
  function NumberFrom(s: seq<byte>, num: nat): Option<nat> {
    if s == [] || !IsDigit(s[0]) then Some(num)
    else
      var n := s[0] as nat - 48;
      if num > (OFF_T_MAX - n) / 10 then None else NumberFrom(s[1..], num * 10 + n)
  }

  function Number(s: seq<byte>): Option<nat> {
    if s == [] || !IsDigit(s[0]) then None else NumberFrom(s, 0)
  }
}
