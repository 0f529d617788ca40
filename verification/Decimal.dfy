/**
 Decimal numerals as bytes, as strconv.Itoa writes them for numbers that are not negative, and reading them back.
 */
module Decimal {
  import opened Bytes

  predicate IsDigit(b: byte) {
    0x30 <= b <= 0x39
  }

  function Digits(n: nat): (s: bytes)
    ensures s != [] && forall i :: 0 <= i < |s| ==> IsDigit(s[i])
  {
    if n < 10 then [0x30 + n] else Digits(n / 10) + [0x30 + n % 10]
  }

  function Parse(s: bytes): (n: Option<nat>)
    decreases |s|
  {
    if s == [] || !IsDigit(s[|s| - 1]) then None
    else if |s| == 1 then Some(s[0] - 0x30)
    else
      match Parse(s[..|s| - 1])
      case None => None
      case Some(n) => Some(n * 10 + (s[|s| - 1] - 0x30))
  }

  lemma {:induction false} RoundTrip(n: nat)
    ensures Parse(Digits(n)) == Some(n)
  {
    if n >= 10 {
      RoundTrip(n / 10);
      var s := Digits(n);
      assert s[..|s| - 1] == Digits(n / 10) && s[|s| - 1] == 0x30 + n % 10;
    }
  }
}
