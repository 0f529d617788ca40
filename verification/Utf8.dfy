/** UTF-8 runes (section 3 of RFC 3629), decoded the way a Go string is walked: an invalid byte counts as one rune. */
module Utf8 {
  import opened Bytes

  predicate Continuation(b: byte) {
    0x80 <= b <= 0xBF
  }

  /** Exactly one well-formed UTF-8 sequence. */
  predicate IsRune(s: bytes) {
    match |s|
    case 1 => s[0] <= 0x7F
    case 2 => 0xC2 <= s[0] <= 0xDF && Continuation(s[1])
    case 3 =>
      && (|| (s[0] == 0xE0 && 0xA0 <= s[1] <= 0xBF)
          || (s[0] == 0xED && 0x80 <= s[1] <= 0x9F)
          || (0xE1 <= s[0] <= 0xEF && s[0] != 0xED && Continuation(s[1])))
      && Continuation(s[2])
    case 4 =>
      && (|| (s[0] == 0xF0 && 0x90 <= s[1] <= 0xBF)
          || (s[0] == 0xF4 && 0x80 <= s[1] <= 0x8F)
          || (0xF1 <= s[0] <= 0xF3 && Continuation(s[1])))
      && Continuation(s[2]) && Continuation(s[3])
    case _ => false
  }

  /** The number of bytes of the first rune; 1 when no well-formed sequence starts here. */
  function RuneSize(s: bytes): (n: nat)
    requires s != []
    ensures 1 <= n <= 4 && n <= |s|
  {
    if |s| >= 2 && IsRune(s[..2]) then 2
    else if |s| >= 3 && IsRune(s[..3]) then 3
    else if |s| >= 4 && IsRune(s[..4]) then 4
    else 1
  }

  /** The runes of a string, each as its bytes. */
  function Runes(s: bytes): (r: seq<bytes>)
    decreases |s|
  {
    if s == [] then [] else [s[..RuneSize(s)]] + Runes(s[RuneSize(s)..])
  }

  predicate ValidString(s: bytes) {
    forall i :: 0 <= i < |Runes(s)| ==> IsRune(Runes(s)[i])
  }

  /** The most bytes, within a budget, that end between two runes. */
  function TakeRunes(s: bytes, budget: nat): (n: nat)
    ensures n <= budget && n <= |s|
    decreases |s|
  {
    if s == [] || RuneSize(s) > budget then 0
    else RuneSize(s) + TakeRunes(s[RuneSize(s)..], budget - RuneSize(s))
  }

  /** One more rune would not fit. */
  lemma {:induction false} TakesAllThatFit(s: bytes, budget: nat)
    ensures var n := TakeRunes(s, budget); n < |s| ==> n + RuneSize(s[n..]) > budget
    decreases |s|
  {
    hide RuneSize;
    var n := TakeRunes(s, budget);
    if s == [] {
    } else if RuneSize(s) > budget {
      assert s[0..] == s;
    } else {
      var size := RuneSize(s);
      TakesAllThatFit(s[size..], budget - size);
      assert n < |s| ==> s[size..][n - size..] == s[n..];
    }
  }

  lemma {:induction false} RuneSizeOfPrefix(s: bytes, n: nat)
    requires s != [] && RuneSize(s) <= n <= |s|
    ensures RuneSize(s[..n]) == RuneSize(s)
  {
    assert n >= 2 ==> s[..n][..2] == s[..2];
    assert n >= 3 ==> s[..n][..3] == s[..3];
    assert n >= 4 ==> s[..n][..4] == s[..4];
  }

  lemma {:induction false} SlicesOfSlices(s: bytes, size: nat, n: nat)
    requires size <= n <= |s|
    ensures s[..n][..size] == s[..size] && s[..n][size..] == s[size..][..n - size] && s[size..][n - size..] == s[n..]
  {}

  lemma {:induction false} RunesStep(s: bytes, size: nat)
    requires s != [] && size == RuneSize(s)
    ensures Runes(s) == [s[..size]] + Runes(s[size..])
  {}

  lemma {:induction false} Reassociated(a: seq<bytes>, b: seq<bytes>, c: seq<bytes>)
    ensures a + (b + c) == a + b + c
  {}

  lemma {:induction false} TakeStep(s: bytes, budget: nat)
    requires TakeRunes(s, budget) != 0
    ensures s != [] && RuneSize(s) <= budget
    ensures TakeRunes(s, budget) == RuneSize(s) + TakeRunes(s[RuneSize(s)..], budget - RuneSize(s))
  {}

  lemma {:induction false} NoRunes()
    ensures Runes([]) == []
  {}

  /** Cutting where TakeRunes says leaves every rune whole, on one side or the other. */
  lemma {:induction false} CutKeepsRunes(s: bytes, budget: nat)
    ensures var n := TakeRunes(s, budget); Runes(s) == Runes(s[..n]) + Runes(s[n..])
    decreases |s|
  {
    hide *;
    var n := TakeRunes(s, budget);
    if n == 0 {
      assert s[..n] == [] && s[n..] == s;
      NoRunes();
    } else {
      TakeStep(s, budget);
      var size := RuneSize(s);
      CutKeepsRunes(s[size..], budget - size);
      RuneSizeOfPrefix(s, n);
      SlicesOfSlices(s, size, n);
      RunesStep(s, size);
      RunesStep(s[..n], size);
      Reassociated([s[..size]], Runes(s[size..][..n - size]), Runes(s[n..]));
    }
  }

  predicate PlainAscii(s: bytes) {
    s == [] || (s[0] <= 0x7F && PlainAscii(s[1..]))
  }

  predicate AllSingleByteRunes(rs: seq<bytes>) {
    rs == [] || (IsRune(rs[0]) && |rs[0]| == 1 && AllSingleByteRunes(rs[1..]))
  }

  /** A string is valid UTF-8 without a rune beyond ASCII exactly when all its bytes are ASCII. */
  lemma {:induction false} PlainAsciiRunes(s: bytes)
    ensures PlainAscii(s) <==> AllSingleByteRunes(Runes(s))
    decreases |s|
  {
    if s != [] {
      PlainAsciiRunes(s[RuneSize(s)..]);
      assert IsRune(s[..RuneSize(s)]) && RuneSize(s) == 1 <==> s[0] <= 0x7F;
    }
  }
}
