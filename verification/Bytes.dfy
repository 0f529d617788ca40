/**
 Go strings are byte sequences; so are the strings of the mail modules and of the help texts. Here are the few things
 that all of them need.
 */
module Bytes {
  type byte = x: int | 0 <= x < 256
  type bytes = seq<byte>

  const TAB: byte := 0x09
  const LF: byte := 0x0A
  const CR: byte := 0x0D
  const SP: byte := 0x20
  const EQUALS: byte := 0x3D
  const CRLF: bytes := [CR, LF]

  datatype Option<+T> = None | Some(value: T)

  predicate IsWhitespace(b: byte) {
    b == SP || b == TAB
  }

  predicate IsAsciiSpace(b: byte) {
    0x09 <= b <= 0x0D || b == SP
  }

  predicate AllWhitespace(s: bytes) {
    forall i :: 0 <= i < |s| ==> IsWhitespace(s[i])
  }

  predicate NoWhitespace(s: bytes) {
    forall i :: 0 <= i < |s| ==> !IsWhitespace(s[i])
  }

  predicate NoLineBreak(s: bytes) {
    forall i :: 0 <= i < |s| ==> s[i] != CR && s[i] != LF
  }

  predicate NoneOf(s: bytes, b: byte) {
    forall i :: 0 <= i < |s| ==> s[i] != b
  }

  /** ASCII letters in lower case. */
  function ToLower(s: bytes): (r: bytes)
    ensures |r| == |s|
  {
    seq(|s|, i requires 0 <= i < |s| => if 0x41 <= s[i] <= 0x5A then s[i] + 0x20 else s[i])
  }

  function HexValue(b: byte): (v: Option<nat>)
    ensures v.Some? ==> v.value < 16
  {
    if 0x30 <= b <= 0x39 then Some(b - 0x30)
    else if 0x41 <= b <= 0x46 then Some(b - 0x41 + 10)
    else if 0x61 <= b <= 0x66 then Some(b - 0x61 + 10)
    else None
  }

  /** The first place of a byte, or the length. */
  function Find(s: bytes, b: byte): (n: nat)
    ensures n <= |s| && (n < |s| ==> s[n] == b)
  {
    if s == [] || s[0] == b then 0 else 1 + Find(s[1..], b)
  }

  function Concat(parts: seq<bytes>): (s: bytes) {
    if parts == [] then [] else parts[0] + Concat(parts[1..])
  }

  lemma {:induction false} SplitAppended(a: bytes, b: bytes)
    ensures (a + b)[..|a|] == a && (a + b)[|a|..] == b
  {}

  lemma {:induction false} Associate(a: bytes, b: bytes, c: bytes)
    ensures a + b + c == a + (b + c)
  {}

  lemma {:induction false} Rejoin(s: bytes, n: nat)
    requires n <= |s|
    ensures s[..n] + s[n..] == s
  {}

  lemma {:induction false} ConcatAppend(parts: seq<bytes>, last: bytes)
    ensures Concat(parts + [last]) == Concat(parts) + last
  {
    if parts == [] {
      assert parts + [last] == [last] + [];
      assert Concat([last] + []) == last + Concat([]);
    } else {
      ConcatAppend(parts[1..], last);
      assert (parts + [last])[1..] == parts[1..] + [last];
    }
  }

  lemma {:induction false} FindAfter(a: bytes, b: byte, rest: bytes)
    requires NoneOf(a, b)
    ensures Find(a + [b] + rest, b) == |a|
  {
    var s := a + [b] + rest;
    if a != [] {
      FindAfter(a[1..], b, rest);
      assert s[0] == a[0] && s[1..] == a[1..] + [b] + rest;
    }
  }

  lemma {:induction false} FindNone(a: bytes, b: byte)
    requires NoneOf(a, b)
    ensures Find(a, b) == |a|
  {
    if a != [] {
      FindNone(a[1..], b);
    }
  }

  lemma {:induction false} FindCut(a: bytes, b: byte, rest: bytes)
    requires NoneOf(a, b)
    ensures var s := a + [b] + rest; var n := Find(s, b);
            n == |a| < |s| && s[..n] == a && s[n + 1..] == rest
  {
    FindAfter(a, b, rest);
  }
}
