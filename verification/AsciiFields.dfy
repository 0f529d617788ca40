/** strings.Fields, for ASCII. */
module AsciiFields {
  import opened Bytes

  predicate IsWord(w: bytes) { w != [] && forall i :: 0 <= i < |w| ==> !IsAsciiSpace(w[i]) }

  function GapLength(s: bytes): (n: nat)
    ensures n <= |s| && (n < |s| ==> !IsAsciiSpace(s[n]))
  {
    if s == [] || !IsAsciiSpace(s[0]) then 0 else 1 + GapLength(s[1..])
  }

  function FieldLength(s: bytes): (n: nat)
    ensures n <= |s| && (forall i :: 0 <= i < n ==> !IsAsciiSpace(s[i])) && (n < |s| ==> IsAsciiSpace(s[n]))
  {
    if s == [] || IsAsciiSpace(s[0]) then 0 else 1 + FieldLength(s[1..])
  }

  /** strings.Fields */
  function Fields(s: bytes): (words: seq<bytes>)
    ensures forall w <- words :: IsWord(w)
    decreases |s|
  {
    var a := GapLength(s);
    if a == |s| then []
    else
      var b := FieldLength(s[a..]);
      assert s[a..][0] == s[a];
      [s[a..][..b]] + Fields(s[a..][b..])
  }

  lemma {:induction false} FirstField(w: bytes, rest: bytes)
    requires IsWord(w) && (rest == [] || IsAsciiSpace(rest[0]))
    ensures Fields(w + rest) == [w] + Fields(rest)
  {
    var s := w + rest;
    assert s[0] == w[0];
    assert s[0..] == s;
    WordStops(w, rest);
    assert s[..|w|] == w && s[|w|..] == rest;
  }

  lemma {:induction false} WordStops(w: bytes, rest: bytes)
    requires (forall i :: 0 <= i < |w| ==> !IsAsciiSpace(w[i])) && (rest == [] || IsAsciiSpace(rest[0]))
    ensures FieldLength(w + rest) == |w|
  {
    if w == [] {
      assert w + rest == rest;
    } else {
      WordStops(w[1..], rest);
      assert (w + rest)[1..] == w[1..] + rest;
    }
  }

  lemma {:induction false} SpaceSkipped(s: bytes)
    ensures Fields([SP] + s) == Fields(s)
  {
    assert ([SP] + s)[1..] == s;
    var a := GapLength(s);
    assert ([SP] + s)[a + 1..] == s[a..];
  }

  // ---- the fields are the words of the text

  function Interleaved(gaps: seq<bytes>, words: seq<bytes>): bytes
    requires |gaps| == |words| + 1
  {
    if words == [] then gaps[0] else gaps[0] + words[0] + Interleaved(gaps[1..], words[1..])
  }

  predicate AllSpace(s: bytes) {
    forall i :: 0 <= i < |s| ==> IsAsciiSpace(s[i])
  }

  /** White space around words: some between any two of them. */
  ghost predicate Gaps(gaps: seq<bytes>) {
    (forall g <- gaps :: AllSpace(g)) && forall i :: 0 < i < |gaps| - 1 ==> gaps[i] != []
  }

  lemma {:induction false} GapIsSpace(s: bytes)
    ensures AllSpace(s[..GapLength(s)])
  {
    if s != [] && IsAsciiSpace(s[0]) {
      GapIsSpace(s[1..]);
      assert s[..GapLength(s)] == [s[0]] + s[1..][..GapLength(s[1..])];
    }
  }

  lemma {:induction false} FirstOfFields(s: bytes) returns (gap: bytes, word: bytes, rest: bytes)
    requires GapLength(s) < |s|
    ensures s == gap + word + rest && AllSpace(gap) && (gap == [] <==> !IsAsciiSpace(s[0]))
    ensures Fields(s) == [word] + Fields(rest) && |rest| < |s|
    ensures rest == [] || IsAsciiSpace(rest[0])
  {
    var a := GapLength(s);
    var b := FieldLength(s[a..]);
    GapIsSpace(s);
    gap, word, rest := s[..a], s[a..][..b], s[a..][b..];
    assert s[a..] == word + rest && s == gap + s[a..];
    assert s[a..][0] == s[a];
    Associate(gap, word, rest);
  }

  lemma {:induction false} NoWord(s: bytes)
    requires GapLength(s) == |s|
    ensures AllSpace(s) && Fields(s) == []
  {
    GapIsSpace(s);
    assert s[..|s|] == s;
  }

  /** Every text is its fields with white space between and around them; fields hold none. */
  lemma {:induction false} FieldsAreTheWords(s: bytes) returns (gaps: seq<bytes>)
    ensures |gaps| == |Fields(s)| + 1 && Gaps(gaps) && s == Interleaved(gaps, Fields(s))
    ensures s != [] && IsAsciiSpace(s[0]) ==> gaps[0] != []
    decreases |s|
  {
    hide Fields, FieldLength, AllSpace, Gaps;
    if GapLength(s) == |s| {
      NoWord(s);
      OneGap(s);
      return [s];
    }
    var gap, word, rest := FirstOfFields(s);
    var more := FieldsAreTheWords(rest);
    gaps := [gap] + more;
    NoFields();
    MoreGaps(gap, more, rest, Fields(rest));
    InterleavedCons(gap, more, word, Fields(rest));
  }

  lemma {:induction false} OneGap(s: bytes)
    requires AllSpace(s)
    ensures Gaps([s])
  {}

  lemma {:induction false} NoFields()
    ensures Fields([]) == []
  {}

  lemma {:induction false} InterleavedCons(gap: bytes, gaps: seq<bytes>, word: bytes, words: seq<bytes>)
    requires |gaps| == |words| + 1
    ensures Interleaved([gap] + gaps, [word] + words) == gap + word + Interleaved(gaps, words)
  {
    assert ([gap] + gaps)[1..] == gaps && ([word] + words)[1..] == words;
  }

  lemma {:induction false} MoreGaps(first: bytes, more: seq<bytes>, rest: bytes, words: seq<bytes>)
    requires AllSpace(first) && Gaps(more) && |more| == |words| + 1
    requires rest == [] ==> words == []
    requires rest != [] ==> more[0] != []
    ensures Gaps([first] + more)
  {
    var gaps := [first] + more;
    forall g <- gaps ensures AllSpace(g) {
      assert g == first || g in more;
    }
    forall i | 0 < i < |gaps| - 1 ensures gaps[i] != [] {
      assert gaps[i] == more[i - 1];
    }
  }
}
