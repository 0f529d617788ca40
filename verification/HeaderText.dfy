/**
 How a mail reader takes a header field apart: lines (section 2.1 of RFC 5322), unfolding (section 2.2.3 of
 RFC 5322), and the words between runs of spaces and tabs. Nothing here is taken from the writer's code.
 */
module HeaderText {
  import opened Bytes

  // ---- words

  /** A word and the run of spaces and tabs before it. */
  datatype Token = Token(space: bytes, word: bytes)

  function SpaceLength(s: bytes): (n: nat)
    ensures n <= |s|
    ensures forall i :: 0 <= i < n ==> IsWhitespace(s[i])
    ensures n < |s| ==> !IsWhitespace(s[n])
  {
    if s == [] || !IsWhitespace(s[0]) then 0 else 1 + SpaceLength(s[1..])
  }

  function WordLength(s: bytes): (n: nat)
    ensures n <= |s|
    ensures forall i :: 0 <= i < n ==> !IsWhitespace(s[i])
    ensures n < |s| ==> IsWhitespace(s[n])
  {
    if s == [] || IsWhitespace(s[0]) then 0 else 1 + WordLength(s[1..])
  }

  /** No white space and no line break. */
  predicate PlainBytes(w: bytes) {
    NoWhitespace(w) && NoLineBreak(w)
  }

  predicate PlainWord(w: bytes) {
    w != [] && PlainBytes(w)
  }

  lemma {:induction false} PlainAppend(a: bytes, b: bytes)
    requires PlainBytes(a) && PlainBytes(b)
    ensures PlainBytes(a + b)
  {}

  function Tokens(s: bytes): (toks: seq<Token>)
    decreases |s|
  {
    var a := SpaceLength(s);
    if a == |s| then []
    else
      var tail := s[a..];
      var b := WordLength(tail);
      [Token(s[..a], tail[..b])] + Tokens(tail[b..])
  }

  /** The whitespace after the last word. */
  function Trailing(s: bytes): (space: bytes)
    decreases |s|
  {
    var a := SpaceLength(s);
    if a == |s| then s else Trailing(s[a..][WordLength(s[a..])..])
  }

  function TokenText(toks: seq<Token>): (s: bytes) {
    if toks == [] then [] else toks[0].space + toks[0].word + TokenText(toks[1..])
  }

  predicate StartsBlank(s: bytes) {
    s == [] || IsWhitespace(s[0])
  }

  predicate Separated(t: Token) {
    t.space != [] && AllWhitespace(t.space) && t.word != [] && NoWhitespace(t.word)
  }

  predicate AllSeparated(toks: seq<Token>) {
    forall i :: 0 <= i < |toks| ==> Separated(toks[i])
  }

  lemma {:induction false} TokensStep(s: bytes, tail: bytes, a: nat, b: nat)
    requires a == SpaceLength(s) < |s| && tail == s[a..] && b == WordLength(tail)
    ensures Tokens(s) == [Token(s[..a], tail[..b])] + Tokens(tail[b..])
    ensures Trailing(s) == Trailing(tail[b..])
  {}

  lemma {:induction false} TokenTextCons(t: Token, toks: seq<Token>)
    ensures TokenText([t] + toks) == t.space + t.word + TokenText(toks)
  {
    assert ([t] + toks)[1..] == toks;
  }

  lemma {:induction false} TokensCover(s: bytes)
    ensures TokenText(Tokens(s)) + Trailing(s) == s
    decreases |s|
  {
    var a := SpaceLength(s);
    if a < |s| {
      var tail := s[a..];
      var b := WordLength(tail);
      var space, word, rest := s[..a], tail[..b], tail[b..];
      TokensStep(s, tail, a, b);
      TokenTextCons(Token(space, word), Tokens(rest));
      TokensCover(rest);
      Regroup(space, word, TokenText(Tokens(rest)), Trailing(rest));
      Rejoin(tail, b);
      Rejoin(s, a);
    }
  }

  lemma {:induction false} Regroup(a: bytes, b: bytes, c: bytes, d: bytes)
    ensures a + b + c + d == a + (b + (c + d))
  {}

  lemma {:induction false} FirstWord(s: bytes)
    requires s != [] && !IsWhitespace(s[0])
    ensures var b := WordLength(s); s[..b] != [] && NoWhitespace(s[..b]) && StartsBlank(s[b..])
  {}

  lemma {:induction false} FirstToken(s: bytes)
    requires StartsBlank(s) && SpaceLength(s) < |s|
    ensures var a := SpaceLength(s); var b := WordLength(s[a..]);
            Separated(Token(s[..a], s[a..][..b])) && StartsBlank(s[a..][b..])
  {
    FirstWord(s[SpaceLength(s)..]);
  }

  lemma {:induction false} TokensSeparated(s: bytes)
    requires StartsBlank(s)
    ensures AllSeparated(Tokens(s))
    decreases |s|
  {
    var a := SpaceLength(s);
    if a < |s| {
      var b := WordLength(s[a..]);
      FirstToken(s);
      TokensSeparated(s[a..][b..]);
    }
  }

  lemma {:induction false} TrailingIsWhitespace(s: bytes)
    ensures AllWhitespace(Trailing(s))
    decreases |s|
  {
    var a := SpaceLength(s);
    if a < |s| {
      var tail := s[a..];
      TrailingIsWhitespace(tail[WordLength(tail)..]);
    }
  }

  lemma {:induction false} EndsInWord(s: bytes)
    requires s != [] && !IsWhitespace(s[|s| - 1])
    ensures Trailing(s) == []
  {
    TokensCover(s);
    TrailingIsWhitespace(s);
  }

  /** Reading one word off the front. */
  lemma {:induction false} TokensCons(t: Token, rest: bytes)
    requires AllWhitespace(t.space) && t.word != [] && NoWhitespace(t.word) && StartsBlank(rest)
    ensures Tokens(t.space + t.word + rest) == [t] + Tokens(rest)
    ensures Trailing(t.space + t.word + rest) == Trailing(rest)
  {
    var tail := t.word + rest;
    var s := t.space + tail;
    Associate(t.space, t.word, rest);
    SpaceLengthIs(t.space, tail);
    WordLengthIs(t.word, rest);
    SplitAppended(t.space, tail);
    SplitAppended(t.word, rest);
    TokensStep(s, tail, |t.space|, |t.word|);
  }

  /** A string with a word in it: its first token, what follows, and how the two read when more text is added. */
  lemma {:induction false} PeelToken(s: bytes, more: bytes) returns (first: Token, rest: bytes)
    requires SpaceLength(s) < |s|
    requires StartsBlank(more)
    ensures |rest| < |s| && StartsBlank(rest)
    ensures Tokens(s) == [first] + Tokens(rest) && Trailing(s) == Trailing(rest)
    ensures Tokens(s + more) == [first] + Tokens(rest + more) && Trailing(s + more) == Trailing(rest + more)
  {
    var a := SpaceLength(s);
    var tail := s[a..];
    var b := WordLength(tail);
    first, rest := Token(s[..a], tail[..b]), tail[b..];
    TokensStep(s, tail, a, b);
    FirstWord(tail);
    TokensCons(first, rest + more);
    Rejoin(s, a);
    Rejoin(tail, b);
    Associate(first.space, first.word, rest);
    Regroup3(first.space, first.word, rest, more);
  }

  lemma {:induction false} TokensSnoc(s: bytes, t: Token)
    requires Trailing(s) == [] && Separated(t)
    ensures Tokens(s + (t.space + t.word)) == Tokens(s) + [t]
    ensures Trailing(s + (t.space + t.word)) == []
    decreases |s|
  {
    var more := t.space + t.word;
    if SpaceLength(s) == |s| {
      assert s + more == more;
      TokensCons(t, []);
      assert more + [] == more;
    } else {
      var first, rest := PeelToken(s, more);
      TokensSnoc(rest, t);
    }
  }

  lemma {:induction false} TokensBeforeTrailing(s: bytes, space: bytes)
    requires Trailing(s) == [] && AllWhitespace(space)
    ensures Tokens(s + space) == Tokens(s)
    decreases |s|
  {
    if SpaceLength(s) == |s| {
      assert s + space == space;
      assert SpaceLength(space) == |space|;
    } else {
      var first, rest := PeelToken(s, space);
      TokensBeforeTrailing(rest, space);
    }
  }

  lemma {:induction false} Regroup3(a: bytes, b: bytes, c: bytes, d: bytes)
    ensures a + b + (c + d) == a + b + c + d
  {}

  lemma {:induction false} WordLengthIs(word: bytes, rest: bytes)
    requires NoWhitespace(word) && StartsBlank(rest)
    ensures WordLength(word + rest) == |word|
  {
    var s, n := word + rest, WordLength(word + rest);
    assert |word| < |s| ==> IsWhitespace(s[|word|]);
  }

  lemma {:induction false} SpaceLengthIs(space: bytes, rest: bytes)
    requires AllWhitespace(space) && rest != [] && !IsWhitespace(rest[0])
    ensures SpaceLength(space + rest) == |space|
  {
    var s, n := space + rest, SpaceLength(space + rest);
    assert !IsWhitespace(s[|space|]);
  }

  // ---- lines

  function Join(lines: seq<bytes>): (s: bytes) {
    if lines == [] then []
    else if |lines| == 1 then lines[0]
    else lines[0] + CRLF + Join(lines[1..])
  }

  function LineLength(s: bytes): (n: nat)
    ensures n <= |s|
    ensures n < |s| ==> n + 2 <= |s| && s[n..n + 2] == CRLF
  {
    if s == [] then 0
    else if CRLF <= s then 0
    else
      var n := LineLength(s[1..]);
      assert n < |s| - 1 ==> s[1..][n..n + 2] == s[n + 1..n + 3];
      1 + n
  }

  /** The lines of a header field, without their line breaks. */
  function Lines(s: bytes): (lines: seq<bytes>)
    decreases |s|
  {
    var n := LineLength(s);
    if n == |s| then [s] else [s[..n]] + Lines(s[n + 2..])
  }

  /** Unfolding: a line break directly before a space or tab goes away; the space or tab stays. */
  function Unfold(s: bytes): (r: bytes)
    decreases |s|
  {
    if s == [] then []
    else if |s| >= 3 && s[0] == CR && s[1] == LF && IsWhitespace(s[2]) then Unfold(s[2..])
    else [s[0]] + Unfold(s[1..])
  }

  predicate AllNoLineBreak(lines: seq<bytes>) {
    forall i :: 0 <= i < |lines| ==> NoLineBreak(lines[i])
  }

  /** Every line but the first starts with a space or tab, as a folded field must. */
  predicate Folded(lines: seq<bytes>) {
    forall i :: 0 < i < |lines| ==> lines[i] != [] && IsWhitespace(lines[i][0])
  }

  lemma {:induction false} NotYetTheEnd(line: bytes, rest: bytes)
    requires line != [] && NoLineBreak(line)
    ensures LineLength(line + rest) == 1 + LineLength(line[1..] + rest)
  {
    var s := line + rest;
    assert s[0] == line[0] && s[1..] == line[1..] + rest;
  }

  lemma {:induction false} LineLengthOf(line: bytes, rest: bytes)
    requires NoLineBreak(line)
    ensures LineLength(line) == |line|
    ensures LineLength(line + CRLF + rest) == |line|
  {
    if line == [] {
      assert line + CRLF + rest == CRLF + rest;
      assert CRLF <= CRLF + rest;
    } else {
      LineLengthOf(line[1..], rest);
      NotYetTheEnd(line, []);
      NotYetTheEnd(line, CRLF + rest);
      Associate(line, CRLF, rest);
      Associate(line[1..], CRLF, rest);
      assert line + [] == line && line[1..] + [] == line[1..];
    }
  }

  lemma {:induction false} CutLine(line: bytes, rest: bytes)
    ensures var s := line + CRLF + rest; s[..|line|] == line && s[|line| + 2..] == rest
  {}

  lemma {:induction false} LinesOfJoin(lines: seq<bytes>)
    requires lines != [] && AllNoLineBreak(lines)
    ensures Lines(Join(lines)) == lines
  {
    var s := Join(lines);
    if |lines| == 1 {
      LineLengthOf(lines[0], []);
      assert lines == [s];
    } else {
      LinesOfJoin(lines[1..]);
      LineLengthOf(lines[0], Join(lines[1..]));
      CutLine(lines[0], Join(lines[1..]));
    }
  }

  lemma {:induction false} UnfoldPlain(line: bytes, rest: bytes)
    requires NoLineBreak(line)
    ensures Unfold(line + rest) == line + Unfold(rest)
  {
    if line == [] {
      assert line + rest == rest;
    } else {
      UnfoldPlain(line[1..], rest);
      var s := line + rest;
      assert s[0] == line[0] && s[1..] == line[1..] + rest;
    }
  }

  lemma {:induction false} UnfoldOfJoin(lines: seq<bytes>)
    requires lines != [] && AllNoLineBreak(lines) && Folded(lines)
    ensures Unfold(Join(lines)) == Concat(lines)
  {
    if |lines| == 1 {
      UnfoldPlain(lines[0], []);
      assert lines[0] + [] == lines[0];
      assert Concat(lines) == lines[0] + Concat([]);
    } else {
      var rest := Join(lines[1..]);
      assert forall i :: 0 <= i < |lines| - 1 ==> lines[1..][i] == lines[i + 1];
      UnfoldOfJoin(lines[1..]);
      UnfoldPlain(lines[0], CRLF + rest);
      assert lines[0] + CRLF + rest == lines[0] + (CRLF + rest);
      assert rest != [] && rest[0] == lines[1][0];
      assert (CRLF + rest)[2..] == rest;
    }
  }

  lemma {:induction false} JoinAppend(lines: seq<bytes>, line: bytes)
    requires lines != []
    ensures Join(lines + [line]) == Join(lines) + CRLF + line
  {
    var all := lines + [line];
    if |lines| == 1 {
      assert all[1..] == [line];
    } else {
      JoinAppend(lines[1..], line);
      assert all[1..] == lines[1..] + [line];
    }
  }

  /** Writing more text to the last line. */
  function Extend(lines: seq<bytes>, text: bytes): (r: seq<bytes>)
    requires lines != []
    ensures |r| == |lines|
  {
    lines[|lines| - 1 := lines[|lines| - 1] + text]
  }

  lemma {:induction false} JoinExtend(lines: seq<bytes>, text: bytes)
    requires lines != []
    ensures Join(Extend(lines, text)) == Join(lines) + text
    ensures Concat(Extend(lines, text)) == Concat(lines) + text
  {
    if |lines| == 1 {
      assert Concat(Extend(lines, text)) == lines[0] + text + Concat([]);
      assert Concat(lines) == lines[0] + Concat([]);
    } else {
      JoinExtend(lines[1..], text);
      assert Extend(lines, text)[1..] == Extend(lines[1..], text);
      Associate(lines[0] + CRLF, Join(lines[1..]), text);
      Associate(lines[0], Concat(lines[1..]), text);
    }
  }
}
