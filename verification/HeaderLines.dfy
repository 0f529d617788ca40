/** What a folded header field looks like to a reader. */
module HeaderLines {
  import opened Bytes
  import opened HeaderText
  import opened HeaderFolding

  // ---- the shape of the lines

  /** The length of a line without its last word and the whitespace around it. */
  function LengthBeforeLastWord(line: bytes): (n: nat) {
    var toks := Tokens(line);
    if toks == [] then 0 else |TokenText(toks[..|toks| - 1])|
  }

  function FirstWordLength(line: bytes): (n: nat) {
    var toks := Tokens(line);
    if toks == [] then 0 else |toks[0].space| + |toks[0].word|
  }

  /** A continuation line starts with a space, has a word, and that word would not have fitted on the line before. */
  predicate NeededFold(nameLength: nat, previous: bytes, line: bytes) {
    && line != [] && line[0] == SP
    && Tokens(line) != []
    && |previous| > nameLength + 1
    && |previous| + FirstWordLength(line) > RECOMMENDED
  }

  /** Every line is short but for its last word, and every fold was needed. */
  predicate WellFolded(nameLength: nat, lines: seq<bytes>)
    decreases |lines|
  {
    lines == [] ||
    var n := |lines| - 1;
    && LengthBeforeLastWord(lines[n]) <= Max(RECOMMENDED, nameLength + 1)
    && (n > 0 ==> NeededFold(nameLength, lines[n - 1], lines[n]))
    && WellFolded(nameLength, lines[..n])
  }

  function Max(a: nat, b: nat): nat { if a > b then a else b }

  // ---- what the lines say

  /** Text b reads as line a, except that a's first character is the space that stands for b's space or tab. */
  predicate ReadsAs(a: bytes, b: bytes) {
    && |a| == |b| && a != []
    && a[0] == SP && IsWhitespace(b[0])
    && a[1..] == b[1..]
  }

  /** The lines carry the text, in order; the whitespace character at each fold is written as a space. */
  predicate Carries(lines: seq<bytes>, text: bytes)
    decreases |lines|
  {
    if |lines| == 0 then text == []
    else if |lines| == 1 then lines[0] == text
    else
      var last := lines[|lines| - 1];
      && |last| <= |text|
      && ReadsAs(last, text[|text| - |last|..])
      && Carries(lines[..|lines| - 1], text[..|text| - |last|])
  }

  // ---- proofs

  ghost predicate Invariant(nameLength: nat, lines: seq<bytes>) {
    && lines != []
    && WellFolded(nameLength, lines)
    && Trailing(lines[|lines| - 1]) == []
    && lines[|lines| - 1] != []
  }

  lemma {:induction false} OneWordLine(t: Token)
    requires Separated(t)
    ensures Tokens(FoldSpace(t.space) + t.word) == [Token(FoldSpace(t.space), t.word)]
    ensures Trailing(FoldSpace(t.space) + t.word) == []
    ensures LengthBeforeLastWord(FoldSpace(t.space) + t.word) == 0
    ensures FirstWordLength(FoldSpace(t.space) + t.word) == |t.space| + |t.word|
  {
    var u := Token(FoldSpace(t.space), t.word);
    var line := u.space + u.word;
    TokensCons(u, []);
    assert line + [] == line;
    assert Tokens(line) == [u];
    assert [u][..0] == [];
  }

  lemma {:induction false} OneMoreWord(line: bytes, t: Token)
    requires Trailing(line) == [] && Separated(t)
    ensures var r := line + (t.space + t.word);
            && Trailing(r) == []
            && LengthBeforeLastWord(r) == |line|
            && (Tokens(line) != [] ==> Tokens(r) != [] && FirstWordLength(r) == FirstWordLength(line))
  {
    TokensSnoc(line, t);
    TokensCover(line);
    assert TokenText(Tokens(line)) + [] == TokenText(Tokens(line));
    assert (Tokens(line) + [t])[..|Tokens(line)|] == Tokens(line);
  }

  lemma {:induction false} NewLineKeepsShape(nameLength: nat, lines: seq<bytes>, line: bytes)
    requires Invariant(nameLength, lines)
    requires NeededFold(nameLength, lines[|lines| - 1], line) && LengthBeforeLastWord(line) == 0
    requires Trailing(line) == []
    ensures Invariant(nameLength, lines + [line])
  {
    assert (lines + [line])[..|lines|] == lines;
  }

  lemma {:induction false} LongerLineKeepsShape(nameLength: nat, lines: seq<bytes>, line: bytes)
    requires Invariant(nameLength, lines) && line != []
    requires LengthBeforeLastWord(line) <= Max(RECOMMENDED, nameLength + 1)
    requires |lines| > 1 ==> NeededFold(nameLength, lines[|lines| - 2], line)
    requires Trailing(line) == []
    ensures Invariant(nameLength, lines[|lines| - 1 := line])
  {
    var n := |lines| - 1;
    assert lines[n := line][..n] == lines[..n];
  }

  lemma {:induction false} AddWordKeepsShape(nameLength: nat, lines: seq<bytes>, t: Token)
    requires Invariant(nameLength, lines) && Separated(t)
    ensures Invariant(nameLength, AddWord(nameLength, lines, t))
  {
    var n := |lines| - 1;
    if MustFold(nameLength, |lines[n]|, t) {
      OneWordLine(t);
      NewLineKeepsShape(nameLength, lines, FoldSpace(t.space) + t.word);
    } else {
      OneMoreWord(lines[n], t);
      LongerLineKeepsShape(nameLength, lines, lines[n] + (t.space + t.word));
    }
  }

  lemma {:induction false} AddWordsKeepsShape(nameLength: nat, lines: seq<bytes>, toks: seq<Token>)
    requires Invariant(nameLength, lines) && AllSeparated(toks)
    ensures Invariant(nameLength, AddWords(nameLength, lines, toks))
    decreases |toks|
  {
    if toks != [] {
      AddWordKeepsShape(nameLength, lines, toks[0]);
      AddWordsKeepsShape(nameLength, AddWord(nameLength, lines, toks[0]), toks[1..]);
    }
  }

  lemma {:induction false} FoldCarries(lines: seq<bytes>, text: bytes, t: Token)
    requires lines != [] && Carries(lines, text) && Separated(t)
    ensures Carries(lines + [FoldSpace(t.space) + t.word], text + (t.space + t.word))
  {
    var more, line := t.space + t.word, FoldSpace(t.space) + t.word;
    SplitAppended(text, more);
    assert ReadsAs(line, more);
    assert (lines + [line])[..|lines|] == lines;
  }

  lemma {:induction false} ExtendCarries(lines: seq<bytes>, text: bytes, more: bytes)
    requires lines != [] && Carries(lines, text)
    ensures Carries(Extend(lines, more), text + more)
  {
    var last, r := lines[|lines| - 1], Extend(lines, more);
    assert r[|r| - 1] == last + more;
    if |lines| > 1 {
      var k := |text| - |last|;
      assert (text + more)[k..] == text[k..] + more;
      assert (text + more)[..k] == text[..k];
      assert ReadsAs(last + more, text[k..] + more);
      assert r[..|r| - 1] == lines[..|lines| - 1];
    }
  }

  lemma {:induction false} AddWordsCarries(nameLength: nat, lines: seq<bytes>, toks: seq<Token>, text: bytes)
    requires lines != [] && Carries(lines, text) && AllSeparated(toks)
    ensures Carries(AddWords(nameLength, lines, toks), text + TokenText(toks))
    decreases |toks|
  {
    if toks == [] {
      assert text + [] == text;
    } else {
      var t := toks[0];
      FoldCarries(lines, text, t);
      ExtendCarries(lines, text, t.space + t.word);
      AddWordsCarries(nameLength, AddWord(nameLength, lines, t), toks[1..], text + (t.space + t.word));
      Associate(text, t.space + t.word, TokenText(toks[1..]));
    }
  }

  lemma {:induction false} ColonEndsWord(name: bytes)
    ensures Trailing(name + [COLON]) == []
    ensures LengthBeforeLastWord(name + [COLON]) <= |name| + 1
  {
    var s := name + [COLON];
    EndsInWord(s);
    TokensCover(s);
    var toks := Tokens(s);
    if toks != [] {
      TextOfPrefix(toks, |toks| - 1);
    }
  }

  lemma {:induction false} TextOfPrefix(toks: seq<Token>, n: nat)
    requires n <= |toks|
    ensures |TokenText(toks[..n])| <= |TokenText(toks)|
  {
    if n > 0 {
      TextOfPrefix(toks[1..], n - 1);
      assert toks[..n][1..] == toks[1..][..n - 1];
    }
  }

  lemma {:induction false} TrailingKeepsShape(nameLength: nat, lines: seq<bytes>, space: bytes)
    requires Invariant(nameLength, lines) && AllWhitespace(space)
    ensures WellFolded(nameLength, Extend(lines, space))
  {
    var n, r := |lines| - 1, Extend(lines, space);
    TokensBeforeTrailing(lines[n], space);
    assert r[n] == lines[n] + space;
    assert r[..n] == lines[..n];
  }

  /** A line that carries part of a text has no line break if the text has none. */
  lemma {:induction false} CarriedLines(lines: seq<bytes>, text: bytes)
    requires Carries(lines, text) && NoLineBreak(text)
    ensures AllNoLineBreak(lines) && Folded(lines)
    decreases |lines|
  {
    if |lines| > 1 {
      var n := |lines| - 1;
      var k := |text| - |lines[n]|;
      CarriedLines(lines[..n], text[..k]);
      forall i | 0 <= i < |lines[n]|
        ensures lines[n][i] != CR && lines[n][i] != LF
      {
        assert i > 0 ==> lines[n][i] == lines[n][1..][i - 1] == text[k..][1..][i - 1] == text[k + i];
      }
      assert forall i :: 0 <= i < n ==> lines[..n][i] == lines[i];
    }
  }

  lemma {:induction false} WordsCover(body: bytes)
    requires StartsBlank(body)
    ensures AllSeparated(Tokens(body)) && AllWhitespace(Trailing(body))
    ensures TokenText(Tokens(body)) + Trailing(body) == body
  {
    TokensSeparated(body);
    TrailingIsWhitespace(body);
    TokensCover(body);
  }

  lemma {:induction false} LayoutFrom(nameLength: nat, start: bytes, toks: seq<Token>, space: bytes)
    requires AllSeparated(toks) && AllWhitespace(space)
    requires Trailing(start) == [] && start != [] && LengthBeforeLastWord(start) <= nameLength + 1
    ensures var lines := Extend(AddWords(nameLength, [start], toks), space);
            WellFolded(nameLength, lines) && Carries(lines, start + (TokenText(toks) + space))
  {
    AddWordsKeepsShape(nameLength, [start], toks);
    AddWordsCarries(nameLength, [start], toks, start);
    var lines := AddWords(nameLength, [start], toks);
    TrailingKeepsShape(nameLength, lines, space);
    ExtendCarries(lines, start + TokenText(toks), space);
    Associate(start, TokenText(toks), space);
  }

  /** The layout of a header, whatever its length: its shape and the text it carries. */
  lemma {:induction false} LayoutShape(name: bytes, value: bytes)
    ensures WellFolded(|name|, Layout(name, value))
    ensures Carries(Layout(name, value), name + [COLON, SP] + value)
  {
    var body := [SP] + value;
    WordsCover(body);
    ColonEndsWord(name);
    LayoutFrom(|name|, name + [COLON], Tokens(body), Trailing(body));
    SpaceAfterColon(name, value);
  }

  lemma {:induction false} SpaceAfterColon(name: bytes, value: bytes)
    ensures name + [COLON] + ([SP] + value) == name + [COLON, SP] + value
  {}

  lemma {:induction false} ReadBack(lines: seq<bytes>, text: bytes)
    requires lines != [] && Carries(lines, text) && NoLineBreak(text)
    ensures Lines(Join(lines)) == lines && Unfold(Join(lines)) == Concat(lines)
  {
    CarriedLines(lines, text);
    LinesOfJoin(lines);
    UnfoldOfJoin(lines);
  }

  lemma {:induction false} FoldedLayout(name: bytes, value: bytes, header: bytes) returns (lines: seq<bytes>)
    requires Fold(name, value) == Header(header)
    ensures lines != [] && header == Join(lines) && NoLineBreak(value)
    ensures Fits(lines) <==> value != [] || |name| + 2 <= MAXIMUM
    ensures WellFolded(|name|, lines) && Carries(lines, name + [COLON, SP] + value)
  {
    lines := Layout(name, value);
    LayoutShape(name, value);
    if value == [] {
      EmptyLayout(name);
    }
  }

  /**
   What a reader finds in the bytes of a header: no line is longer than 998 bytes, unless the value is empty and the
   field name alone fills the line, which the code does not check; every fold was needed
   and every continuation line has a word; no line is longer than 78 bytes but for its last word (or the
   field name itself); and the lines carry exactly "name: value".
   */
  ghost predicate ReaderSees(name: bytes, value: bytes, header: bytes) {
    var lines := Lines(header);
    && (Fits(lines) <==> value != [] || |name| + 2 <= MAXIMUM)
    && WellFolded(|name|, lines)
    && Carries(lines, name + [COLON, SP] + value)
    && Unfold(header) == Concat(lines)
  }

  lemma {:induction false} LayoutIsSeen(name: bytes, value: bytes, lines: seq<bytes>)
    requires NoLineBreak(name) && NoLineBreak(value)
    requires lines != []
    requires Fits(lines) <==> value != [] || |name| + 2 <= MAXIMUM
    requires WellFolded(|name|, lines) && Carries(lines, name + [COLON, SP] + value)
    ensures ReaderSees(name, value, Join(lines))
  {
    ReadBack(lines, name + [COLON, SP] + value);
  }

  lemma {:induction false} FoldedLines(name: bytes, value: bytes, header: bytes)
    requires NoLineBreak(name) && Fold(name, value) == Header(header)
    ensures ReaderSees(name, value, header)
    ensures value != [] ==> forall l <- Lines(header) :: |l| <= 998
  {
    var lines := FoldedLayout(name, value, header);
    LayoutIsSeen(name, value, lines);
  }

  lemma {:induction false} EmptyLayout(name: bytes)
    ensures Layout(name, []) == [name + [COLON, SP]]
    ensures Join(Layout(name, [])) == name + [COLON, SP]
  {
    assert [SP] + [] == [SP];
    assert SpaceLength([SP]) == 1;
    assert Tokens([SP]) == [] && Trailing([SP]) == [SP];
    assert AddWords(|name|, [name + [COLON]], []) == [name + [COLON]];
    assert name + [COLON] + [SP] == name + [COLON, SP];
  }

  /** Where a line other than the first starts in the unfolded text. */
  predicate AtFold(lines: seq<bytes>, i: nat)
    decreases |lines|
  {
    |lines| > 1 && (i == |Concat(lines[..|lines| - 1])| || AtFold(lines[..|lines| - 1], i))
  }

  /** The text as given and as read are the same but for the first character of each continuation line, now a space. */
  ghost predicate SameButFolds(lines: seq<bytes>, text: bytes, read: bytes) {
    && |read| == |text|
    && forall i :: 0 <= i < |text| ==>
         read[i] == (if AtFold(lines, i) then SP else text[i]) && (AtFold(lines, i) ==> IsWhitespace(text[i]))
  }

  /** Unfolding changes nothing but tabs at folds: without a tab, the header reads exactly as it was given. */
  lemma {:induction false} UnfoldReturnsText(name: bytes, value: bytes, header: bytes)
    requires NoLineBreak(name) && Fold(name, value) == Header(header)
    ensures SameButFolds(Lines(header), name + [COLON, SP] + value, Unfold(header))
  {
    FoldedLines(name, value, header);
    CarriedText(Lines(header), name + [COLON, SP] + value);
  }

  lemma {:induction false} FoldsAreInside(lines: seq<bytes>, i: nat)
    requires AtFold(lines, i)
    ensures i <= |Concat(lines)|
    decreases |lines|
  {
    var n := |lines| - 1;
    ConcatAppend(lines[..n], lines[n]);
    assert lines[..n] + [lines[n]] == lines;
    if i != |Concat(lines[..n])| {
      FoldsAreInside(lines[..n], i);
    }
  }

  lemma {:induction false} CarriedText(lines: seq<bytes>, text: bytes)
    requires Carries(lines, text)
    ensures SameButFolds(lines, text, Concat(lines))
    decreases |lines|
  {
    if |lines| == 1 {
      assert Concat(lines) == lines[0] + Concat([]);
    } else if |lines| > 1 {
      var n := |lines| - 1;
      var before, last := lines[..n], lines[n];
      var k := |text| - |last|;
      CarriedText(before, text[..k]);
      ConcatAppend(before, last);
      assert before + [last] == lines;
      LastLineCarried(before, last, text);
    }
  }

  lemma {:induction false} LastLineCarried(before: seq<bytes>, last: bytes, text: bytes)
    requires before != [] && |last| <= |text| && ReadsAs(last, text[|text| - |last|..])
    requires SameButFolds(before, text[..|text| - |last|], Concat(before))
    ensures SameButFolds(before + [last], text, Concat(before) + last)
  {
    var k, lines := |text| - |last|, before + [last];
    assert lines[..|lines| - 1] == before;
    forall i | 0 <= i < |text|
      ensures (Concat(before) + last)[i] == if AtFold(lines, i) then SP else text[i]
      ensures AtFold(lines, i) ==> IsWhitespace(text[i])
    {
      if i < k {
        assert text[..k][i] == text[i];
        assert AtFold(lines, i) == AtFold(before, i);
      } else if i == k {
        assert text[k..][0] == text[k];
      } else {
        assert text[i] == text[k..][1..][i - k - 1] == last[1..][i - k - 1];
        if AtFold(before, i) {
          FoldsAreInside(before, i);
        }
      }
    }
  }

  // ---- when a header folds at all

  predicate Within(lines: seq<bytes>, max: nat) {
    forall i :: 0 <= i < |lines| ==> |lines[i]| <= max
  }

  predicate TokensWithin(toks: seq<Token>, max: int) {
    toks == [] || (|toks[0].space| + |toks[0].word| <= max && TokensWithin(toks[1..], max))
  }

  lemma {:induction false} WordsStayWithin(nameLength: nat, lines: seq<bytes>, toks: seq<Token>, max: nat)
    requires lines != [] && Within(lines, max) && max >= RECOMMENDED && TokensWithin(toks, max - nameLength - 1)
    ensures Within(AddWords(nameLength, lines, toks), max)
    decreases |toks|
  {
    if toks != [] {
      WordStaysWithin(nameLength, lines, toks[0], max);
      WordsStayWithin(nameLength, AddWord(nameLength, lines, toks[0]), toks[1..], max);
    }
  }

  lemma {:induction false} WordStaysWithin(nameLength: nat, lines: seq<bytes>, t: Token, max: nat)
    requires lines != [] && Within(lines, max) && max >= RECOMMENDED && nameLength + 1 + |t.space| + |t.word| <= max
    ensures Within(AddWord(nameLength, lines, t), max)
  {}

  lemma {:induction false} TooLongAWord(nameLength: nat, lines: seq<bytes>, toks: seq<Token>, space: bytes, k: nat)
    requires lines != [] && k < |toks| && |toks[k].space| + |toks[k].word| > MAXIMUM && AllSeparated(toks)
    ensures !Fits(Extend(AddWords(nameLength, lines, toks), space))
    decreases |toks|
  {
    var more := AddWord(nameLength, lines, toks[0]);
    if k == 0 {
      assert |more[|more| - 1]| > MAXIMUM;
      OverlongStays(nameLength, more, toks[1..], space);
    } else {
      TooLongAWord(nameLength, more, toks[1..], space, k - 1);
    }
  }

  /**
   Every word fits on a line behind the field name, with the white space before it and that at the end of the value.
   */
  predicate WordsFit(name: bytes, value: bytes) {
    var space := |Trailing([SP] + value)|;
    && |name| + 1 + space <= MAXIMUM && space <= MAXIMUM - RECOMMENDED
    && TokensWithin(Tokens([SP] + value), MAXIMUM - space - |name| - 1)
  }

  /** Some word does not fit on a line of its own with the white space before it. */
  predicate HasLongWord(value: bytes) {
    exists t <- Tokens([SP] + value) :: |t.space| + |t.word| > MAXIMUM
  }

  /**
   A line break in the value is refused, and nothing else is refused for one. A header folds when its words fit, and is
   refused as too long when some word cannot.
   */
  lemma {:induction false} FoldsWhenWordsFit(name: bytes, value: bytes)
    ensures Fold(name, value) == LineBreakInValue <==> !NoLineBreak(value)
    ensures NoLineBreak(value) && WordsFit(name, value) ==> Fold(name, value).Header?
    ensures NoLineBreak(value) && value != [] && HasLongWord(value) ==> Fold(name, value) == LineTooLong
  {
    var body := [SP] + value;
    var toks, space, start := Tokens(body), Trailing(body), [name + [COLON]];
    if WordsFit(name, value) {
      WordsStayWithin(|name|, start, toks, MAXIMUM - |space|);
    }
    if HasLongWord(value) {
      var t :| t in toks && |t.space| + |t.word| > MAXIMUM;
      var k :| 0 <= k < |toks| && toks[k] == t;
      TokensSeparated(body);
      TooLongAWord(|name|, start, toks, space, k);
    }
  }
}
