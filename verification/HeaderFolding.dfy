/** pkg/email/mime_headers.go: foldHeader and appendFoldedHeaderWord. */
module HeaderFolding {
  import opened Bytes
  import opened HeaderText

  const RECOMMENDED := 78  // section 2.1.1 of RFC 5322
  const MAXIMUM := 998     // section 2.1.1 of RFC 5322
  const COLON: byte := 0x3A

  datatype FoldResult = Header(text: bytes) | LineBreakInValue | LineTooLong

  // ---- the layout foldHeader aims at, were there no length limit

  /** What becomes of the whitespace at a fold: its first character turns into a space. */
  function FoldSpace(space: bytes): (r: bytes) {
    [SP] + if |space| > 1 then space[1..] else []
  }

  predicate MustFold(nameLength: nat, lineLength: nat, t: Token) {
    lineLength + |t.space| + |t.word| > RECOMMENDED && lineLength > nameLength + 1
  }

  function AddWord(nameLength: nat, lines: seq<bytes>, t: Token): (r: seq<bytes>)
    requires lines != []
    ensures |r| >= |lines|
  {
    if MustFold(nameLength, |lines[|lines| - 1]|, t) then lines + [FoldSpace(t.space) + t.word]
    else Extend(lines, t.space + t.word)
  }

  function AddWords(nameLength: nat, lines: seq<bytes>, toks: seq<Token>): (r: seq<bytes>)
    requires lines != []
    ensures r != []
    decreases |toks|
  {
    if toks == [] then lines else AddWords(nameLength, AddWord(nameLength, lines, toks[0]), toks[1..])
  }

  function Layout(name: bytes, value: bytes): (lines: seq<bytes>)
    ensures lines != []
  {
    Extend(AddWords(|name|, [name + [COLON]], Tokens([SP] + value)), Trailing([SP] + value))
  }

  predicate Fits(lines: seq<bytes>) {
    forall i :: 0 <= i < |lines| ==> |lines[i]| <= MAXIMUM
  }

  function Fold(name: bytes, value: bytes): (r: FoldResult) {
    if !NoLineBreak(value) then LineBreakInValue
    else if value == [] then Header(name + [COLON, SP])
    else if Fits(Layout(name, value)) then Header(Join(Layout(name, value)))
    else LineTooLong
  }

  // ---- the code

  /** A line that is too long stays too long, whatever is added after it. */
  lemma {:induction false} OverlongStays(nameLength: nat, lines: seq<bytes>, toks: seq<Token>, trailing: bytes)
    requires lines != [] && !Fits(lines)
    ensures !Fits(Extend(AddWords(nameLength, lines, toks), trailing))
    decreases |toks|
  {
    var i :| 0 <= i < |lines| && |lines[i]| > MAXIMUM;
    if toks == [] {
      assert |Extend(lines, trailing)[i]| > MAXIMUM;
    } else {
      assert |AddWord(nameLength, lines, toks[0])[i]| > MAXIMUM;
      OverlongStays(nameLength, AddWord(nameLength, lines, toks[0]), toks[1..], trailing);
    }
  }

  /** Only a line that still holds nothing but the field name can be too long. */
  predicate FitsSoFar(nameLength: nat, lines: seq<bytes>) {
    && lines != []
    && (forall i :: 0 <= i < |lines| - 1 ==> |lines[i]| <= MAXIMUM)
    && (|lines[|lines| - 1]| <= MAXIMUM || |lines[|lines| - 1]| == nameLength + 1)
  }

  /** appendFoldedHeaderWord, on the text built so far; the new line length is None when the word does not fit. */
  method AppendFoldedHeaderWord(result: bytes, nameLength: nat, lineLength: nat, pendingWhitespace: bytes, word: bytes,
                                ghost lines: seq<bytes>)
    returns (text: bytes, r: Option<nat>)
    requires FitsSoFar(nameLength, lines) && pendingWhitespace != []
    requires result == Join(lines) && lineLength == |lines[|lines| - 1]|
    ensures var after := AddWord(nameLength, lines, Token(pendingWhitespace, word));
            && (r.Some? <==> Fits(after))
            && (r.Some? ==> text == Join(after) && r.value == |after[|after| - 1]|)
  {
    ghost var after := AddWord(nameLength, lines, Token(pendingWhitespace, word));
    text := result;
    var length := lineLength;
    if length + |pendingWhitespace| + |word| > RECOMMENDED && length > nameLength + 1 {
      assert after == lines + [FoldSpace(pendingWhitespace) + word];
      if |word| + 1 > MAXIMUM {
        assert |after[|lines|]| > MAXIMUM;
        return text, None;
      }
      text := text + CRLF + [SP];
      length := 1;
      if |pendingWhitespace| > 1 {
        text := text + pendingWhitespace[1..];
        length := length + |pendingWhitespace| - 1;
      }
      assert text == Join(lines) + CRLF + FoldSpace(pendingWhitespace);
      JoinAppend(lines, FoldSpace(pendingWhitespace) + word);
      Associate(Join(lines) + CRLF, FoldSpace(pendingWhitespace), word);
    } else {
      assert after[|lines| - 1] == lines[|lines| - 1] + (pendingWhitespace + word);
      text := text + pendingWhitespace;
      length := length + |pendingWhitespace|;
      JoinExtend(lines, pendingWhitespace + word);
      Associate(Join(lines), pendingWhitespace, word);
    }
    assert forall i :: 0 <= i < |after| - 1 ==> after[i] == lines[i];
    assert |after[|after| - 1]| == length + |word|;
    if length + |word| > MAXIMUM {
      return text, None;
    }
    return text + word, Some(length + |word|);
  }

  /** The lines so far, and the text still unread, lead to the layout of the whole header. */
  ghost predicate LeadsTo(nameLength: nat, lines: seq<bytes>, unread: bytes, layout: seq<bytes>) {
    lines != [] && Extend(AddWords(nameLength, lines, Tokens(unread)), Trailing(unread)) == layout
  }

  lemma {:induction false} ReadWord(nameLength: nat, lines: seq<bytes>, t: Token, rest: bytes, layout: seq<bytes>)
    requires AllWhitespace(t.space) && rest != [] && !IsWhitespace(rest[0])
    requires t.word == rest[..WordLength(rest)]
    requires LeadsTo(nameLength, lines, t.space + rest, layout)
    ensures StartsBlank(rest[WordLength(rest)..])
    ensures LeadsTo(nameLength, AddWord(nameLength, lines, t), rest[WordLength(rest)..], layout)
  {
    var after := rest[WordLength(rest)..];
    FirstWord(rest);
    TokensCons(t, after);
    Associate(t.space, t.word, after);
    Rejoin(rest, WordLength(rest));
    assert ([t] + Tokens(after))[1..] == Tokens(after);
  }

  lemma {:induction false} MoveSpace(space: bytes, rest: bytes, n: nat)
    requires AllWhitespace(space) && n <= |rest| && AllWhitespace(rest[..n])
    ensures AllWhitespace(space + rest[..n])
    ensures space + rest == space + rest[..n] + rest[n..]
  {}

  lemma {:induction false} ReadTrailing(nameLength: nat, lines: seq<bytes>, space: bytes, layout: seq<bytes>)
    requires AllWhitespace(space) && LeadsTo(nameLength, lines, space, layout)
    ensures layout == Extend(lines, space)
    ensures Join(layout) == Join(lines) + space
    ensures Fits(lines[..|lines| - 1]) ==> (Fits(layout) <==> |lines[|lines| - 1]| + |space| <= MAXIMUM)
  {
    assert SpaceLength(space) == |space|;
    JoinExtend(lines, space);
    assert layout[|lines| - 1] == lines[|lines| - 1] + space;
    assert forall i :: 0 <= i < |lines| - 1 ==> layout[i] == lines[..|lines| - 1][i];
  }

  /** One turn of foldHeader's loop up to the call: the whitespace before the next word, the word, and what is left. */
  method TakeWord(pendingWhitespace: bytes, value: bytes, ghost nameLength: nat, ghost lines: seq<bytes>,
          ghost layout: seq<bytes>)
    returns (space: bytes, word: bytes, rest: bytes)
    requires AllWhitespace(pendingWhitespace) && (pendingWhitespace == [] ==> StartsBlank(value))
    requires SpaceLength(value) < |value|
    requires LeadsTo(nameLength, lines, pendingWhitespace + value, layout)
    ensures space != [] && StartsBlank(rest) && |rest| < |value|
    ensures LeadsTo(nameLength, AddWord(nameLength, lines, Token(space, word)), rest, layout)
  {
    var whitespaceLength := SpaceLength(value);
    space, rest := pendingWhitespace, value;
    if whitespaceLength > 0 {
      MoveSpace(pendingWhitespace, value, whitespaceLength);
      space := space + value[..whitespaceLength];
      rest := value[whitespaceLength..];
    }
    var wordLength := WordLength(rest);
    word := rest[..wordLength];
    ReadWord(nameLength, lines, Token(space, word), rest, layout);
    rest := rest[wordLength..];
  }

  lemma {:induction false} Begin(name: bytes, value: bytes) returns (layout: seq<bytes>)
    requires NoLineBreak(value) && value != []
    ensures LeadsTo(|name|, [name + [COLON]], [SP] + value, layout)
    ensures Fold(name, value) == if Fits(layout) then Header(Join(layout)) else LineTooLong
  {
    layout := Layout(name, value);
  }

  method FoldHeader(name: bytes, value: bytes) returns (r: FoldResult)
    ensures r == Fold(name, value)
  {
    if !NoLineBreak(value) {
      return LineBreakInValue;
    }
    if value == [] {
      return Header(name + [COLON, SP]);
    }
    var result := name + [COLON];
    var lineLength := |name| + 1;
    var pendingWhitespace := [SP];
    var rest := value;
    ghost var lines := [name + [COLON]];
    ghost var layout := Begin(name, value);
    while rest != []
      invariant FitsSoFar(|name|, lines) && (pendingWhitespace == [] ==> Fits(lines))
      invariant result == Join(lines) && lineLength == |lines[|lines| - 1]|
      invariant AllWhitespace(pendingWhitespace) && (pendingWhitespace == [] ==> StartsBlank(rest))
      invariant LeadsTo(|name|, lines, pendingWhitespace + rest, layout)
      decreases |rest|
    {
      if SpaceLength(rest) == |rest| {
        pendingWhitespace := pendingWhitespace + rest;
        break;
      }
      var space, word, after := TakeWord(pendingWhitespace, rest, |name|, lines, layout);
      var text, length := AppendFoldedHeaderWord(result, |name|, lineLength, space, word, lines);
      lines := AddWord(|name|, lines, Token(space, word));
      if length == None {
        OverlongStays(|name|, lines, Tokens(after), Trailing(after));
        return LineTooLong;
      }
      result, lineLength, pendingWhitespace, rest := text, length.value, [], after;
      assert [] + after == after;
    }

    assert rest == [] ==> pendingWhitespace + rest == pendingWhitespace;
    ReadTrailing(|name|, lines, pendingWhitespace, layout);
    if pendingWhitespace != [] {
      if lineLength + |pendingWhitespace| > MAXIMUM {
        return LineTooLong;
      }
      result := result + pendingWhitespace;
    }
    return Header(result);
  }
}
