/** Encoded words through the folding writer and back through a mail reader, for every value. */
module EncodedWordHeaders {
  import opened Bytes
  import opened HeaderText
  import opened HeaderFolding
  import opened EncodedWordReader
  import opened EncodedWords
  import Base64
  import Utf8

  // ---- one word

  predicate WordSize(w: bytes, last: bool) {
    16 <= |w| <= 72 && (last || |w| >= 68)
  }

  lemma {:induction false} Base64IsPlain(data: bytes)
    ensures PlainBytes(Base64.Encode(data))
  {
    Base64.EncodeShape(data);
    assert forall c: byte :: Base64.IsBase64Byte(c) ==> !IsWhitespace(c) && c != CR && c != LF;
  }

  lemma {:induction false} WrappedIsPlain(middle: bytes)
    requires PlainBytes(middle)
    ensures PlainWord(PREFIX + middle + SUFFIX)
  {
    PlainAppend(PREFIX, middle);
    PlainAppend(PREFIX + middle, SUFFIX);
  }

  lemma {:induction false} Base64IsEncodedText(data: bytes)
    requires data != []
    ensures IsEncodedText(Base64.Encode(data))
  {
    Base64.EncodeShape(data);
    assert forall c: byte :: Base64.IsBase64Byte(c) ==> IsVisible(c) && c != QUESTION;
  }

  const CHARSET: bytes := [0x55, 0x54, 0x46, 0x2D, 0x38] // UTF-8
  const ENCODING: bytes := [0x42]                        // B

  lemma {:induction false} NamesOfUtf8()
    ensures IsToken(CHARSET) && ToLower(CHARSET) == UTF8_NAME
  {}

  lemma {:induction false} NamesOfBase64()
    ensures IsToken(ENCODING) && ToLower(ENCODING) == EncodedWordReader.B
  {}

  lemma {:induction false} WordIsParts(middle: bytes)
    ensures PREFIX + middle + SUFFIX == PartsText(Parts(CHARSET, ENCODING, middle))
  {
    var question: bytes := [QUESTION];
    assert PREFIX == OPENING + (CHARSET + question + (ENCODING + question));
    assert SUFFIX == CLOSING;
    Inside(OPENING, CHARSET + question, ENCODING + question, middle);
  }

  lemma {:induction false} Inside(a: bytes, b: bytes, c: bytes, d: bytes)
    ensures a + (b + c) + d == a + (b + (c + d))
  {}

  lemma {:induction false} WrappedDecodes(middle: bytes, payload: bytes)
    requires IsEncodedText(middle) && |middle| <= 60
    requires Base64.Decode(middle) == Some(payload)
    ensures Shape(PREFIX + middle + SUFFIX).Some? && DecodeWord(PREFIX + middle + SUFFIX) == Some(payload)
  {
    hide IsEncodedText, Shape, IsToken, ToLower, PartsText;
    NamesOfUtf8();
    NamesOfBase64();
    WordIsParts(middle);
    ShapeIs(Parts(CHARSET, ENCODING, middle));
  }

  lemma {:induction false} EncodedWordShape(payload: bytes)
    requires 1 <= |payload| <= MAX_PAYLOAD
    ensures var w := EncodedWord(payload);
            && PlainWord(w)
            && WordSize(w, |payload| < 42)
            && Shape(w).Some? && DecodeWord(w) == Some(payload)
  {
    hide PlainBytes, DecodeWord, Shape, WordSize, IsEncodedText;
    Base64.EncodeShape(payload);
    Base64IsEncodedText(payload);
    Base64IsPlain(payload);
    Base64.RoundTrip(payload);
    var middle := Base64.Encode(payload);
    WrappedSize(middle, |payload|);
    WrappedIsPlain(middle);
    WrappedDecodes(middle, payload);
  }

  lemma {:induction false} WrappedSize(middle: bytes, n: nat)
    requires 1 <= n <= MAX_PAYLOAD && |middle| == (n + 2) / 3 * 4
    ensures 1 <= |middle| <= 60 && WordSize(PREFIX + middle + SUFFIX, n < 42)
  {}

  // ---- all the words of a value

  predicate WordSizes(words: seq<bytes>) {
    words == [] || (PlainWord(words[0]) && WordSize(words[0], |words| == 1) && WordSizes(words[1..]))
  }

  function DecodeAll(words: seq<bytes>): (r: Option<bytes>) {
    if words == [] then Some([])
    else
      match (DecodeWord(words[0]), DecodeAll(words[1..]))
      case (Some(d), Some(rest)) => Some(d + rest)
      case _ => None
  }

  function AllRunes(payloads: seq<bytes>): (runes: seq<bytes>) {
    if payloads == [] then [] else Utf8.Runes(payloads[0]) + AllRunes(payloads[1..])
  }

  /** The words of a value: their sizes, and that decoding them one by one returns the value. */
  lemma {:induction false} WordsOfValue(value: bytes)
    ensures var words := EncodeAll(Payloads(value)); WordSizes(words) && DecodeAll(words) == Some(value)
    ensures value != [] ==> Payloads(value) != []
    decreases |value|
  {
    hide PlainWord, DecodeWord, Utf8.TakeRunes, EncodedWord;
    if value == [] {
      assert EncodeAll(Payloads(value)) == [];
    } else {
      var n := Utf8.TakeRunes(value, MAX_PAYLOAD);
      PayloadStep(value);
      EncodedWordShape(value[..n]);
      WordsOfValue(value[n..]);
      Rejoin(value, n);
      LastPayload(value);
    }
  }

  lemma {:induction false} LastPayload(value: bytes)
    requires value != []
    ensures Utf8.TakeRunes(value, MAX_PAYLOAD) < 42 ==> Payloads(value[Utf8.TakeRunes(value, MAX_PAYLOAD)..]) == []
  {
    Utf8.TakesAllThatFit(value, MAX_PAYLOAD);
  }

  /** No rune, valid or not, is cut in two: the runes of the pieces are the runes of the value. */
  lemma {:induction false} PayloadsKeepRunes(value: bytes)
    ensures AllRunes(Payloads(value)) == Utf8.Runes(value)
    decreases |value|
  {
    hide Utf8.RuneSize, Utf8.TakeRunes;
    if value == [] {
    } else {
      PayloadStep(value);
      var n := Utf8.TakeRunes(value, MAX_PAYLOAD);
      Utf8.CutKeepsRunes(value, MAX_PAYLOAD);
      PayloadsKeepRunes(value[n..]);
      assert ([value[..n]] + Payloads(value[n..]))[1..] == Payloads(value[n..]);
    }
  }

  // ---- the words as text

  function WordTokens(words: seq<bytes>): (toks: seq<Token>) {
    if words == [] then [] else [Token([SP], words[0])] + WordTokens(words[1..])
  }

  predicate AllPlain(words: seq<bytes>) {
    words == [] || (PlainWord(words[0]) && AllPlain(words[1..]))
  }

  lemma {:induction false} SizesArePlain(words: seq<bytes>)
    requires WordSizes(words)
    ensures AllPlain(words)
  {
    if words != [] {
      SizesArePlain(words[1..]);
    }
  }

  lemma {:induction false} TokensOfWords(words: seq<bytes>)
    requires AllPlain(words)
    ensures Tokens(SpaceBefore(words)) == WordTokens(words) && Trailing(SpaceBefore(words)) == []
    ensures StartsBlank(SpaceBefore(words)) && NoLineBreak(SpaceBefore(words))
  {
    if words != [] {
      TokensOfWords(words[1..]);
      TokensCons(Token([SP], words[0]), SpaceBefore(words[1..]));
    }
  }

  lemma {:induction false} DecodeWordTokens(words: seq<bytes>, value: bytes)
    requires DecodeAll(words) == Some(value)
    ensures DecodeTokens(WordTokens(words), true) == Some(value)
  {
    hide DecodeWord;
    if words == [] {
    } else {
      var rest := DecodeAll(words[1..]).value;
      DecodeWordTokens(words[1..], rest);
      WordTokensStep(words);
      NothingBefore(DecodeWord(words[0]).value);
    }
  }

  lemma {:induction false} WordTokensStep(words: seq<bytes>)
    requires words != []
    ensures WordTokens(words) != [] && WordTokens(words)[0] == Token([SP], words[0])
    ensures WordTokens(words)[1..] == WordTokens(words[1..])
  {}

  lemma {:induction false} NothingBefore(word: bytes)
    ensures [] + word == word
  {}

  lemma {:induction false} WordWithoutSpace(word: bytes, rest: bytes)
    requires PlainWord(word) && StartsBlank(rest)
    ensures Tokens(word + rest) == [Token([], word)] + Tokens(rest)
    ensures Trailing(word + rest) == Trailing(rest)
  {
    NothingBefore(word);
    TokensCons(Token([], word), rest);
  }

  lemma {:induction false} DecodeFirst(word: bytes, d: bytes, toks: seq<Token>)
    requires DecodeWord(word) == Some(d)
    ensures DecodeTokens([Token([], word)] + toks, false) == After(d, DecodeTokens(toks, true))
  {
    assert ([Token([], word)] + toks)[1..] == toks;
    assert [] + d == d;
  }

  lemma {:induction false} DecodeJoined(word: bytes, words: seq<bytes>, d: bytes, value: bytes)
    requires PlainWord(word) && WordSizes(words)
    requires DecodeWord(word) == Some(d) && DecodeAll(words) == Some(value)
    ensures DecodeText(word + SpaceBefore(words)) == Some(d + value)
  {
    SizesArePlain(words);
    TokensOfWords(words);
    WordWithoutSpace(word, SpaceBefore(words));
    DecodeWordTokens(words, value);
    DecodeFirst(word, d, WordTokens(words));
    assert d + value + [] == d + value;
  }

  /** Decoding the text of the words, spaces between them included, returns the value. */
  lemma {:induction false} DecodeHeaderWords(value: bytes)
    ensures DecodeText(HeaderWords(value)) == Some(value)
  {
    WordsOfValue(value);
    if value == [] {
      var none: bytes := [];
      assert HeaderWords(value) == none;
      assert Tokens(none) == [] && Trailing(none) == none;
      assert none + none == none;
    } else {
      var words := EncodeAll(Payloads(value));
      DecodeJoined(words[0], words[1..], DecodeWord(words[0]).value, DecodeAll(words[1..]).value);
    }
  }

  // ---- the words in a folded header

  function WordLines(words: seq<bytes>): (lines: seq<bytes>)
    ensures |lines| == |words|
    ensures forall i :: 0 <= i < |lines| ==> lines[i] == [SP] + words[i]
  {
    if words == [] then [] else [[SP] + words[0]] + WordLines(words[1..])
  }

  /** After a line with a full encoded word on it, every further word goes to a line of its own. */
  lemma {:induction false} EachWordFolds(nameLength: nat, lines: seq<bytes>, words: seq<bytes>)
    requires lines != [] && nameLength <= 67 && WordSizes(words)
    requires words != [] ==> |lines[|lines| - 1]| >= 69 && |lines[|lines| - 1]| > nameLength + 1
    ensures AddWords(nameLength, lines, WordTokens(words)) == lines + WordLines(words)
    decreases |words|
  {
    hide PlainWord, AddWord;
    if words == [] {
      assert lines + [] == lines;
    } else {
      var line := [SP] + words[0];
      WordFolds(nameLength, lines, words[0]);
      EachWordFolds(nameLength, lines + [line], words[1..]);
      WordTokensStep(words);
      WordLinesStep(words);
      SameLines(lines, line, WordLines(words[1..]));
    }
  }

  lemma {:induction false} WordFolds(nameLength: nat, lines: seq<bytes>, word: bytes)
    requires lines != [] && |lines[|lines| - 1]| >= 69 && |lines[|lines| - 1]| > nameLength + 1 && |word| >= 16
    ensures AddWord(nameLength, lines, Token([SP], word)) == lines + [[SP] + word]
  {
    assert FoldSpace([SP]) + word == [SP] + word;
  }

  lemma {:induction false} WordLinesStep(words: seq<bytes>)
    requires words != []
    ensures WordLines(words) == [[SP] + words[0]] + WordLines(words[1..])
  {}

  lemma {:induction false} SameLines(lines: seq<bytes>, line: bytes, more: seq<bytes>)
    ensures lines + [line] + more == lines + ([line] + more)
  {}

  lemma {:induction false} FirstHeaderLine(name: bytes, word: bytes, toks: seq<Token>)
    ensures AddWords(|name|, [name + [COLON]], [Token([SP], word)] + toks)
         == AddWords(|name|, [name + [COLON, SP] + word], toks)
  {
    var start := [name + [COLON]];
    assert name + [COLON] + ([SP] + word) == name + [COLON, SP] + word;
    assert AddWord(|name|, start, Token([SP], word)) == [name + [COLON, SP] + word];
    assert ([Token([SP], word)] + toks)[1..] == toks;
  }

  lemma {:induction false} NothingToExtend(lines: seq<bytes>)
    requires lines != []
    ensures Extend(lines, []) == lines
  {
    assert lines[|lines| - 1] + [] == lines[|lines| - 1];
  }

  lemma {:induction false} WordLayout(name: bytes, word: bytes, words: seq<bytes>)
    requires |name| <= 67 && WordSizes([word] + words)
    ensures Layout(name, word + SpaceBefore(words)) == [name + [COLON, SP] + word] + WordLines(words)
  {
    var first := name + [COLON, SP] + word;
    assert ([word] + words)[1..] == words;
    SizesArePlain([word] + words);
    TokensOfWords([word] + words);
    Associate([SP], word, SpaceBefore(words));
    FirstHeaderLine(name, word, WordTokens(words));
    EachWordFolds(|name|, [first], words);
    NothingToExtend([first] + WordLines(words));
  }

  predicate OneWordPerLine(lines: seq<bytes>, words: seq<bytes>) {
    && |lines| == |words|
    && (forall i :: 0 < i < |lines| ==> lines[i] == [SP] + words[i])
  }

  /**
   For every value that is not empty and every field name of at most 67 bytes: the header folds; each line
   holds exactly one encoded word of at most 72 characters, and continuation lines at most 73; no rune is cut
   in two by the words; and unfolding and decoding the header returns the value.
   */
  lemma {:induction false} EncodedHeader(name: bytes, value: bytes) returns (header: bytes, words: seq<bytes>)
    requires |name| <= 67 && NoLineBreak(name) && value != []
    ensures Fold(name, HeaderWords(value)) == Header(header)
    ensures words == EncodeAll(Payloads(value)) && words != [] && WordSizes(words)
    ensures OneWordPerLine(Lines(header), words) && Lines(header)[0] == name + [COLON, SP] + words[0]
    ensures AllRunes(Payloads(value)) == Utf8.Runes(value)
    ensures Unfold(header) == name + [COLON, SP] + HeaderWords(value)
    ensures DecodeText(HeaderWords(value)) == Some(value)
  {
    WordsOfValue(value);
    PayloadsKeepRunes(value);
    DecodeHeaderWords(value);
    words := EncodeAll(Payloads(value));
    header := FoldedWords(name, words[0], words[1..]);
    assert [words[0]] + words[1..] == words;
  }

  lemma {:induction false} FoldedWords(name: bytes, word: bytes, words: seq<bytes>) returns (header: bytes)
    requires |name| <= 67 && NoLineBreak(name) && WordSizes([word] + words)
    ensures Fold(name, word + SpaceBefore(words)) == Header(header)
    ensures OneWordPerLine(Lines(header), [word] + words) && Lines(header)[0] == name + [COLON, SP] + word
    ensures Unfold(header) == name + [COLON, SP] + (word + SpaceBefore(words))
  {
    var value, lines := word + SpaceBefore(words), [name + [COLON, SP] + word] + WordLines(words);
    WordLayout(name, word, words);
    TextOfWordLines(name, word, words);
    header := Join(lines);
    LinesOfJoin(lines);
    UnfoldOfJoin(lines);
  }

  lemma {:induction false} FirstLine(name: bytes, word: bytes)
    requires |name| <= 67 && NoLineBreak(name) && PlainWord(word) && |word| <= 72
    ensures NoLineBreak(name + [COLON, SP] + word) && |name + [COLON, SP] + word| <= 141
  {}

  predicate ContinuationLine(line: bytes) {
    NoLineBreak(line) && 0 < |line| <= 73 && line[0] == SP
  }

  lemma {:induction false} ConsLine(first: bytes, lines: seq<bytes>)
    requires NoLineBreak(first) && |first| <= 141
    requires forall i :: 0 <= i < |lines| ==> ContinuationLine(lines[i])
    ensures AllNoLineBreak([first] + lines) && Folded([first] + lines) && Fits([first] + lines)
    ensures Concat([first] + lines) == first + Concat(lines)
  {
    assert ([first] + lines)[1..] == lines;
  }

  lemma {:induction false} TextOfWordLines(name: bytes, word: bytes, words: seq<bytes>)
    requires |name| <= 67 && NoLineBreak(name) && WordSizes([word] + words)
    ensures var lines := [name + [COLON, SP] + word] + WordLines(words);
            && AllNoLineBreak(lines) && Folded(lines) && Fits(lines)
            && Concat(lines) == name + [COLON, SP] + (word + SpaceBefore(words))
    ensures NoLineBreak(word + SpaceBefore(words)) && word + SpaceBefore(words) != []
  {
    assert ([word] + words)[1..] == words;
    SizesArePlain(words);
    TokensOfWords(words);
    LinesOfWords(words);
    FirstLine(name, word);
    ConsLine(name + [COLON, SP] + word, WordLines(words));
    Associate(name + [COLON, SP], word, SpaceBefore(words));
  }

  lemma {:induction false} LinesOfWords(words: seq<bytes>)
    requires WordSizes(words)
    ensures var lines := WordLines(words);
            && Concat(lines) == SpaceBefore(words)
            && forall i :: 0 <= i < |lines| ==> ContinuationLine(lines[i])
  {
    if words != [] {
      LinesOfWords(words[1..]);
      var lines := WordLines(words);
      assert lines[1..] == WordLines(words[1..]);
      assert forall i :: 0 < i < |lines| ==> lines[i] == lines[1..][i - 1];
    }
  }
}
