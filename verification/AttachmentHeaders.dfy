/** pkg/email/mime_parameters.go: the headers of an attachment. */
module AttachmentHeaders {
  // formatAttachmentHeaderValue folds what the library makes of the parameters, and when that does not fold, the long
  // form. The long form folds within wide bounds, and a reader gets every parameter out of the folded header.

  import opened Bytes
  import opened HeaderText
  import opened HeaderFolding
  import opened HeaderLines
  import opened MimeParameters
  import opened MimeParameterReader
  import EncodedWords
  import EncodedWordHeaders
  import Decimal

  function TrimPrefix(s: bytes, prefix: bytes): bytes {
    if prefix <= s then s[|prefix|..] else s
  }

  /** A folded header without its name. */
  function FoldedValue(name: bytes, value: bytes): (r: FoldResult) {
    match Fold(name, value)
    case Header(text) => Header(TrimPrefix(text, name + [COLON, SP]))
    case error => error
  }

  // ---- the code

  method FoldHeaderValue(name: bytes, value: bytes) returns (r: FoldResult)
    ensures r == FoldedValue(name, value)
  {
    r := FoldHeader(name, value);
    if r.Header? {
      r := Header(TrimPrefix(r.text, name + [COLON, SP]));
    }
  }

  /** formatted is what mime.FormatMediaType makes of the media type and the parameters. */
  method FormatAttachmentHeaderValue(header: bytes, formatted: bytes, mediaType: bytes, params: seq<(bytes, bytes)>)
    returns (r: FoldResult)
    ensures r == if FoldedValue(header, formatted).Header? then FoldedValue(header, formatted)
                 else FoldedValue(header, LongMediaType(mediaType, params))
  {
    r := FoldHeaderValue(header, formatted);
    if r.Header? {
      return;
    }
    var long := FormatLongMediaTypeParameters(mediaType, params);
    r := FoldHeaderValue(header, long);
  }

  // ---- a folded header starts with its name

  lemma {:induction false} FirstLineCarried(lines: seq<bytes>, text: bytes)
    requires Carries(lines, text) && lines != []
    ensures lines[0] <= text
    decreases |lines|
  {
    if |lines| > 1 {
      FirstLineCarried(lines[..|lines| - 1], text[..|text| - |lines[|lines| - 1]|]);
    }
  }

  lemma {:induction false} FirstLineIsLong(nameLength: nat, lines: seq<bytes>)
    requires WellFolded(nameLength, lines) && |lines| > 1
    ensures |lines[0]| > nameLength + 1
    decreases |lines|
  {
    if |lines| > 2 {
      FirstLineIsLong(nameLength, lines[..|lines| - 1]);
    } else {
      assert NeededFold(nameLength, lines[0], lines[1]);
    }
  }

  lemma {:induction false} NameComesFirst(name: bytes, value: bytes, text: bytes)
    requires Fold(name, value) == Header(text)
    ensures text == name + [COLON, SP] + TrimPrefix(text, name + [COLON, SP])
  {
    var prefix := name + [COLON, SP];
    var lines := FoldedLayout(name, value, text);
    FirstLineCarried(lines, prefix + value);
    if |lines| > 1 {
      FirstLineIsLong(|name|, lines);
    } else {
      assert lines[0] == prefix + value;
    }
    assert |lines[0]| >= |prefix|;
    assert prefix == (prefix + value)[..|prefix|] == lines[0][..|prefix|];
    JoinStarts(lines);
    assert prefix == text[..|prefix|];
  }

  lemma {:induction false} JoinStarts(lines: seq<bytes>)
    requires lines != []
    ensures lines[0] <= Join(lines)
  {}

  // ---- the long form, word by word

  function SectionList(key: bytes, index: nat, chunks: seq<bytes>): (sections: seq<bytes>)
    decreases |chunks|
  {
    if chunks == [] then [] else [Section(key, index, chunks[0])] + SectionList(key, index + 1, chunks[1..])
  }

  function AllSectionList(params: seq<(bytes, bytes)>): (sections: seq<bytes>) {
    if params == [] then []
    else SectionList(params[0].0, 0, Parameter(params[0].1)) + AllSectionList(params[1..])
  }

  function BehindEach(sections: seq<bytes>): (s: bytes) {
    if sections == [] then [] else [SEMICOLON, SP] + sections[0] + BehindEach(sections[1..])
  }

  lemma {:induction false} BehindEachAppend(a: seq<bytes>, b: seq<bytes>)
    ensures BehindEach(a + b) == BehindEach(a) + BehindEach(b)
  {
    if a == [] {
      assert a + b == b;
    } else {
      BehindEachAppend(a[1..], b);
      assert (a + b)[1..] == a[1..] + b;
      Associate([SEMICOLON, SP] + a[0], BehindEach(a[1..]), BehindEach(b));
    }
  }

  lemma {:induction false} SectionsAre(key: bytes, index: nat, chunks: seq<bytes>)
    ensures Sections(key, index, chunks) == BehindEach(SectionList(key, index, chunks))
    decreases |chunks|
  {
    hide Section;
    if chunks != [] {
      SectionsAre(key, index + 1, chunks[1..]);
      var list := SectionList(key, index, chunks);
      assert list[1..] == SectionList(key, index + 1, chunks[1..]);
    }
  }

  lemma {:induction false} AllSectionsAre(params: seq<(bytes, bytes)>)
    ensures AllSections(params) == BehindEach(AllSectionList(params))
  {
    hide Sections, SectionList, Parameter;
    if params != [] {
      var chunks := Parameter(params[0].1);
      AllSectionsAre(params[1..]);
      SectionsAre(params[0].0, 0, chunks);
      BehindEachAppend(SectionList(params[0].0, 0, chunks), AllSectionList(params[1..]));
    }
  }

  /** The words of the header: each but the last with its semicolon. */
  function Words(first: bytes, sections: seq<bytes>): (words: seq<bytes>)
    decreases |sections|
  {
    if sections == [] then [first] else [first + [SEMICOLON]] + Words(sections[0], sections[1..])
  }

  lemma {:induction false} WordsText(first: bytes, sections: seq<bytes>)
    ensures EncodedWords.SpaceBefore(Words(first, sections)) == [SP] + (first + BehindEach(sections))
    decreases |sections|
  {
    var words := Words(first, sections);
    if sections == [] {
      assert words[1..] == [];
    } else {
      var rest := BehindEach(sections[1..]);
      WordsText(sections[0], sections[1..]);
      assert words[1..] == Words(sections[0], sections[1..]);
      SpacesBetween(first, sections[0], rest);
    }
  }

  lemma {:induction false} SpacesBetween(first: bytes, second: bytes, rest: bytes)
    ensures [SP] + (first + [SEMICOLON]) + ([SP] + (second + rest))
         == [SP] + (first + ([SEMICOLON, SP] + second + rest))
  {
    var semicolon, space: bytes := [SEMICOLON], [SP];
    assert [SEMICOLON, SP] == semicolon + space;
    assert space + (first + semicolon) + (space + (second + rest))
        == space + (first + (semicolon + space + second + rest));
  }

  // ---- how long the words are

  predicate AllShort(words: seq<bytes>, max: nat) {
    words == [] || (PlainWord(words[0]) && |words[0]| <= max && AllShort(words[1..], max))
  }

  lemma {:induction false} ShortIsPlain(words: seq<bytes>, max: nat)
    requires AllShort(words, max)
    ensures EncodedWordHeaders.AllPlain(words)
  {
    if words != [] {
      ShortIsPlain(words[1..], max);
    }
  }

  lemma {:induction false} ShortAppend(a: seq<bytes>, b: seq<bytes>, max: nat)
    requires AllShort(a, max) && AllShort(b, max)
    ensures AllShort(a + b, max)
  {
    if a == [] {
      assert a + b == b;
    } else {
      ShortAppend(a[1..], b, max);
      assert (a + b)[1..] == a[1..] + b;
    }
  }

  lemma {:induction false} WordsAreShort(first: bytes, sections: seq<bytes>, max: nat)
    requires PlainBytes(first) && |first| < max && AllShort(sections, max - 1)
    requires first != [] || sections != []
    ensures AllShort(Words(first, sections), max)
    decreases |sections|
  {
    var words := Words(first, sections);
    if sections == [] {
      assert words[1..] == [];
    } else {
      WordsAreShort(sections[0], sections[1..], max);
      assert words[1..] == Words(sections[0], sections[1..]);
      PlainAppend(first, [SEMICOLON]);
    }
  }

  lemma {:induction false} MoreDigits(m: nat, n: nat)
    requires m <= n
    ensures |Decimal.Digits(m)| <= |Decimal.Digits(n)|
  {
    if m >= 10 {
      MoreDigits(m / 10, n / 10);
    }
  }

  lemma {:induction false} DigitsArePlain(n: nat)
    ensures PlainBytes(Decimal.Digits(n))
  {}

  lemma {:induction false} FewChunks(current: bytes, value: bytes)
    ensures |ChunksFrom(current, value)| <= |value| + 1
    decreases |value|
  {
    hide EncodeByte;
    if value != [] {
      var encoded := EncodeByte(value[0]);
      FewChunks(encoded, value[1..]);
      FewChunks(current + encoded, value[1..]);
    }
  }

  lemma {:induction false} DecodableIsPlain(s: bytes)
    requires PercentDecode(s).Some?
    ensures PlainBytes(s)
    decreases |s|
  {
    if s != [] {
      var n := EscapeLength(s);
      DecodableIsPlain(s[n..]);
      EscapeIsPlain(s);
      PlainAppend(s[..n], s[n..]);
      Rejoin(s, n);
    }
  }

  lemma {:induction false} EscapeIsPlain(s: bytes)
    ensures PlainBytes(s[..EscapeLength(s)])
  {}

  const MAX_TEXT := 52 // a chunk of 45 behind the character set

  predicate TextsOk(texts: seq<bytes>) {
    forall t <- texts :: PlainBytes(t) && |t| <= MAX_TEXT
  }

  lemma {:induction false} ChunkedIsPlain(chunks: seq<bytes>, value: bytes)
    requires Chunked(chunks, value)
    ensures forall t <- chunks :: PlainBytes(t) && |t| <= CHUNK
    decreases |chunks|
  {
    if chunks != [] {
      DecodableIsPlain(chunks[0]);
      ChunkedIsPlain(chunks[1..], value[|PercentDecode(chunks[0]).value|..]);
      assert forall t <- chunks :: t == chunks[0] || t in chunks[1..];
    }
  }

  lemma {:induction false} ParameterTexts(value: bytes)
    ensures TextsOk(Parameter(value)) && |Parameter(value)| <= |value| + 1
  {
    var chunks := ChunksFrom([], value);
    ParameterChunks(value);
    FewChunks([], value);
    ChunkedIsPlain(chunks, value);
    PlainAppend(UTF8, chunks[0]);
    forall t <- Parameter(value) ensures PlainBytes(t) && |t| <= MAX_TEXT {
      assert t in chunks || t == UTF8 + chunks[0];
    }
  }

  lemma {:induction false} LowerKeyIsPlain(key: bytes)
    requires IsKey(key)
    ensures PlainWord(ToLower(key))
  {}

  lemma {:induction false} SectionIsShort(key: bytes, index: nat, text: bytes)
    requires IsKey(key) && PlainBytes(text) && |text| <= MAX_TEXT
    ensures PlainWord(Section(key, index, text))
    ensures |Section(key, index, text)| <= |key| + |Decimal.Digits(index)| + 3 + MAX_TEXT
  {
    hide ToLower, Decimal.Digits, PlainBytes;
    var a, b: bytes := [STAR], [STAR, EQUALS];
    LowerKeyIsPlain(key);
    DigitsArePlain(index);
    SignsArePlain();
    PlainAppend(ToLower(key), a);
    PlainAppend(ToLower(key) + a, Decimal.Digits(index));
    PlainAppend(ToLower(key) + a + Decimal.Digits(index), b);
    PlainAppend(ToLower(key) + a + Decimal.Digits(index) + b, text);
  }

  lemma {:induction false} SignsArePlain()
    ensures PlainBytes([STAR]) && PlainBytes([STAR, EQUALS])
  {}

  lemma {:induction false} SectionsAreShort(key: bytes, index: nat, chunks: seq<bytes>, n: nat, max: nat)
    requires IsKey(key) && TextsOk(chunks) && index + |chunks| <= n + 1
    requires |key| + |Decimal.Digits(n)| + 3 + MAX_TEXT <= max
    ensures AllShort(SectionList(key, index, chunks), max)
    decreases |chunks|
  {
    hide PlainBytes, Section, Decimal.Digits;
    if chunks != [] {
      assert chunks[0] in chunks && forall t <- chunks[1..] :: t in chunks;
      SectionIsShort(key, index, chunks[0]);
      MoreDigits(index, n);
      SectionsAreShort(key, index + 1, chunks[1..], n, max);
      assert SectionList(key, index, chunks)[1..] == SectionList(key, index + 1, chunks[1..]);
    }
  }

  /** A parameter that leaves room for its sections beside a field name of that length. */
  predicate ParameterFits(nameLength: nat, param: (bytes, bytes)) {
    nameLength + |param.0| + |Decimal.Digits(|param.1|)| + 6 + MAX_TEXT <= MAXIMUM
  }

  predicate ParametersFit(nameLength: nat, params: seq<(bytes, bytes)>) {
    forall p <- params :: ParameterFits(nameLength, p)
  }

  lemma {:induction false} AllSectionsAreShort(nameLength: nat, params: seq<(bytes, bytes)>, max: nat)
    requires AllKeys(params) && ParametersFit(nameLength, params) && nameLength + max + 3 == MAXIMUM
    ensures AllShort(AllSectionList(params), max)
  {
    hide Parameter, SectionList, TextsOk, Decimal.Digits, IsKey;
    if params != [] {
      var p := params[0];
      assert ParameterFits(nameLength, p);
      assert forall q <- params[1..] :: q in params;
      ParameterTexts(p.1);
      SectionsAreShort(p.0, 0, Parameter(p.1), |p.1|, max);
      AllSectionsAreShort(nameLength, params[1..], max);
      ShortAppend(SectionList(p.0, 0, Parameter(p.1)), AllSectionList(params[1..]), max);
    }
  }

  // ---- the lines

  /** Words this short leave no line too long. */
  lemma {:induction false} ShortWordsFit(nameLength: nat, lines: seq<bytes>, words: seq<bytes>, max: nat)
    requires lines != [] && HeaderFolding.Fits(lines) && AllShort(words, max) && nameLength + 2 + max <= MAXIMUM
    ensures HeaderFolding.Fits(AddWords(nameLength, lines, EncodedWordHeaders.WordTokens(words)))
    decreases |words|
  {
    if words != [] {
      var t := Token([SP], words[0]);
      EncodedWordHeaders.WordTokensStep(words);
      ShortWordFits(nameLength, lines, words[0]);
      ShortWordsFit(nameLength, AddWord(nameLength, lines, t), words[1..], max);
    }
  }

  lemma {:induction false} ShortWordFits(nameLength: nat, lines: seq<bytes>, word: bytes)
    requires lines != [] && HeaderFolding.Fits(lines) && nameLength + 2 + |word| <= MAXIMUM
    ensures HeaderFolding.Fits(AddWord(nameLength, lines, Token([SP], word)))
  {}

  lemma {:induction false} SpacesOnly(words: seq<bytes>)
    requires EncodedWordHeaders.AllPlain(words)
    ensures NoneOf(EncodedWords.SpaceBefore(words), TAB)
  {
    if words != [] {
      SpacesOnly(words[1..]);
    }
  }

  lemma {:induction false} LayoutFits(name: bytes, value: bytes, words: seq<bytes>, max: nat)
    requires [SP] + value == EncodedWords.SpaceBefore(words) && AllShort(words, max) && |name| + 2 + max <= MAXIMUM
    ensures HeaderFolding.Fits(Layout(name, value)) && NoLineBreak(value) && NoneOf(value, TAB)
  {
    ShortIsPlain(words, max);
    EncodedWordHeaders.TokensOfWords(words);
    ShortWordsFit(|name|, [name + [COLON]], words, max);
    EncodedWordHeaders.NothingToExtend(AddWords(|name|, [name + [COLON]], EncodedWordHeaders.WordTokens(words)));
    SpacesOnly(words);
    assert forall i :: 0 <= i < |value| ==> value[i] == ([SP] + value)[i + 1];
  }

  // ---- reading it back

  /** Without tabs, unfolding returns the text as it was. */
  lemma {:induction false} NothingLost(name: bytes, value: bytes, header: bytes)
    requires PlainBytes(name) && NoneOf(value, TAB) && Fold(name, value) == Header(header)
    ensures Unfold(header) == name + [COLON, SP] + value
  {
    var text := name + [COLON, SP] + value;
    UnfoldReturnsText(name, value, header);
    NoTabs(name, value);
    assert forall i :: 0 <= i < |text| ==> Unfold(header)[i] == text[i];
  }

  lemma {:induction false} NoTabs(name: bytes, value: bytes)
    requires PlainBytes(name) && NoneOf(value, TAB)
    ensures NoneOf(name + [COLON, SP] + value, TAB)
  {}

  /** A media type is one word without a semicolon, and leaves room for the field name in front of it. */
  predicate MediaTypeFits(nameLength: nat, mediaType: bytes) {
    PlainBytes(mediaType) && NoneOf(mediaType, SEMICOLON) && nameLength + |mediaType| + 3 <= MAXIMUM
  }

  lemma {:induction false} LongFormFolds(name: bytes, mediaType: bytes, params: seq<(bytes, bytes)>)
    requires MediaTypeFits(|name|, mediaType) && AllKeys(params) && ParametersFit(|name|, params)
    ensures Fold(name, LongMediaType(mediaType, params)).Header? && NoneOf(LongMediaType(mediaType, params), TAB)
  {
    var value := LongMediaType(mediaType, params);
    if value != [] {
      var sections, max := AllSectionList(params), MAXIMUM - |name| - 2;
      AllSectionsAre(params);
      AllSectionsAreShort(|name|, params, max - 1);
      if sections == [] {
        assert mediaType + BehindEach(sections) == mediaType;
      }
      WordsAreShort(mediaType, sections, max);
      WordsText(mediaType, sections);
      LayoutFits(name, value, Words(mediaType, sections), max);
    }
  }

  /**
   The fallback of formatAttachmentHeaderValue never fails while name, media type and keys leave the room they need, and
   a reader who unfolds the header finds every parameter in it.
   */
  lemma {:induction false} AttachmentHeaderReadsBack(name: bytes, mediaType: bytes, params: seq<(bytes, bytes)>, k: nat)
    requires PlainBytes(name) && MediaTypeFits(|name|, mediaType)
    requires AllKeys(params) && DistinctKeys(params) && ParametersFit(|name|, params) && k < |params|
    ensures var folded := FoldedValue(name, LongMediaType(mediaType, params));
      folded.Header?
      && var text := name + [COLON, SP] + folded.text;
         && ReaderSees(name, LongMediaType(mediaType, params), text)
         && Unfold(text) == name + [COLON, SP] + LongMediaType(mediaType, params)
         && ReadParameter(Unfold(text)[|name| + 2..], ToLower(params[k].0)) == Some(params[k].1)
  {
    var value := LongMediaType(mediaType, params);
    LongFormFolds(name, mediaType, params);
    var header := Fold(name, value).text;
    NameComesFirst(name, value, header);
    NothingLost(name, value, header);
    FoldedLines(name, value, header);
    LongParametersReadBack(mediaType, params, k);
    assert (name + [COLON, SP] + value)[|name| + 2..] == value;
  }
}
