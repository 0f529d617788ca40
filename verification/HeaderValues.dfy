/** pkg/email/mime_headers.go: encodeHeader. */
module HeaderValues {
  // Which values encodeHeader encodes, and exactly when a reader gets back the value that it was given.

  import opened Bytes
  import opened AsciiFields
  import opened HeaderText
  import opened EncodedWordReader
  import opened EncodedWords
  import opened EncodedWordHeaders
  import Base64
  import Utf8

  /** Some word has the shape of an encoded word. */
  predicate HasEncodedWord(toks: seq<Token>) {
    toks != [] && (Shape(toks[0].word).Some? || HasEncodedWord(toks[1..]))
  }

  /** A value needs encoding for its characters exactly when some byte is not ASCII. */
  lemma {:induction false} NonAsciiBytes(value: bytes)
    ensures ContainsNonAscii(value) <==> !Utf8.PlainAscii(value)
  {
    Utf8.PlainAsciiRunes(value);
    SingleByteRunes(Utf8.Runes(value));
  }

  lemma {:induction false} SingleByteRunes(rs: seq<bytes>)
    ensures Utf8.AllSingleByteRunes(rs) <==>
            forall i :: 0 <= i < |rs| ==> Utf8.IsRune(rs[i]) && |rs[i]| <= 1
  {
    if rs != [] {
      SingleByteRunes(rs[1..]);
      assert forall i :: 0 < i < |rs| ==> rs[i] == rs[1..][i - 1];
      assert forall i :: 0 <= i < |rs| - 1 ==> rs[1..][i] == rs[i + 1];
    }
  }

  lemma {:induction false} PlainTokensReadBack(toks: seq<Token>, afterEncodedWord: bool)
    requires !HasEncodedWord(toks)
    ensures DecodeTokens(toks, afterEncodedWord) == Some(TokenText(toks))
    decreases |toks|
  {
    if toks != [] {
      PlainTokensReadBack(toks[1..], false);
    }
  }

  lemma {:induction false} EncodedTokensReadShorter(toks: seq<Token>, afterEncodedWord: bool)
    requires DecodeTokens(toks, afterEncodedWord).Some?
    ensures |DecodeTokens(toks, afterEncodedWord).value| <= |TokenText(toks)|
    ensures HasEncodedWord(toks) ==> |DecodeTokens(toks, afterEncodedWord).value| < |TokenText(toks)|
    decreases |toks|
  {
    hide Shape, DecodeWord;
    if toks != [] {
      DecodedWordIsShorter(toks[0].word);
      EncodedTokensReadShorter(toks[1..], Shape(toks[0].word).Some?);
    }
  }

  /**
   A reader gets back the value that encodeHeader was given, unless the value goes out unencoded and one of its words
   happens to have the shape of an encoded word; and then it never does.
   */
  lemma {:induction false} EncodeHeaderReadsBack(value: bytes)
    ensures DecodeText(EncodeHeader(value)) == Some(value) <==>
            NeedsEncodedWords(value) || !HasEncodedWord(Tokens(value))
  {
    if NeedsEncodedWords(value) {
      DecodeHeaderWords(value);
    } else {
      TokensCover(value);
      if HasEncodedWord(Tokens(value)) {
        if DecodeTokens(Tokens(value), false).Some? {
          EncodedTokensReadShorter(Tokens(value), false);
        }
      } else {
        PlainTokensReadBack(Tokens(value), false);
      }
    }
  }

  /** Such values exist: a value that is itself an encoded word is sent as it is, and read as its payload. */
  lemma {:induction false} EncodedWordAsValue(payload: bytes)
    requires 1 <= |payload| <= MAX_PAYLOAD
    ensures EncodeHeader(EncodedWord(payload)) == EncodedWord(payload)
    ensures DecodeText(EncodedWord(payload)) == Some(payload)
  {
    var word := EncodedWord(payload);
    EncodedWordShape(payload);
    EncodedWordIsAscii(payload);
    NonAsciiBytes(word);
    DecodeJoined(word, [], payload, []);
    assert word + SpaceBefore([]) == word && payload + [] == payload;
  }

  lemma {:induction false} EncodedWordIsAscii(payload: bytes)
    ensures Utf8.PlainAscii(EncodedWord(payload))
  {
    var middle := Base64.Encode(payload);
    Base64.EncodeShape(payload);
    assert forall c: byte :: Base64.IsBase64Byte(c) ==> c <= 0x7F;
    BytesAreAscii(EncodedWord(payload));
  }

  lemma {:induction false} BytesAreAscii(s: bytes)
    requires forall i :: 0 <= i < |s| ==> s[i] <= 0x7F
    ensures Utf8.PlainAscii(s)
  {
    if s != [] {
      BytesAreAscii(s[1..]);
    }
  }

  // ---- what goes into the header, said of its bytes and fields alone

  predicate AllAscii(s: bytes) {
    forall i :: 0 <= i < |s| ==> s[i] <= 0x7F
  }

  const MAX_FIELD := 997

  predicate ShortFields(s: bytes) {
    forall w <- Fields(s) :: |w| <= MAX_FIELD
  }

  predicate AllEncoded(words: seq<bytes>) {
    forall w <- words :: |w| <= 72 && Shape(w).Some?
  }

  lemma {:induction false} AsciiBytes(s: bytes)
    ensures Utf8.PlainAscii(s) <==> AllAscii(s)
  {
    if s != [] {
      AsciiBytes(s[1..]);
      assert s == [s[0]] + s[1..];
    }
  }

  lemma {:induction false} SpaceInside(s: bytes, i: nat, k: nat)
    requires i <= k <= i + MAX_TOKEN && k < |s| && IsAsciiSpace(s[k])
    ensures !LongTokenAt(s, i)
  {
    if i + MAX_TOKEN < |s| {
      assert s[i..i + MAX_TOKEN + 1][k - i] == s[k];
    }
  }

  lemma {:induction false} Behind(before: bytes, s: bytes, i: nat)
    requires i >= |before|
    ensures LongTokenAt(before + s, i) <==> LongTokenAt(s, i - |before|)
  {
    if i + MAX_TOKEN < |before + s| {
      assert (before + s)[i..i + MAX_TOKEN + 1] == s[i - |before|..i - |before| + MAX_TOKEN + 1];
    }
  }

  lemma {:induction false} LongTokenIn(gap: bytes, word: bytes, rest: bytes, i: nat)
    requires AllSpace(gap) && (rest == [] || IsAsciiSpace(rest[0]))
    requires LongTokenAt(gap + word + rest, i) && i < |gap + word + rest|
    ensures |word| > MAX_FIELD || (i >= |gap + word| && LongTokenAt(rest, i - |gap + word|))
  {
    hide LongTokenAt;
    var s := gap + word + rest;
    if i < |gap| {
      SpaceInside(s, i, i);
    } else if i < |gap + word| {
      if |word| <= MAX_FIELD {
        TooShort(s, i);
        SpaceInside(s, i, |gap + word|);
      }
    } else {
      Behind(gap + word, rest, i);
    }
  }

  lemma {:induction false} TooShort(s: bytes, i: nat)
    ensures LongTokenAt(s, i) ==> i + MAX_TOKEN < |s|
  {}

  lemma {:induction false} LongTokenOf(gap: bytes, word: bytes, rest: bytes)
    ensures |word| > MAX_FIELD && IsWord(word) ==> HasLongToken(gap + word + rest)
    ensures HasLongToken(rest) ==> HasLongToken(gap + word + rest)
  {
    var s := gap + word + rest;
    if |word| > MAX_FIELD && IsWord(word) {
      assert s[|gap|..|gap| + MAX_TOKEN + 1] == word[..MAX_TOKEN + 1];
      assert LongTokenAt(s, |gap|);
    }
    if HasLongToken(rest) {
      var i: nat :| i < |rest| && LongTokenAt(rest, i);
      var k := |gap + word| + i;
      assert s[k..k + MAX_TOKEN + 1] == rest[i..i + MAX_TOKEN + 1];
      assert LongTokenAt(s, k);
    }
  }

  /** The scan for long tokens finds one exactly when some field is that long. */
  lemma {:induction false} LongFields(s: bytes)
    ensures HasLongToken(s) <==> !ShortFields(s)
    decreases |s|
  {
    hide LongTokenAt, Fields;
    if GapLength(s) == |s| {
      NoWord(s);
      NoLongToken(s);
    } else {
      var gap, word, rest := FirstOfFields(s);
      LongFields(rest);
      LongTokenOf(gap, word, rest);
      assert word in Fields(s) && forall w <- Fields(rest) :: w in Fields(s);
      assert forall w <- Fields(s) :: w == word || w in Fields(rest);
      if HasLongToken(s) && |word| <= MAX_FIELD {
        var i: nat :| i < |s| && LongTokenAt(s, i);
        LongTokenIn(gap, word, rest, i);
        InRange(rest, i - |gap + word|);
      }
    }
  }

  lemma {:induction false} InRange(s: bytes, i: nat)
    requires LongTokenAt(s, i)
    ensures HasLongToken(s)
  {}

  lemma {:induction false} NoLongToken(s: bytes)
    requires AllSpace(s)
    ensures !HasLongToken(s)
  {
    forall i: nat | i < |s| ensures !LongTokenAt(s, i) {
      SpaceInside(s, i, i);
    }
  }

  lemma {:induction false} EncodedIsWord(w: bytes)
    requires Shape(w).Some?
    ensures IsWord(w) && AllAscii(w)
  {
    hide Shape;
    ShapeReadsParts(w);
    PartsAreVisible(Shape(w).value);
  }

  lemma {:induction false} PartsAreVisible(p: Parts)
    requires WellFormed(p)
    ensures forall i :: 0 <= i < |PartsText(p)| ==> IsVisible(PartsText(p)[i])
    ensures PartsText(p) != []
  {}

  lemma {:induction false} WordsOfPayloads(value: bytes)
    ensures AllEncoded(EncodeAll(Payloads(value)))
    ensures value != [] ==> Payloads(value) != []
    decreases |value|
  {
    hide Shape, EncodedWord, Utf8.TakeRunes;
    if value != [] {
      var n := Utf8.TakeRunes(value, MAX_PAYLOAD);
      PayloadStep(value);
      EncodedWordShape(value[..n]);
      WordsOfPayloads(value[n..]);
    }
  }

  lemma {:induction false} FieldsOfSpaced(words: seq<bytes>)
    requires AllEncoded(words)
    ensures Fields(SpaceBefore(words)) == words && AllAscii(SpaceBefore(words))
  {
    hide Shape, Fields, IsWord;
    if words == [] {
      NoFields();
    } else {
      assert words[0] in words && forall w <- words[1..] :: w in words;
      FieldsOfSpaced(words[1..]);
      EncodedIsWord(words[0]);
      Associate([SP], words[0], SpaceBefore(words[1..]));
      SpaceSkipped(words[0] + SpaceBefore(words[1..]));
      FirstField(words[0], SpaceBefore(words[1..]));
    }
  }

  lemma {:induction false} FieldsOfJoined(words: seq<bytes>)
    requires AllEncoded(words)
    ensures Fields(JoinSpaced(words)) == words && AllAscii(JoinSpaced(words))
  {
    hide Shape, Fields, IsWord;
    if words == [] {
      NoFields();
    } else {
      assert words[0] in words && forall w <- words[1..] :: w in words;
      FieldsOfSpaced(words[1..]);
      EncodedIsWord(words[0]);
      FirstField(words[0], SpaceBefore(words[1..]));
    }
  }

  /**
   What encodeHeader puts into the header. It is ASCII for every value. An ASCII value without a field over 997 bytes
   goes out unchanged; any other goes out as encoded words of at most 72 characters and nothing else.
   */
  lemma {:induction false} EncodeHeaderExactlyWhen(value: bytes)
    ensures AllAscii(EncodeHeader(value))
    ensures AllAscii(value) && ShortFields(value) ==> EncodeHeader(value) == value
    ensures !(AllAscii(value) && ShortFields(value)) ==>
      Fields(EncodeHeader(value)) != [] && AllEncoded(Fields(EncodeHeader(value)))
  {
    hide Shape, Fields, HasLongToken, ContainsNonAscii;
    NonAsciiBytes(value);
    AsciiBytes(value);
    LongFields(value);
    WordsOfPayloads(value);
    FieldsOfJoined(EncodeAll(Payloads(value)));
    if value == [] {
      NoFields();
    }
  }
}
