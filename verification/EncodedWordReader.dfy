/** The reader of encoded words: RFC 2047, for words in UTF-8. */
module EncodedWordReader {
  // Section numbers are those of RFC 2047.

  import opened Bytes
  import opened HeaderText
  import Base64

  const QUESTION: byte := 0x3F
  const UNDERSCORE: byte := 0x5F
  const OPENING: bytes := [EQUALS, QUESTION]
  const CLOSING: bytes := [QUESTION, EQUALS]
  const UTF8_NAME: bytes := [0x75, 0x74, 0x66, 0x2D, 0x38] // utf-8
  const B: bytes := [0x62]                                 // b
  const Q: bytes := [0x71]                                 // q
  const MAX_WORD := 75

  // ---- the shape: section 2

  /** ()<>@,;:"/[]?.= */
  const ESPECIALS: bytes :=
    [0x28, 0x29, 0x3C, 0x3E, 0x40, 0x2C, 0x3B, 0x3A, 0x22, 0x2F, 0x5B, 0x5D, QUESTION, 0x2E, EQUALS]

  predicate IsVisible(b: byte) {
    0x21 <= b <= 0x7E
  }

  predicate IsToken(s: bytes) {
    s != [] && forall i :: 0 <= i < |s| ==> IsVisible(s[i]) && s[i] !in ESPECIALS
  }

  predicate IsEncodedText(s: bytes) {
    s != [] && forall i :: 0 <= i < |s| ==> IsVisible(s[i]) && s[i] != QUESTION
  }

  datatype Parts = Parts(charset: bytes, encoding: bytes, text: bytes)

  function PartsText(p: Parts): bytes {
    OPENING + (p.charset + [QUESTION] + (p.encoding + [QUESTION] + p.text)) + CLOSING
  }

  predicate WellFormed(p: Parts) {
    IsToken(p.charset) && IsToken(p.encoding) && IsEncodedText(p.text)
  }

  /** The parts of a word that has the shape of an encoded word, whatever it is encoded in. */
  function Shape(word: bytes): (r: Option<Parts>) {
    if 4 <= |word| <= MAX_WORD && word[..2] == OPENING && word[|word| - 2..] == CLOSING
    then SplitParts(word[2..|word| - 2])
    else None
  }

  function SplitParts(inner: bytes): (r: Option<Parts>) {
    var a := Find(inner, QUESTION);
    if a == |inner| then None
    else
      var rest := inner[a + 1..];
      var b := Find(rest, QUESTION);
      if b == |rest| then None
      else
        var p := Parts(inner[..a], rest[..b], rest[b + 1..]);
        if WellFormed(p) then Some(p) else None
  }

  // ---- the two encodings: sections 4.1 and 4.2

  function DecodeQ(s: bytes): (r: Option<bytes>) {
    if s == [] then Some([])
    else if s[0] != EQUALS then Behind(if s[0] == UNDERSCORE then SP else s[0], DecodeQ(s[1..]))
    else if |s| >= 3 && HexValue(s[1]).Some? && HexValue(s[2]).Some? then
      Behind(HexValue(s[1]).value * 16 + HexValue(s[2]).value, DecodeQ(s[3..]))
    else None
  }

  function Behind(b: byte, rest: Option<bytes>): (r: Option<bytes>) {
    if rest.None? then None else Some([b] + rest.value)
  }

  /** The names of character sets and encodings do not depend on case; this reader knows UTF-8. */
  function DecodeParts(p: Parts): (r: Option<bytes>) {
    if ToLower(p.charset) != UTF8_NAME then None
    else if ToLower(p.encoding) == B then Base64.Decode(p.text)
    else if ToLower(p.encoding) == Q then DecodeQ(p.text)
    else None
  }

  function DecodeWord(word: bytes): (r: Option<bytes>)
    ensures r.Some? ==> Shape(word).Some?
  {
    match Shape(word)
    case None => None
    case Some(p) => DecodeParts(p)
  }

  // ---- text: section 6.2

  /**
   Whitespace between two encoded words is not part of the text; all else is. None when there is an encoded word that
   this reader cannot read: what other readers make of it depends on what they know.
   */
  function DecodeTokens(toks: seq<Token>, afterEncodedWord: bool): (text: Option<bytes>) {
    if toks == [] then Some([])
    else if Shape(toks[0].word).None? then
      After(toks[0].space + toks[0].word, DecodeTokens(toks[1..], false))
    else
      match DecodeWord(toks[0].word)
      case None => None
      case Some(d) => After((if afterEncodedWord then [] else toks[0].space) + d, DecodeTokens(toks[1..], true))
  }

  function After(head: bytes, rest: Option<bytes>): (r: Option<bytes>) {
    if rest.None? then None else Some(head + rest.value)
  }

  function DecodeText(s: bytes): (text: Option<bytes>) {
    match DecodeTokens(Tokens(s), false)
    case None => None
    case Some(text) => Some(text + Trailing(s))
  }

  // ---- facts

  lemma {:induction false} WrappedCut(inner: bytes)
    ensures var w := OPENING + inner + CLOSING;
      |w| == |inner| + 4 && w[..2] == OPENING && w[2..|w| - 2] == inner && w[|w| - 2..] == CLOSING
  {}

  lemma {:induction false} TokenHasNoQuestion(s: bytes)
    requires IsToken(s)
    ensures NoneOf(s, QUESTION)
  {}

  /** A word has the shape exactly when it is written from well-formed parts, and then they are the parts. */
  lemma {:induction false} ShapeIs(p: Parts)
    requires WellFormed(p) && |PartsText(p)| <= MAX_WORD
    ensures Shape(PartsText(p)) == Some(p)
  {
    hide IsToken, IsEncodedText;
    var rest := p.encoding + [QUESTION] + p.text;
    WrappedCut(p.charset + [QUESTION] + rest);
    TokenHasNoQuestion(p.charset);
    TokenHasNoQuestion(p.encoding);
    FindCut(p.charset, QUESTION, rest);
    FindCut(p.encoding, QUESTION, p.text);
  }

  lemma {:induction false} CutAt(s: bytes, n: nat)
    requires n < |s|
    ensures s == s[..n] + [s[n]] + s[n + 1..]
  {}

  lemma {:induction false} ShapeReadsParts(word: bytes)
    ensures Shape(word).Some? ==> WellFormed(Shape(word).value) && word == PartsText(Shape(word).value)
  {
    hide IsToken, IsEncodedText;
    if Shape(word).Some? {
      var inner := word[2..|word| - 2];
      assert word == OPENING + inner + CLOSING;
      var a := Find(inner, QUESTION);
      CutAt(inner, a);
      CutAt(inner[a + 1..], Find(inner[a + 1..], QUESTION));
    }
  }

  lemma {:induction false} DecodeQIsShorter(s: bytes)
    ensures DecodeQ(s).Some? ==> |DecodeQ(s).value| <= |s|
  {
    if s != [] {
      DecodeQIsShorter(s[1..]);
      if |s| >= 3 {
        DecodeQIsShorter(s[3..]);
      }
    }
  }

  lemma {:induction false} PartsTextIsLonger(p: Parts)
    ensures |p.text| < |PartsText(p)|
  {}

  lemma {:induction false} DecodedWordIsShorter(word: bytes)
    ensures DecodeWord(word).Some? ==> |DecodeWord(word).value| < |word|
  {
    hide PartsText, WellFormed, Shape;
    ShapeReadsParts(word);
    if Shape(word).Some? {
      PartsTextIsLonger(Shape(word).value);
      Base64.DecodeIsShorter(Shape(word).value.text);
      DecodeQIsShorter(Shape(word).value.text);
    }
  }
}
