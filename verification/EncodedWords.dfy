/** pkg/email/mime_headers.go: encoded words. */
module EncodedWords {
  import opened Bytes
  import Base64
  import Utf8

  const PREFIX: bytes := [0x3D, 0x3F, 0x55, 0x54, 0x46, 0x2D, 0x38, 0x3F, 0x42, 0x3F] // =?UTF-8?B?
  const SUFFIX: bytes := [0x3F, 0x3D]                                                 // ?=
  const MAX_PAYLOAD := 45
  const MAX_TOKEN := 997

  // ---- the writer, as functions

  function EncodedWord(payload: bytes): (word: bytes) {
    PREFIX + Base64.Encode(payload) + SUFFIX
  }

  /** How a value is cut up, one piece for each encoded word. */
  function Payloads(value: bytes): (r: seq<bytes>)
    decreases |value|
  {
    if value == [] then []
    else
      var n := Utf8.TakeRunes(value, MAX_PAYLOAD);
      [value[..n]] + Payloads(value[n..])
  }

  function EncodeAll(payloads: seq<bytes>): (words: seq<bytes>)
    ensures |words| == |payloads|
    ensures forall i :: 0 <= i < |words| ==> words[i] == EncodedWord(payloads[i])
  {
    if payloads == [] then [] else [EncodedWord(payloads[0])] + EncodeAll(payloads[1..])
  }

  function SpaceBefore(words: seq<bytes>): (s: bytes) {
    if words == [] then [] else [SP] + words[0] + SpaceBefore(words[1..])
  }

  function JoinSpaced(words: seq<bytes>): (s: bytes) {
    if words == [] then [] else words[0] + SpaceBefore(words[1..])
  }

  function HeaderWords(value: bytes): (s: bytes) {
    JoinSpaced(EncodeAll(Payloads(value)))
  }

  predicate ContainsNonAscii(value: bytes) {
    !Utf8.ValidString(value) || exists i :: 0 <= i < |Utf8.Runes(value)| && |Utf8.Runes(value)[i]| > 1
  }

  predicate NoAsciiSpace(s: bytes) {
    forall k :: 0 <= k < |s| ==> !IsAsciiSpace(s[k])
  }

  predicate LongTokenAt(value: bytes, i: nat) {
    i + MAX_TOKEN < |value| && NoAsciiSpace(value[i..i + MAX_TOKEN + 1])
  }

  /** Some token between spaces is longer than a header line can take; asked of ASCII text only. */
  predicate HasLongToken(value: bytes) {
    exists i: nat :: i < |value| && LongTokenAt(value, i)
  }

  predicate NeedsEncodedWords(value: bytes) {
    ContainsNonAscii(value) || HasLongToken(value)
  }

  function EncodeHeader(data: bytes): (s: bytes) {
    if NeedsEncodedWords(data) then HeaderWords(data) else data
  }

  // ---- the code

  /** Having taken some bytes, going on takes this many in all. */
  function TakeFrom(value: bytes, at: nat): (n: nat)
    requires at <= |value| && at <= MAX_PAYLOAD
  {
    at + Utf8.TakeRunes(value[at..], MAX_PAYLOAD - at)
  }

  lemma {:induction false} TakeStart(value: bytes)
    ensures TakeFrom(value, 0) == Utf8.TakeRunes(value, MAX_PAYLOAD)
    ensures value != [] ==> TakeFrom(value, 0) > 0
  {
    assert value[0..] == value;
  }

  lemma {:induction false} TakeStep(value: bytes, at: nat)
    requires at < |value| && at <= MAX_PAYLOAD
    ensures var size := Utf8.RuneSize(value[at..]);
            && at + size <= |value|
            && TakeFrom(value, at) == if at + size > MAX_PAYLOAD then at else TakeFrom(value, at + size)
  {
    var rest := value[at..];
    assert rest[Utf8.RuneSize(rest)..] == value[at + Utf8.RuneSize(rest)..];
  }

  lemma {:induction false} TakeEnd(value: bytes)
    requires |value| <= MAX_PAYLOAD
    ensures TakeFrom(value, |value|) == |value|
  {
    assert value[|value|..] == [];
  }

  method EncodedWordLength(value: bytes) returns (length: int)
    ensures length == Utf8.TakeRunes(value, MAX_PAYLOAD)
  {
    TakeStart(value);
    ghost var total := TakeFrom(value, 0);
    length := 0;
    while length < |value|
      invariant 0 <= length <= |value| && length <= MAX_PAYLOAD && TakeFrom(value, length) == total
    {
      TakeStep(value, length);
      var size := Utf8.RuneSize(value[length..]);
      if size == 0 || length + size > MAX_PAYLOAD {
        break;
      }
      length := length + size;
    }
    if length == |value| {
      TakeEnd(value);
    }
    if length == 0 {
      // a rune has at most four bytes, so only the empty string ends up here
      length := if |value| < MAX_PAYLOAD then |value| else MAX_PAYLOAD;
    }
  }

  lemma {:induction false} PayloadStep(value: bytes)
    requires value != []
    ensures var n := Utf8.TakeRunes(value, MAX_PAYLOAD);
            && 1 <= n <= |value|
            && EncodeAll(Payloads(value)) == [EncodedWord(value[..n])] + EncodeAll(Payloads(value[n..]))
  {
    var n := Utf8.TakeRunes(value, MAX_PAYLOAD);
    assert ([value[..n]] + Payloads(value[n..]))[1..] == Payloads(value[n..]);
  }

  method EncodeHeaderWords(value: bytes) returns (s: bytes)
    ensures s == HeaderWords(value)
  {
    hide EncodedWord, Utf8.TakeRunes;
    var words, rest := [], value;
    ghost var all := EncodeAll(Payloads(value));
    assert [] + all == all;
    while rest != []
      invariant words + EncodeAll(Payloads(rest)) == all
      decreases |rest|
    {
      PayloadStep(rest);
      var length := EncodedWordLength(rest);
      OneMoreWord(words, EncodedWord(rest[..length]), EncodeAll(Payloads(rest[length..])));
      words := words + [EncodedWord(rest[..length])];
      rest := rest[length..];
    }
    assert words + [] == words;
    return JoinSpaced(words);
  }

  lemma {:induction false} OneMoreWord(words: seq<bytes>, word: bytes, more: seq<bytes>)
    ensures words + ([word] + more) == words + [word] + more
  {}
}
