/** pkg/email/mime_parameters.go: long media type parameters as numbered continuations, against a reader of RFC 2231. */
module MimeParameters {
  import opened Bytes
  import Decimal

  const CHUNK := 45
  const PERCENT: byte := 0x25
  const APOSTROPHE: byte := 0x27
  const STAR: byte := 0x2A
  const SEMICOLON: byte := 0x3B
  const UTF8: bytes := [0x75, 0x74, 0x66, 0x2D, 0x38, APOSTROPHE, APOSTROPHE] // utf-8''

  // ---- bytes and percent escapes

  predicate IsAttributeCharacter(b: byte) {
    || 0x61 <= b <= 0x7A || 0x41 <= b <= 0x5A || 0x30 <= b <= 0x39
    || b in {0x21, 0x23, 0x24, 0x26, 0x2B, 0x2D, 0x2E, 0x5E, 0x5F, 0x60, 0x7C, 0x7E} // !#$&+-.^_`|~
  }

  function HexDigit(v: int): (b: byte)
    requires 0 <= v < 16
  {
    if v < 10 then 0x30 + v else 0x41 + v - 10
  }

  function EncodeByte(b: byte): (s: bytes)
    ensures 1 <= |s| <= 3
  {
    if IsAttributeCharacter(b) then [b] else [PERCENT, HexDigit(b / 16), HexDigit(b % 16)]
  }

  /** The length of the character or escape at the front; 0 when there is neither. */
  function EscapeLength(s: bytes): (n: nat)
    ensures n <= |s|
  {
    if s == [] then 0
    else if IsAttributeCharacter(s[0]) then 1
    else if |s| >= 3 && s[0] == PERCENT && HexValue(s[1]).Some? && HexValue(s[2]).Some? then 3
    else 0
  }

  function EscapeByte(s: bytes): (b: byte)
    requires EscapeLength(s) > 0
  {
    if EscapeLength(s) == 1 then s[0] else HexValue(s[1]).value * 16 + HexValue(s[2]).value
  }

  /** Decoding of an extended value: attribute characters stand for themselves, the rest are whole escapes. */
  function PercentDecode(s: bytes): (r: Option<bytes>) {
    if s == [] then Some([])
    else
      var n := EscapeLength(s);
      if n == 0 then None
      else
        match PercentDecode(s[n..])
        case None => None
        case Some(rest) => Some([EscapeByte(s)] + rest)
  }

  // ---- the writer, as functions

  function ChunksFrom(current: bytes, value: bytes): (chunks: seq<bytes>)
    ensures chunks != []
    decreases |value|
  {
    if value == [] then [current]
    else
      var encoded := EncodeByte(value[0]);
      if |current| + |encoded| > CHUNK then [current] + ChunksFrom(encoded, value[1..])
      else ChunksFrom(current + encoded, value[1..])
  }

  function Parameter(value: bytes): (chunks: seq<bytes>)
    ensures chunks != []
  {
    var chunks := ChunksFrom([], value);
    chunks[0 := UTF8 + chunks[0]]
  }

  function Section(key: bytes, index: nat, text: bytes): (s: bytes) {
    ToLower(key) + [STAR] + Decimal.Digits(index) + [STAR, EQUALS] + text
  }

  function Sections(key: bytes, index: nat, chunks: seq<bytes>): (s: bytes)
    decreases |chunks|
  {
    if chunks == [] then []
    else [SEMICOLON, SP] + Section(key, index, chunks[0]) + Sections(key, index + 1, chunks[1..])
  }

  function AllSections(params: seq<(bytes, bytes)>): (s: bytes) {
    if params == [] then []
    else Sections(params[0].0, 0, Parameter(params[0].1)) + AllSections(params[1..])
  }

  function LongMediaType(mediaType: bytes, params: seq<(bytes, bytes)>): (s: bytes) {
    mediaType + AllSections(params)
  }

  // ---- the code

  /** One more byte of the value, either in the chunk at hand or in a new one. */
  lemma {:induction false} ChunkStep(chunks: seq<bytes>, current: bytes, value: bytes, i: nat)
    requires i < |value|
    ensures var encoded := EncodeByte(value[i]);
      chunks + ChunksFrom(current, value[i..])
      == if |current| + |encoded| > CHUNK then chunks + [current] + ChunksFrom(encoded, value[i + 1..])
         else chunks + ChunksFrom(current + encoded, value[i + 1..])
  {
    var encoded := EncodeByte(value[i]);
    assert value[i..][0] == value[i] && value[i..][1..] == value[i + 1..];
    if |current| + |encoded| > CHUNK {
      assert chunks + ([current] + ChunksFrom(encoded, value[i + 1..]))
          == chunks + [current] + ChunksFrom(encoded, value[i + 1..]);
    }
  }

  lemma {:induction false} LastChunk(current: bytes, value: bytes)
    requires value == []
    ensures ChunksFrom(current, value) == [current]
  {}

  method EncodeRFC2231Parameter(value: bytes) returns (chunks: seq<bytes>)
    ensures chunks == Parameter(value)
  {
    hide EncodeByte, ChunksFrom;
    chunks := [];
    var current: bytes := [];
    var i := 0;
    assert value[0..] == value;
    assert chunks + ChunksFrom([], value) == ChunksFrom([], value);
    while i < |value|
      invariant 0 <= i <= |value| && (chunks != [] ==> current != [])
      invariant chunks + ChunksFrom(current, value[i..]) == ChunksFrom([], value)
    {
      ChunkStep(chunks, current, value, i);
      var encoded := EncodeByte(value[i]);
      if |current| + |encoded| > CHUNK {
        chunks := chunks + [current];
        current := [];
        assert current + encoded == encoded;
      }
      current := current + encoded;
      i := i + 1;
    }
    LastChunk(current, value[i..]);
    if current != [] || |chunks| == 0 {
      chunks := chunks + [current];
    }
    chunks := chunks[0 := UTF8 + chunks[0]];
  }

  lemma {:induction false} SectionsStep(key: bytes, index: nat, chunks: seq<bytes>, k: nat)
    requires k < |chunks|
    ensures Sections(key, index, chunks[k..])
         == [SEMICOLON, SP] + Section(key, index, chunks[k]) + Sections(key, index + 1, chunks[k + 1..])
  {
    assert chunks[k..][1..] == chunks[k + 1..];
  }

  lemma {:induction false} AllSectionsStep(params: seq<(bytes, bytes)>, k: nat)
    requires k < |params|
    ensures AllSections(params[k..])
         == Sections(params[k].0, 0, Parameter(params[k].1)) + AllSections(params[k + 1..])
  {
    assert params[k..][1..] == params[k + 1..];
  }

  lemma {:induction false} NoSections(key: bytes, index: nat)
    ensures Sections(key, index, []) == [] && AllSections([]) == []
  {}

  /** The inner loop: all chunks of one parameter. */
  method AppendSections(text: bytes, key: bytes, chunks: seq<bytes>) returns (result: bytes)
    ensures result == text + Sections(key, 0, chunks)
  {
    hide Sections, Section;
    result := text;
    var index := 0;
    assert chunks[0..] == chunks;
    while index < |chunks|
      invariant 0 <= index <= |chunks|
      invariant result + Sections(key, index, chunks[index..]) == text + Sections(key, 0, chunks)
    {
      SectionsStep(key, index, chunks, index);
      SectionNext(result, key, index, chunks[index], Sections(key, index + 1, chunks[index + 1..]));
      result := result + [SEMICOLON, SP];
      result := result + ToLower(key);
      result := result + [STAR];
      result := result + Decimal.Digits(index);
      result := result + [STAR, EQUALS];
      result := result + chunks[index];
      index := index + 1;
    }
    assert chunks[index..] == [];
    NoSections(key, index);
    assert result + [] == result;
  }

  /** The parameters come in the order of their sorted keys. */
  method FormatLongMediaTypeParameters(mediaType: bytes, params: seq<(bytes, bytes)>) returns (result: bytes)
    ensures result == LongMediaType(mediaType, params)
  {
    hide Sections, AllSections, Parameter;
    result := mediaType;
    var k := 0;
    assert params[0..] == params;
    while k < |params|
      invariant 0 <= k <= |params|
      invariant result + AllSections(params[k..]) == LongMediaType(mediaType, params)
    {
      var key := params[k].0;
      var chunks := EncodeRFC2231Parameter(params[k].1);
      AllSectionsStep(params, k);
      Associate(result, Sections(key, 0, chunks), AllSections(params[k + 1..]));
      result := AppendSections(result, key, chunks);
      k := k + 1;
    }
    assert params[k..] == [];
    NoSections([], 0);
    assert result + [] == result;
  }

  lemma {:induction false} SectionNext(result: bytes, key: bytes, index: nat, text: bytes, more: bytes)
    ensures result + ([SEMICOLON, SP] + Section(key, index, text) + more)
         == result + [SEMICOLON, SP] + ToLower(key) + [STAR] + Decimal.Digits(index) + [STAR, EQUALS] + text + more
  {
    var a, b, c, d, e := [SEMICOLON, SP], ToLower(key), [STAR], Decimal.Digits(index), [STAR, EQUALS];
    Associate(a, b + c + d + e + text, more);
    Associate(result, a + (b + c + d + e + text), more);
    Ungrouped(result + a, b, c, d, e, text);
    Associate(result, a, b + c + d + e + text);
  }

  lemma {:induction false} Ungrouped(r: bytes, b: bytes, c: bytes, d: bytes, e: bytes, f: bytes)
    ensures r + (b + c + d + e + f) == r + b + c + d + e + f
  {}
}
