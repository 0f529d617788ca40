/** Reading long parameters back: sections 3, 4 and 4.1 of RFC 2231. */
module MimeParameterReader {
  import opened Bytes
  import opened MimeParameters
  import Decimal

  // ---- the reader

  /** The pieces between semicolons. */
  function Split(s: bytes): (pieces: seq<bytes>)
    decreases |s|
  {
    var n := Find(s, SEMICOLON);
    if n == |s| then [s] else [s[..n]] + Split(s[n + 1..])
  }

  datatype Piece = Piece(attribute: bytes, number: nat, text: bytes)

  /** One continuation: attribute "*" section number "*=" extended value. */
  function ReadPiece(s: bytes): (r: Option<Piece>) {
    var t := if s != [] && s[0] == SP then s[1..] else s;
    var a := Find(t, STAR);
    if a == |t| then None
    else
      var u := t[a + 1..];
      var b := Find(u, STAR);
      match Decimal.Parse(u[..b])
      case None => None
      case Some(n) =>
        if b + 1 < |u| && u[b + 1] == EQUALS then Some(Piece(t[..a], n, u[b + 2..])) else None
  }

  function ReadPieces(pieces: seq<bytes>): (r: seq<Piece>) {
    if pieces == [] then []
    else (match ReadPiece(pieces[0]) case None => [] case Some(p) => [p]) + ReadPieces(pieces[1..])
  }

  /** The text of a section, wherever in the header it stands. */
  function SectionText(pieces: seq<Piece>, attribute: bytes, number: nat): (r: Option<bytes>) {
    if pieces == [] then None
    else if pieces[0].attribute == attribute && pieces[0].number == number then Some(pieces[0].text)
    else SectionText(pieces[1..], attribute, number)
  }

  /** Sections are put together in the order of their numbers, up to the first that is missing. */
  function Reassemble(pieces: seq<Piece>, attribute: bytes, number: nat): (r: Option<bytes>)
    requires number <= |pieces|
    decreases |pieces| - number
  {
    match SectionText(pieces, attribute, number)
    case None => Some([])
    case Some(text) =>
      match (PercentDecode(if number == 0 then AfterLanguage(text) else text),
             if number < |pieces| then Reassemble(pieces, attribute, number + 1) else None)
      case (Some(head), Some(tail)) => Some(head + tail)
      case _ => None
  }

  /** What follows the character set and the language, each ended by an apostrophe. */
  function AfterLanguage(text: bytes): (r: bytes) {
    var a := Find(text, APOSTROPHE);
    if a == |text| then text
    else
      var rest := text[a + 1..];
      var b := Find(rest, APOSTROPHE);
      if b == |rest| then text else rest[b + 1..]
  }

  function ReadParameter(header: bytes, attribute: bytes): (r: Option<bytes>) {
    Reassemble(ReadPieces(Split(header)[1..]), attribute, 0)
  }

  // ---- chunks

  /** Chunks of at most 45 characters, each of whole escapes and characters, that decode to the value. */
  predicate Chunked(chunks: seq<bytes>, value: bytes)
    decreases |chunks|
  {
    if chunks == [] then value == []
    else
      && |chunks[0]| <= CHUNK
      && NoneOf(chunks[0], SEMICOLON)
      && (match PercentDecode(chunks[0])
          case None => false
          case Some(head) => head <= value && Chunked(chunks[1..], value[|head|..]))
  }

  lemma {:induction false} EscapeOf(b: byte)
    ensures EscapeLength(EncodeByte(b)) == |EncodeByte(b)| && EscapeByte(EncodeByte(b)) == b
    ensures NoneOf(EncodeByte(b), SEMICOLON)
  {
    if !IsAttributeCharacter(b) {
      assert !IsAttributeCharacter(PERCENT);
      assert HexValue(HexDigit(b / 16)) == Some(b / 16) && HexValue(HexDigit(b % 16)) == Some(b % 16);
    }
  }

  lemma {:induction false} EscapeDecodes(b: byte)
    ensures PercentDecode(EncodeByte(b)) == Some([b])
  {
    var s := EncodeByte(b);
    EscapeOf(b);
    assert s[EscapeLength(s)..] == [];
    assert [b] + [] == [b];
  }

  lemma {:induction false} EscapeAppend(s: bytes, t: bytes)
    requires EscapeLength(s) > 0
    ensures EscapeLength(s + t) == EscapeLength(s) && EscapeByte(s + t) == EscapeByte(s)
    ensures (s + t)[EscapeLength(s)..] == s[EscapeLength(s)..] + t
  {}

  lemma {:induction false} DecodeAppend(s: bytes, t: bytes, a: bytes, b: bytes)
    requires PercentDecode(s) == Some(a) && PercentDecode(t) == Some(b)
    ensures PercentDecode(s + t) == Some(a + b)
  {
    if s == [] {
      assert s + t == t && a + b == b;
    } else {
      var tail := s[EscapeLength(s)..];
      var rest := PercentDecode(tail).value;
      EscapeAppend(s, t);
      DecodeAppend(tail, t, rest, b);
      Associate([EscapeByte(s)], rest, b);
    }
  }

  lemma {:induction false} ChunkThenRest(chunk: bytes, head: bytes, chunks: seq<bytes>, value: bytes)
    requires |chunk| <= CHUNK && NoneOf(chunk, SEMICOLON) && PercentDecode(chunk) == Some(head)
    requires Chunked(chunks, value)
    ensures Chunked([chunk] + chunks, head + value)
  {
    assert ([chunk] + chunks)[1..] == chunks && (head + value)[|head|..] == value;
  }

  lemma {:induction false} NextByte(current: bytes, value: bytes)
    requires value != []
    ensures var encoded := EncodeByte(value[0]);
      ChunksFrom(current, value) == if |current| + |encoded| > CHUNK then [current] + ChunksFrom(encoded, value[1..])
                                    else ChunksFrom(current + encoded, value[1..])
    ensures |EncodeByte(value[0])| <= CHUNK && NoneOf(EncodeByte(value[0]), SEMICOLON)
    ensures PercentDecode(EncodeByte(value[0])) == Some([value[0]])
    ensures [value[0]] + value[1..] == value
  {
    EscapeDecodes(value[0]);
    EscapeOf(value[0]);
  }

  lemma {:induction false} NoneOfBoth(a: bytes, b: bytes, c: byte)
    requires NoneOf(a, c) && NoneOf(b, c)
    ensures NoneOf(a + b, c)
  {}

  lemma {:induction false} ChunksDecode(current: bytes, done: bytes, value: bytes)
    requires |current| <= CHUNK && NoneOf(current, SEMICOLON) && PercentDecode(current) == Some(done)
    ensures Chunked(ChunksFrom(current, value), done + value)
    decreases |value|
  {
    if value == [] {
      ChunkThenRest(current, done, [], []);
    } else {
      hide EncodeByte, PercentDecode, Chunked, ChunksFrom, NoneOf;
      var encoded := EncodeByte(value[0]);
      NextByte(current, value);
      if |current| + |encoded| > CHUNK {
        ChunksDecode(encoded, [value[0]], value[1..]);
        ChunkThenRest(current, done, ChunksFrom(encoded, value[1..]), value);
      } else {
        DecodeAppend(current, encoded, done, [value[0]]);
        NoneOfBoth(current, encoded, SEMICOLON);
        ChunksDecode(current + encoded, done + [value[0]], value[1..]);
        Associate(done, [value[0]], value[1..]);
      }
    }
  }

  /** Every chunk but the last is full: the first escape of the next one would not have fitted. */
  predicate Greedy(chunks: seq<bytes>) {
    |chunks| <= 1 ||
    (|chunks[0]| + EscapeLength(chunks[1]) > CHUNK && EscapeLength(chunks[1]) > 0 && Greedy(chunks[1..]))
  }

  lemma {:induction false} ChunksAreFull(current: bytes, value: bytes)
    requires current == [] || EscapeLength(current) > 0
    ensures Greedy(ChunksFrom(current, value))
    ensures current != [] ==> EscapeLength(ChunksFrom(current, value)[0]) == EscapeLength(current)
    decreases |value|
  {
    if value != [] {
      var encoded, chunks := EncodeByte(value[0]), ChunksFrom(current, value);
      EscapeOf(value[0]);
      if |current| + |encoded| > CHUNK {
        ChunksAreFull(encoded, value[1..]);
        assert chunks[1..] == ChunksFrom(encoded, value[1..]);
      } else {
        if current != [] { EscapeAppend(current, encoded); } else { assert current + encoded == encoded; }
        ChunksAreFull(current + encoded, value[1..]);
      }
    }
  }

  /** The chunks of a parameter, before the character set goes in front of the first. */
  lemma {:induction false} ParameterChunks(value: bytes)
    ensures Chunked(ChunksFrom([], value), value) && Greedy(ChunksFrom([], value))
  {
    ChunksDecode([], [], value);
    ChunksAreFull([], value);
    assert [] + value == value;
  }

  // ---- pieces

  /** A key that can be the name of an extended parameter. */
  predicate IsKey(key: bytes) {
    key != [] && forall i :: 0 <= i < |key| ==> IsAttributeCharacter(key[i])
  }

  lemma {:induction false} LowerKey(key: bytes)
    requires IsKey(key)
    ensures NoneOf(ToLower(key), STAR) && NoneOf(ToLower(key), SEMICOLON)
    ensures ToLower(key) != [] && ToLower(key)[0] != SP
  {}

  lemma {:induction false} ReadNumbered(lower: bytes, index: nat, text: bytes)
    requires NoneOf(lower, STAR) && lower != [] && lower[0] != SP
    ensures ReadPiece([SP] + (lower + [STAR] + (Decimal.Digits(index) + [STAR] + ([EQUALS] + text))))
         == Some(Piece(lower, index, text))
  {
    var digits := Decimal.Digits(index);
    var u := digits + [STAR] + ([EQUALS] + text);
    var t := lower + [STAR] + u;
    assert ([SP] + t)[1..] == t;
    FindCut(lower, STAR, u);
    ReadNumber(index, text);
  }

  lemma {:induction false} ReadNumber(index: nat, text: bytes)
    ensures var digits := Decimal.Digits(index); var u := digits + [STAR] + ([EQUALS] + text); var b := Find(u, STAR);
            && b == |digits| && Decimal.Parse(u[..b]) == Some(index)
            && b + 1 < |u| && u[b + 1] == EQUALS && u[b + 2..] == text
  {
    var digits := Decimal.Digits(index);
    FindCut(digits, STAR, [EQUALS] + text);
    Decimal.RoundTrip(index);
  }

  lemma {:induction false} ReadSection(key: bytes, index: nat, text: bytes)
    requires IsKey(key)
    ensures ReadPiece([SP] + Section(key, index, text)) == Some(Piece(ToLower(key), index, text))
  {
    LowerKey(key);
    SectionParts(ToLower(key), Decimal.Digits(index), text);
    ReadNumbered(ToLower(key), index, text);
  }

  lemma {:induction false} SectionParts(lower: bytes, digits: bytes, text: bytes)
    ensures lower + [STAR] + digits + [STAR, EQUALS] + text == lower + [STAR] + (digits + [STAR] + ([EQUALS] + text))
  {}

  lemma {:induction false} SectionHasNoSemicolon(key: bytes, index: nat, text: bytes)
    requires IsKey(key) && NoneOf(text, SEMICOLON)
    ensures NoneOf([SP] + Section(key, index, text), SEMICOLON)
  {
    LowerKey(key);
  }

  /** The pieces of a text that is empty or starts with a semicolon. */
  function SplitTail(s: bytes): (pieces: seq<bytes>) {
    if s == [] then [] else Split(s[1..])
  }

  predicate IsTail(s: bytes) {
    s == [] || s[0] == SEMICOLON
  }

  lemma {:induction false} SplitFirst(piece: bytes, tail: bytes)
    requires NoneOf(piece, SEMICOLON) && IsTail(tail)
    ensures Split(piece + tail) == [piece] + SplitTail(tail)
  {
    if tail == [] {
      assert piece + tail == piece;
      FindNone(piece, SEMICOLON);
    } else {
      assert piece + tail == piece + [SEMICOLON] + tail[1..];
      FindCut(piece, SEMICOLON, tail[1..]);
    }
  }

  function OwnPieces(key: bytes, index: nat, chunks: seq<bytes>): (r: seq<Piece>)
    ensures |r| == |chunks|
    decreases |chunks|
  {
    if chunks == [] then [] else [Piece(ToLower(key), index, chunks[0])] + OwnPieces(key, index + 1, chunks[1..])
  }

  function AllPieces(params: seq<(bytes, bytes)>): (r: seq<Piece>) {
    if params == [] then [] else OwnPieces(params[0].0, 0, Parameter(params[0].1)) + AllPieces(params[1..])
  }

  predicate NoSemicolons(chunks: seq<bytes>) {
    chunks == [] || (NoneOf(chunks[0], SEMICOLON) && NoSemicolons(chunks[1..]))
  }

  lemma {:induction false} SectionsRead(key: bytes, index: nat, chunks: seq<bytes>, more: bytes)
    requires IsKey(key) && NoSemicolons(chunks) && IsTail(more)
    ensures IsTail(Sections(key, index, chunks) + more)
    ensures ReadPieces(SplitTail(Sections(key, index, chunks) + more))
         == OwnPieces(key, index, chunks) + ReadPieces(SplitTail(more))
    decreases |chunks|
  {
    if chunks == [] {
      assert [] + more == more;
    } else {
      var rest := Sections(key, index + 1, chunks[1..]) + more;
      SectionsRead(key, index + 1, chunks[1..], more);
      SectionsStart(key, index, chunks, more);
      OneSectionRead(key, index, chunks[0], rest);
      OwnPiecesCons(key, index, chunks, ReadPieces(SplitTail(more)));
    }
  }

  lemma {:induction false} OneSectionRead(key: bytes, index: nat, text: bytes, rest: bytes)
    requires IsKey(key) && NoneOf(text, SEMICOLON) && IsTail(rest)
    ensures ReadPieces(Split([SP] + Section(key, index, text) + rest))
         == [Piece(ToLower(key), index, text)] + ReadPieces(SplitTail(rest))
  {
    var piece := [SP] + Section(key, index, text);
    SectionHasNoSemicolon(key, index, text);
    ReadSection(key, index, text);
    SplitFirst(piece, rest);
    ReadPiecesCons(piece, SplitTail(rest));
  }

  lemma {:induction false} OwnPiecesCons(key: bytes, index: nat, chunks: seq<bytes>, more: seq<Piece>)
    requires chunks != []
    ensures [Piece(ToLower(key), index, chunks[0])] + (OwnPieces(key, index + 1, chunks[1..]) + more)
         == OwnPieces(key, index, chunks) + more
  {}

  lemma {:induction false} ReadPiecesCons(piece: bytes, rest: seq<bytes>)
    requires ReadPiece(piece).Some?
    ensures ReadPieces([piece] + rest) == [ReadPiece(piece).value] + ReadPieces(rest)
  {
    assert ([piece] + rest)[1..] == rest;
  }

  lemma {:induction false} SectionsStart(key: bytes, index: nat, chunks: seq<bytes>, more: bytes)
    requires chunks != []
    ensures var s := Sections(key, index, chunks) + more;
            && s != [] && s[0] == SEMICOLON
            && s[1..] == [SP] + Section(key, index, chunks[0]) + (Sections(key, index + 1, chunks[1..]) + more)
  {
    var section, rest := Section(key, index, chunks[0]), Sections(key, index + 1, chunks[1..]);
    DropSemicolon(section, rest, more);
  }

  lemma {:induction false} DropSemicolon(a: bytes, b: bytes, c: bytes)
    ensures ([SEMICOLON, SP] + a + b + c)[1..] == [SP] + a + (b + c)
  {}

  predicate AllKeys(params: seq<(bytes, bytes)>) {
    params == [] || (IsKey(params[0].0) && AllKeys(params[1..]))
  }

  lemma {:induction false} ChunkedHasNoSemicolon(chunks: seq<bytes>, value: bytes)
    requires Chunked(chunks, value)
    ensures NoSemicolons(chunks)
    decreases |chunks|
  {
    if chunks != [] {
      ChunkedHasNoSemicolon(chunks[1..], value[|PercentDecode(chunks[0]).value|..]);
    }
  }

  lemma {:induction false} ParameterHasNoSemicolon(value: bytes)
    ensures NoSemicolons(Parameter(value))
  {
    ParameterChunks(value);
    var chunks := ChunksFrom([], value);
    ChunkedHasNoSemicolon(chunks, value);
    assert Parameter(value)[1..] == chunks[1..];
  }

  lemma {:induction false} AllSectionsRead(params: seq<(bytes, bytes)>)
    requires AllKeys(params)
    ensures IsTail(AllSections(params))
    ensures ReadPieces(SplitTail(AllSections(params))) == AllPieces(params)
  {
    if params != [] {
      AllSectionsRead(params[1..]);
      ParameterHasNoSemicolon(params[0].1);
      SectionsRead(params[0].0, 0, Parameter(params[0].1), AllSections(params[1..]));
    }
  }

  // ---- putting the sections of one key together

  predicate NoPieceOf(pieces: seq<Piece>, attribute: bytes) {
    forall i :: 0 <= i < |pieces| ==> pieces[i].attribute != attribute
  }

  lemma {:induction false} SectionTextAppend(a: seq<Piece>, b: seq<Piece>, attribute: bytes, number: nat)
    ensures SectionText(a + b, attribute, number) ==
            match SectionText(a, attribute, number)
            case Some(t) => Some(t)
            case None => SectionText(b, attribute, number)
  {
    if a == [] {
      assert a + b == b;
    } else {
      SectionTextAppend(a[1..], b, attribute, number);
      assert (a + b)[1..] == a[1..] + b;
    }
  }

  lemma {:induction false} SectionTextNone(pieces: seq<Piece>, attribute: bytes, number: nat)
    requires NoPieceOf(pieces, attribute)
    ensures SectionText(pieces, attribute, number) == None
  {
    if pieces != [] {
      SectionTextNone(pieces[1..], attribute, number);
    }
  }

  lemma {:induction false} SectionTextOwn(key: bytes, index: nat, chunks: seq<bytes>, number: nat)
    ensures SectionText(OwnPieces(key, index, chunks), ToLower(key), number) ==
            if index <= number < index + |chunks| then Some(chunks[number - index]) else None
    decreases |chunks|
  {
    if chunks != [] {
      SectionTextOwn(key, index + 1, chunks[1..], number);
      assert OwnPieces(key, index, chunks)[1..] == OwnPieces(key, index + 1, chunks[1..]);
    }
  }

  /** No two keys are the same after lower-casing. */
  predicate DistinctKeys(params: seq<(bytes, bytes)>) {
    params == [] || (NoKey(params[1..], ToLower(params[0].0)) && DistinctKeys(params[1..]))
  }

  predicate NoKey(params: seq<(bytes, bytes)>, attribute: bytes) {
    params == [] || (ToLower(params[0].0) != attribute && NoKey(params[1..], attribute))
  }

  lemma {:induction false} NoSectionOfOther(params: seq<(bytes, bytes)>, attribute: bytes, number: nat)
    requires NoKey(params, attribute)
    ensures SectionText(AllPieces(params), attribute, number) == None
  {
    if params != [] {
      var own := OwnPieces(params[0].0, 0, Parameter(params[0].1));
      NoSectionOfOther(params[1..], attribute, number);
      OwnAttribute(params[0].0, 0, Parameter(params[0].1));
      SectionTextNone(own, attribute, number);
      SectionTextAppend(own, AllPieces(params[1..]), attribute, number);
    }
  }

  lemma {:induction false} OwnAttribute(key: bytes, index: nat, chunks: seq<bytes>)
    ensures forall i :: 0 <= i < |chunks| ==> OwnPieces(key, index, chunks)[i].attribute == ToLower(key)
    decreases |chunks|
  {
    if chunks != [] {
      OwnAttribute(key, index + 1, chunks[1..]);
    }
  }

  lemma {:induction false} KeyIsElsewhere(params: seq<(bytes, bytes)>, k: nat, attribute: bytes)
    requires k < |params| && NoKey(params, attribute)
    ensures ToLower(params[k].0) != attribute
  {
    if k > 0 {
      KeyIsElsewhere(params[1..], k - 1, attribute);
    }
  }

  /** The sections found for a key are the chunks of its value. */
  lemma {:induction false} SectionsOfKey(params: seq<(bytes, bytes)>, k: nat, number: nat)
    requires k < |params| && DistinctKeys(params)
    ensures var chunks := Parameter(params[k].1);
            && SectionText(AllPieces(params), ToLower(params[k].0), number) ==
               (if number < |chunks| then Some(chunks[number]) else None)
            && |chunks| <= |AllPieces(params)|
  {
    var attribute, first := ToLower(params[k].0), Parameter(params[0].1);
    var own := OwnPieces(params[0].0, 0, first);
    SectionTextAppend(own, AllPieces(params[1..]), attribute, number);
    if k == 0 {
      SectionTextOwn(params[0].0, 0, first, number);
      NoSectionOfOther(params[1..], attribute, number);
    } else {
      KeyIsElsewhere(params[1..], k - 1, ToLower(params[0].0));
      OwnAttribute(params[0].0, 0, first);
      SectionTextNone(own, attribute, number);
      SectionsOfKey(params[1..], k - 1, number);
    }
  }

  lemma {:induction false} LanguageTag(text: bytes)
    ensures AfterLanguage(UTF8 + text) == text
  {
    var name: bytes := [0x75, 0x74, 0x66, 0x2D, 0x38];
    assert UTF8 + text == name + [APOSTROPHE] + ([APOSTROPHE] + text);
    FindCut(name, APOSTROPHE, [APOSTROPHE] + text);
    assert [APOSTROPHE] + text == [] + [APOSTROPHE] + text;
    FindCut([], APOSTROPHE, text);
  }

  lemma {:induction false} ReassembleChunks(pieces: seq<Piece>, attribute: bytes, number: nat, all: seq<bytes>,
          chunks: seq<bytes>, value: bytes)
    requires number <= |all| <= |pieces| && chunks == all[number..] && Chunked(chunks, value)
    requires all != []
    requires forall n: nat :: SectionText(pieces, attribute, n) ==
               if n < |all| then Some(if n == 0 then UTF8 + all[0] else all[n]) else None
    ensures Reassemble(pieces, attribute, number) == Some(value)
    decreases |chunks|
  {
    if chunks != [] {
      var head := PercentDecode(chunks[0]).value;
      assert chunks[0] == all[number] && chunks[1..] == all[number + 1..];
      LanguageTag(all[0]);
      ReassembleChunks(pieces, attribute, number + 1, all, chunks[1..], value[|head|..]);
      assert head + value[|head|..] == value;
    }
  }

  /**
   Reading a header value that formatLongMediaTypeParameters wrote returns every parameter: for every media type
   without a semicolon and all parameters whose keys are attributes, different from each other in lower case.
   */
  lemma {:induction false} LongParametersReadBack(mediaType: bytes, params: seq<(bytes, bytes)>, k: nat)
    requires NoneOf(mediaType, SEMICOLON) && AllKeys(params) && DistinctKeys(params) && k < |params|
    ensures ReadParameter(LongMediaType(mediaType, params), ToLower(params[k].0)) == Some(params[k].1)
  {
    AllSectionsRead(params);
    SplitFirst(mediaType, AllSections(params));
    var pieces, chunks, value := AllPieces(params), ChunksFrom([], params[k].1), params[k].1;
    assert Split(LongMediaType(mediaType, params))[1..] == SplitTail(AllSections(params));
    forall n: nat
      ensures SectionText(pieces, ToLower(params[k].0), n) ==
              if n < |chunks| then Some(if n == 0 then UTF8 + chunks[0] else chunks[n]) else None
    {
      SectionsOfKey(params, k, n);
    }
    SectionsOfKey(params, k, 0);
    ParameterChunks(value);
    assert chunks[0..] == chunks;
    ReassembleChunks(pieces, ToLower(params[k].0), 0, chunks, chunks, value);
  }
}
