/** pkg/email/mime_base64.go: base64 in lines of 76 characters. */
module MimeBase64 {
  import opened Bytes
  import HeaderText
  import Base64

  const LINE := 76

  function NextColumn(column: nat): (r: nat)
    requires column < LINE
    ensures r < LINE
  {
    if column + 1 == LINE then 0 else column + 1
  }

  /** A character, and the line break after it if it fills the line. */
  function Glyph(column: nat, b: byte): (r: bytes) {
    if column + 1 == LINE then [b] + CRLF else [b]
  }

  /** The text with a line break after each full line, when the current line already holds some characters. */
  function Wrap(column: nat, s: bytes): (r: bytes)
    requires column < LINE
    decreases |s|
  {
    if s == [] then [] else Glyph(column, s[0]) + Wrap(NextColumn(column), s[1..])
  }

  function ColumnAfter(column: nat, count: nat): (r: nat)
    requires column < LINE
    ensures r < LINE
    decreases count
  {
    if count == 0 then column else ColumnAfter(NextColumn(column), count - 1)
  }

  lemma {:induction false} ColumnIsRemainder(column: nat, count: nat)
    requires column < LINE
    ensures ColumnAfter(column, count) == (column + count) % LINE
    decreases count
  {
    if count > 0 {
      ColumnIsRemainder(NextColumn(column), count - 1);
    }
  }

  lemma {:induction false} ColumnAdds(column: nat, a: nat, b: nat)
    requires column < LINE
    ensures ColumnAfter(ColumnAfter(column, a), b) == ColumnAfter(column, a + b)
    decreases a
  {
    if a > 0 {
      ColumnAdds(NextColumn(column), a - 1, b);
    }
  }

  /** A line that is not full gets its line break at the end. */
  function LastBreak(length: nat): (r: bytes) { if length % LINE == 0 then [] else CRLF }

  function Body(data: bytes): (r: bytes) {
    var s := Base64.Encode(data);
    Wrap(0, s) + LastBreak(|s|)
  }

  // ---- the code

  /** The writer underneath: it may take fewer bytes than it is given, with or without reporting an error. */
  class Sink {
    var written: bytes
    /** It has reported an error or taken fewer bytes than it was given. */
    ghost var refused: bool

    method Write(data: bytes) returns (n: nat, failed: bool)
      modifies this
      ensures n <= |data| && written == old(written) + data[..n]
      ensures refused == (old(refused) || failed || n < |data|)
    {
      n :| 0 <= n <= |data|;
      failed := *;
      refused := refused || failed || n < |data|;
      written := written + data[..n];
    }
  }

  method WriteLineBreak(sink: Sink) returns (failed: bool)
    modifies sink
    ensures !failed ==> sink.written == old(sink.written) + CRLF
    ensures sink.written <= old(sink.written) + CRLF
    ensures sink.refused == (old(sink.refused) || failed)
  {
    var n, err := sink.Write(CRLF);
    return err || n != |CRLF|;
  }

  class MimeBase64Writer {
    const sink: Sink
    var column: nat

    constructor (sink: Sink)
      ensures this.sink == sink && column == 0
    {
      this.sink := sink;
      column := 0;
    }

    method Write(data: bytes) returns (written: nat, failed: bool)
      requires column < LINE
      modifies this`column, sink
      ensures !failed ==> column < LINE && written == |data|
                          && sink.written == old(sink.written) + Wrap(old(column), data)
                          && column == ColumnAfter(old(column), |data|)
      ensures sink.written <= old(sink.written) + Wrap(old(column), data)
      ensures sink.refused == (old(sink.refused) || failed)
    {
      written := 0;
      var rest := data;
      ghost var target := sink.written + Wrap(column, data);
      while rest != []
        invariant column < LINE && written + |rest| == |data| && sink.refused == old(sink.refused)
        invariant ColumnAfter(column, |rest|) == ColumnAfter(old(column), |data|)
        invariant sink.written + Wrap(column, rest) == target
        decreases |rest|
      {
        var length := if LINE - column < |rest| then LINE - column else |rest|;
        var line := rest[..length];
        ghost var left := WrapNext(sink.written, column, rest, length);
        var n, err := sink.Write(line);
        written := written + n;
        if err || n != length {
          return written, true;
        }
        assert line[..n] == line;
        column := column + n;
        rest := rest[n..];
        if column == LINE {
          err := WriteLineBreak(sink);
          if err {
            return written, true;
          }
          column := 0;
        }
      }
      return written, false;
    }
  }

  /** The text still to come splits at the next write: the rest of the line, a line break if it is full, and more. */
  lemma {:induction false} WrapNext(written: bytes, column: nat, rest: bytes, length: nat) returns (left: bytes)
    requires column < LINE && 0 < length <= |rest| && column + length <= LINE
    ensures var line := rest[..length];
            var full := column + length == LINE;
            && left == Wrap(if full then 0 else column + length, rest[length..])
            && ColumnAfter(column, |rest|) == ColumnAfter(if full then 0 else column + length, |rest| - length)
            && written + Wrap(column, rest) == written + line + (if full then CRLF + left else left)
    ensures forall n :: 0 <= n <= length ==> written + rest[..length][..n] <= written + Wrap(column, rest)
    ensures column + length == LINE ==> written + rest[..length] + CRLF <= written + Wrap(column, rest)
  {
    var line := rest[..length];
    WithinLine(column, length);
    ColumnAdds(column, length, |rest| - length);
    left := Wrap(if column + length == LINE then 0 else column + length, rest[length..]);
    WrapLine(column, line, rest[length..]);
    Rejoin(rest, length);
    if column + length == LINE {
      Associate(line, CRLF, left);
      Associate(written, line, CRLF + left);
      Associate(written + line, CRLF, left);
    } else {
      Associate(written, line, left);
    }
  }

  lemma {:induction false} WithinLine(column: nat, length: nat)
    requires column < LINE && 0 < length && column + length <= LINE
    ensures ColumnAfter(column, length) == if column + length == LINE then 0 else column + length
    decreases length
  {
    if length > 1 {
      WithinLine(column + 1, length - 1);
    }
  }

  lemma {:induction false} WrapWithinLine(column: nat, line: bytes)
    requires column < LINE && line != [] && column + |line| <= LINE
    ensures Wrap(column, line) == if column + |line| == LINE then line + CRLF else line
    decreases |line|
  {
    if |line| == 1 {
      assert line == [line[0]] && Wrap(NextColumn(column), line[1..]) == [];
    } else {
      WrapWithinLine(column + 1, line[1..]);
      Associate([line[0]], line[1..], CRLF);
      assert [line[0]] + line[1..] == line;
    }
  }

  lemma {:induction false} WrapLine(column: nat, line: bytes, rest: bytes)
    requires column < LINE && line != [] && column + |line| <= LINE
    ensures Wrap(column, line + rest) ==
            if column + |line| == LINE then line + CRLF + Wrap(0, rest) else line + Wrap(column + |line|, rest)
  {
    WrapAppend(column, line, rest);
    WrapWithinLine(column, line);
    WithinLine(column, |line|);
  }

  /** The encoder hands its output to the writer in pieces of its own choosing; any of them may be empty. */
  method WriteMIMEBase64(sink: Sink, data: bytes, pieces: seq<bytes>) returns (failed: bool)
    requires Concat(pieces) == Base64.Encode(data)
    modifies sink
    ensures !failed ==> sink.written == old(sink.written) + Body(data)
    ensures sink.written <= old(sink.written) + Body(data)
    ensures sink.refused == (old(sink.refused) || failed)
  {
    hide Wrap, Base64.Encode;
    var writer := new MimeBase64Writer(sink);
    NothingToWrap(writer.column);
    ghost var start, encoded := sink.written, Base64.Encode(data);
    ghost var end := LastBreak(|encoded|);
    assert pieces[0..] == pieces;
    ColumnIsRemainder(0, |encoded|);
    assert start + Wrap(0, encoded) <= start + Body(data);
    var i := 0;
    while i < |pieces|
      invariant 0 <= i <= |pieces| && fresh(writer) && writer.sink == sink
      invariant writer.column < LINE && sink.refused == old(sink.refused)
      invariant ColumnAfter(writer.column, |Concat(pieces[i..])|) == ColumnAfter(0, |encoded|)
      invariant sink.written + Wrap(writer.column, Concat(pieces[i..])) == start + Wrap(0, encoded)
    {
      ghost var column, rest := writer.column, Concat(pieces[i + 1..]);
      assert pieces[i..][1..] == pieces[i + 1..];
      WrapPieces(sink.written, column, pieces[i], rest);
      ColumnAdds(column, |pieces[i]|, |rest|);
      var n, err := writer.Write(pieces[i]);
      if err {
        return true;
      }
      i := i + 1;
    }
    assert sink.written == start + Wrap(0, encoded);
    if writer.column == 0 {
      return false;
    }
    Associate(start, Wrap(0, encoded), end);
    failed := WriteLineBreak(sink);
  }

  lemma {:induction false} NothingToWrap(column: nat)
    requires column < LINE
    ensures forall c: nat :: c < LINE ==> Wrap(c, []) == []
  {}

  lemma {:induction false} WrapPieces(written: bytes, column: nat, piece: bytes, rest: bytes)
    requires column < LINE
    ensures var next := ColumnAfter(column, |piece|);
            written + Wrap(column, piece + rest) == written + Wrap(column, piece) + Wrap(next, rest)
  {
    WrapAppend(column, piece, rest);
    Associate(written, Wrap(column, piece), Wrap(ColumnAfter(column, |piece|), rest));
  }

  /** What is written for two pieces does not depend on where they were cut. */
  lemma {:induction false} WrapAppend(column: nat, a: bytes, b: bytes)
    requires column < LINE
    ensures Wrap(column, a + b) == Wrap(column, a) + Wrap(ColumnAfter(column, |a|), b)
    decreases |a|
  {
    if a == [] {
      assert a + b == b;
    } else {
      var next := NextColumn(column);
      WrapAppend(next, a[1..], b);
      ConsAppend(a, b);
      Associate(Glyph(column, a[0]), Wrap(next, a[1..]), Wrap(ColumnAfter(next, |a| - 1), b));
    }
  }

  lemma {:induction false} ConsAppend(a: bytes, b: bytes)
    requires a != []
    ensures (a + b)[0] == a[0] && (a + b)[1..] == a[1..] + b
  {}

  // ---- what a reader finds

  /** Lines of at most 76 characters, none empty, each ended by a line break, and only the last one shorter. */
  predicate IsMimeBody(s: bytes)
    decreases |s|
  {
    s == [] ||
    var n := HeaderText.LineLength(s);
    && 0 < n < |s|
    && n <= LINE
    && (n < LINE ==> s[n + 2..] == [])
    && IsMimeBody(s[n + 2..])
  }

  function WithoutLineBreaks(s: bytes): (r: bytes) {
    if s == [] then []
    else if s[0] == CR || s[0] == LF then WithoutLineBreaks(s[1..])
    else [s[0]] + WithoutLineBreaks(s[1..])
  }

  lemma {:induction false} GlyphKeepsText(column: nat, b: byte, rest: bytes)
    requires b != CR && b != LF
    ensures WithoutLineBreaks(Glyph(column, b) + rest) == [b] + WithoutLineBreaks(rest)
  {
    var s := Glyph(column, b) + rest;
    if column + 1 == LINE {
      assert s[1..] == CRLF + rest && s[1..][1..] == [LF] + rest && s[1..][1..][1..] == rest;
      assert WithoutLineBreaks(s[1..]) == WithoutLineBreaks(s[1..][1..]);
    } else {
      assert s[1..] == rest;
    }
  }

  lemma {:induction false} WrapKeepsText(column: nat, s: bytes)
    requires column < LINE && NoLineBreak(s)
    ensures WithoutLineBreaks(Wrap(column, s)) == s
    decreases |s|
  {
    if s != [] {
      WrapKeepsText(NextColumn(column), s[1..]);
      GlyphKeepsText(column, s[0], Wrap(NextColumn(column), s[1..]));
    }
  }

  lemma {:induction false} BreaksVanish(s: bytes)
    ensures WithoutLineBreaks(s + CRLF) == WithoutLineBreaks(s)
  {
    if s == [] {
      assert s + CRLF == CRLF && CRLF[1..] == [LF];
      assert WithoutLineBreaks(CRLF) == WithoutLineBreaks([LF]) == WithoutLineBreaks([]);
    } else {
      BreaksVanish(s[1..]);
      ConsAppend(s, CRLF);
    }
  }

  lemma {:induction false} OneMoreLine(line: bytes, rest: bytes)
    requires NoLineBreak(line) && 0 < |line| <= LINE
    requires |line| < LINE ==> rest == []
    requires IsMimeBody(rest)
    ensures IsMimeBody(line + CRLF + rest)
  {
    HeaderText.LineLengthOf(line, rest);
    SplitAppended(line + CRLF, rest);
  }

  lemma {:induction false} FullLine(line: bytes, rest: bytes)
    requires |line| == LINE
    ensures Wrap(0, line + rest) + LastBreak(|line + rest|) == line + CRLF + (Wrap(0, rest) + LastBreak(|rest|))
  {
    WrapLine(0, line, rest);
    Associate(line + CRLF, Wrap(0, rest), LastBreak(|rest|));
  }

  lemma {:induction false} SmallRemainder(n: nat)
    requires n < LINE
    ensures n % LINE == n
  {}

  lemma {:induction false} ShortLine(s: bytes)
    requires 0 < |s| < LINE
    ensures Wrap(0, s) + LastBreak(|s|) == s + CRLF
  {
    WrapWithinLine(0, s);
    SmallRemainder(|s|);
  }

  lemma {:induction false} LastLine(line: bytes)
    requires NoLineBreak(line) && 0 < |line| <= LINE
    ensures IsMimeBody(line + CRLF)
  {
    OneMoreLine(line, []);
    assert line + CRLF + [] == line + CRLF;
  }

  lemma {:induction false} BodyLines(s: bytes)
    requires NoLineBreak(s)
    ensures IsMimeBody(Wrap(0, s) + LastBreak(|s|))
    decreases |s|
  {
    if 0 < |s| < LINE {
      ShortLine(s);
      LastLine(s);
    } else if s != [] {
      var line, rest := s[..LINE], s[LINE..];
      BodyLines(rest);
      Rejoin(s, LINE);
      FullLine(line, rest);
      OneMoreLine(line, Wrap(0, rest) + LastBreak(|rest|));
    }
  }

  lemma {:induction false} EncodedIsPlain(data: bytes)
    ensures NoLineBreak(Base64.Encode(data))
  {
    Base64.EncodeShape(data);
    assert forall c: byte :: Base64.IsBase64Byte(c) ==> c != CR && c != LF;
  }

  /** The body of every attachment is well-formed, and dropping its line breaks and decoding it returns the data. */
  lemma {:induction false} BodyReadsBack(data: bytes)
    ensures IsMimeBody(Body(data))
    ensures Base64.Decode(WithoutLineBreaks(Body(data))) == Some(data)
  {
    var s := Base64.Encode(data);
    EncodedIsPlain(data);
    BodyLines(s);
    WrapKeepsText(0, s);
    BreaksVanish(Wrap(0, s));
    assert Wrap(0, s) + [] == Wrap(0, s);
    Base64.RoundTrip(data);
  }
}
