/**
 The standard base64 alphabet with padding (section 4 of RFC 4648), as a strict decoder reads it: padding in the last
 group only, over zero bits.
 */
module Base64 {
  import opened Bytes

  const PAD: byte := 0x3D // '='

  type sextet = x: int | 0 <= x < 64

  function Symbol(v: sextet): (c: byte) {
    if v < 26 then 0x41 + v            // A-Z
    else if v < 52 then 0x61 + v - 26  // a-z
    else if v < 62 then 0x30 + v - 52  // 0-9
    else if v == 62 then 0x2B          // +
    else 0x2F                          // /
  }

  function Value(c: byte): (v: Option<sextet>) {
    if 0x41 <= c <= 0x5A then Some(c - 0x41)
    else if 0x61 <= c <= 0x7A then Some(c - 0x61 + 26)
    else if 0x30 <= c <= 0x39 then Some(c - 0x30 + 52)
    else if c == 0x2B then Some(62)
    else if c == 0x2F then Some(63)
    else None
  }

  // How three bytes spread over four sextets, and back.
  function Hi(a: byte): sextet { a / 4 }
  function MidHi(a: byte, b: byte): sextet { a % 4 * 16 + b / 16 }
  function MidLo(b: byte, c: byte): sextet { b % 16 * 4 + c / 64 }
  function Lo(c: byte): sextet { c % 64 }

  function Byte0(p: sextet, q: sextet): byte { p * 4 + q / 16 }
  function Byte1(q: sextet, r: sextet): byte { q % 16 * 16 + r / 4 }
  function Byte2(r: sextet, s: sextet): byte { r % 4 * 64 + s }

  function Encode(data: bytes): (s: bytes) {
    if |data| == 0 then []
    else if |data| == 1 then
      [Symbol(Hi(data[0])), Symbol(MidHi(data[0], 0)), PAD, PAD]
    else if |data| == 2 then
      [Symbol(Hi(data[0])), Symbol(MidHi(data[0], data[1])), Symbol(MidLo(data[1], 0)), PAD]
    else
      [Symbol(Hi(data[0])), Symbol(MidHi(data[0], data[1])), Symbol(MidLo(data[1], data[2])), Symbol(Lo(data[2]))]
      + Encode(data[3..])
  }

  /** Decodes one group of four characters; padding is legal in the last group only, over zero bits. */
  function DecodeGroup(c0: byte, c1: byte, c2: byte, c3: byte, last: bool): (r: Option<bytes>) {
    match (Value(c0), Value(c1), Value(c2), Value(c3))
    case (Some(p), Some(q), Some(r), Some(s)) =>
      Some([Byte0(p, q), Byte1(q, r), Byte2(r, s)])
    case (Some(p), Some(q), Some(r), None) =>
      if last && c3 == PAD && r % 4 == 0 then Some([Byte0(p, q), Byte1(q, r)]) else None
    case (Some(p), Some(q), None, None) =>
      if last && c2 == PAD && c3 == PAD && q % 16 == 0 then Some([Byte0(p, q)]) else None
    case _ => None
  }

  function Decode(s: bytes): (r: Option<bytes>) {
    if |s| == 0 then Some([])
    else if |s| < 4 then None
    else
      match DecodeGroup(s[0], s[1], s[2], s[3], |s| == 4)
      case None => None
      case Some(head) =>
        match Decode(s[4..])
        case None => None
        case Some(tail) => Some(head + tail)
  }

  /** A character that can occur in encoded text. */
  predicate IsBase64Byte(c: byte) {
    Value(c).Some? || c == PAD
  }

  lemma {:induction false} SymbolValue(v: sextet)
    ensures Value(Symbol(v)) == Some(v)
  {}

  predicate AllBase64(s: bytes) {
    forall i :: 0 <= i < |s| ==> IsBase64Byte(s[i])
  }

  lemma {:induction false} SymbolIsBase64(v: sextet)
    ensures IsBase64Byte(Symbol(v))
  {
    SymbolValue(v);
  }

  lemma {:induction false} FourIsBase64(a: byte, b: byte, c: byte, d: byte)
    requires IsBase64Byte(a) && IsBase64Byte(b) && IsBase64Byte(c) && IsBase64Byte(d)
    ensures AllBase64([a, b, c, d])
  {}

  lemma {:induction false} SomeAreBase64(p: sextet, q: sextet, r: sextet, s: sextet)
    ensures AllBase64([Symbol(p), Symbol(q), PAD, PAD])
    ensures AllBase64([Symbol(p), Symbol(q), Symbol(r), PAD])
    ensures AllBase64([Symbol(p), Symbol(q), Symbol(r), Symbol(s)])
  {
    hide Symbol, Value;
    SymbolIsBase64(p);
    SymbolIsBase64(q);
    SymbolIsBase64(r);
    SymbolIsBase64(s);
    FourIsBase64(Symbol(p), Symbol(q), PAD, PAD);
    FourIsBase64(Symbol(p), Symbol(q), Symbol(r), PAD);
    FourIsBase64(Symbol(p), Symbol(q), Symbol(r), Symbol(s));
  }

  lemma {:induction false} AppendIsBase64(a: bytes, b: bytes)
    requires AllBase64(a) && AllBase64(b)
    ensures AllBase64(a + b)
  {}

  lemma {:induction false} EncodeShape(data: bytes)
    ensures |Encode(data)| == (|data| + 2) / 3 * 4
    ensures AllBase64(Encode(data))
  {
    hide Symbol, Value, IsBase64Byte, AllBase64, Hi, Lo, MidHi, MidLo;
    if |data| == 0 {
      NoneIsBase64();
    } else if |data| == 1 {
      SomeAreBase64(Hi(data[0]), MidHi(data[0], 0), 0, 0);
    } else if |data| == 2 {
      SomeAreBase64(Hi(data[0]), MidHi(data[0], data[1]), MidLo(data[1], 0), 0);
    } else {
      var p, q, r, s := Hi(data[0]), MidHi(data[0], data[1]), MidLo(data[1], data[2]), Lo(data[2]);
      SomeAreBase64(p, q, r, s);
      EncodeShape(data[3..]);
      AppendIsBase64([Symbol(p), Symbol(q), Symbol(r), Symbol(s)], Encode(data[3..]));
    }
  }

  lemma {:induction false} NoneIsBase64()
    ensures AllBase64([])
  {}

  lemma {:induction false} SextetsRoundTrip(a: byte, b: byte, c: byte)
    ensures Byte0(Hi(a), MidHi(a, b)) == a
    ensures Byte1(MidHi(a, b), MidLo(b, c)) == b
    ensures Byte2(MidLo(b, c), Lo(c)) == c
  {
    assert MidHi(a, b) / 16 == a % 4;
    assert MidHi(a, b) % 16 == b / 16;
    assert MidLo(b, c) / 4 == b % 16;
    assert MidLo(b, c) % 4 == c / 64;
  }

  lemma {:induction false} PaddingBitsAreZero(a: byte)
    ensures MidHi(a, 0) % 16 == 0
    ensures MidLo(a, 0) % 4 == 0
  {
    assert MidHi(a, 0) == a % 4 * 16;
    assert MidLo(a, 0) == a % 16 * 4;
  }

  lemma {:induction false} PaddedGroups(p: sextet, q: sextet, r: sextet)
    ensures q % 16 == 0 ==> DecodeGroup(Symbol(p), Symbol(q), PAD, PAD, true) == Some([Byte0(p, q)])
    ensures r % 4 == 0 ==> DecodeGroup(Symbol(p), Symbol(q), Symbol(r), PAD, true) == Some([Byte0(p, q), Byte1(q, r)])
  {
    SymbolValue(p);
    SymbolValue(q);
    SymbolValue(r);
    assert Value(PAD) == None;
  }

  lemma {:induction false} OneByte(a: byte)
    ensures DecodeGroup(Symbol(Hi(a)), Symbol(MidHi(a, 0)), PAD, PAD, true) == Some([a])
  {
    PaddedGroups(Hi(a), MidHi(a, 0), 0);
    SextetsRoundTrip(a, 0, 0);
    PaddingBitsAreZero(a);
  }

  lemma {:induction false} TwoBytes(a: byte, b: byte)
    ensures DecodeGroup(Symbol(Hi(a)), Symbol(MidHi(a, b)), Symbol(MidLo(b, 0)), PAD, true) == Some([a, b])
  {
    PaddedGroups(Hi(a), MidHi(a, b), MidLo(b, 0));
    SextetsRoundTrip(a, b, 0);
    PaddingBitsAreZero(b);
  }

  lemma {:induction false} ThreeBytes(a: byte, b: byte, c: byte, last: bool)
    ensures DecodeGroup(Symbol(Hi(a)), Symbol(MidHi(a, b)), Symbol(MidLo(b, c)), Symbol(Lo(c)), last) == Some([a, b, c])
  {
    SymbolValue(Hi(a));
    SymbolValue(MidHi(a, b));
    SymbolValue(MidLo(b, c));
    SymbolValue(Lo(c));
    SextetsRoundTrip(a, b, c);
  }

  lemma {:induction false} DecodeStep(s: bytes, head: bytes, tail: bytes)
    requires |s| >= 4
    requires DecodeGroup(s[0], s[1], s[2], s[3], |s| == 4) == Some(head)
    requires Decode(s[4..]) == Some(tail)
    ensures Decode(s) == Some(head + tail)
  {}

  lemma {:induction false} DecodeLastGroup(s: bytes, data: bytes)
    requires |s| == 4
    requires DecodeGroup(s[0], s[1], s[2], s[3], true) == Some(data)
    ensures Decode(s) == Some(data)
  {
    assert s[4..] == [];
    DecodeStep(s, data, []);
    assert data + [] == data;
  }

  lemma {:induction false} ShortRoundTrip(data: bytes)
    requires 1 <= |data| <= 2
    ensures Decode(Encode(data)) == Some(data)
  {
    if |data| == 1 {
      OneByte(data[0]);
      assert data == [data[0]];
    } else {
      TwoBytes(data[0], data[1]);
      assert data == [data[0], data[1]];
    }
    DecodeLastGroup(Encode(data), data);
  }

  /** Decoding undoes encoding, for every byte string. */
  lemma {:induction false} RoundTrip(data: bytes)
    ensures Decode(Encode(data)) == Some(data)
  {
    if 1 <= |data| <= 2 {
      ShortRoundTrip(data);
    } else if |data| >= 3 {
      var s := Encode(data);
      RoundTrip(data[3..]);
      ThreeBytes(data[0], data[1], data[2], |s| == 4);
      assert s[4..] == Encode(data[3..]);
      DecodeStep(s, [data[0], data[1], data[2]], data[3..]);
      assert [data[0], data[1], data[2]] + data[3..] == data;
    }
  }

  lemma {:induction false} DecodeIsShorter(s: bytes)
    ensures Decode(s).Some? ==> |Decode(s).value| <= |s|
  {
    if |s| >= 4 {
      DecodeIsShorter(s[4..]);
    }
  }
}
