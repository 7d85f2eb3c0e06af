/**
 UTF-16 and UTF-32 as Python decodes them with `surrogatepass`, and how `json.loads` tells which encoding its bytes are in
 (section 3 of RFC 4627, with byte order marks).
 */
module WideUtf {
  import opened Text
  import opened JsonStrings

  datatype Endian = Big | Little

  // ---- code units ----

  function Unit16(e: Endian, x: Byte, y: Byte): (u: int)
    ensures 0 <= u < 0x1_0000
  {
    if e.Big? then x * 0x100 + y else y * 0x100 + x
  }

  function Bytes16(e: Endian, u: int): (b: Bytes)
    requires 0 <= u < 0x1_0000
    ensures |b| == 2 && Unit16(e, b[0], b[1]) == u
  {
    if e.Big? then [u / 0x100, u % 0x100] else [u % 0x100, u / 0x100]
  }

  function Unit32(e: Endian, b: Bytes): (v: int)
    requires |b| >= 4
    ensures v >= 0
  {
    if e.Big? then Unit16(e, b[0], b[1]) * 0x1_0000 + Unit16(e, b[2], b[3])
    else Unit16(e, b[2], b[3]) * 0x1_0000 + Unit16(e, b[0], b[1])
  }

  function Bytes32(e: Endian, c: CodePoint): (b: Bytes)
    ensures |b| == 4 && Unit32(e, b) == c
  {
    if e.Big? then Bytes16(e, c / 0x1_0000) + Bytes16(e, c % 0x1_0000)
    else Bytes16(e, c % 0x1_0000) + Bytes16(e, c / 0x1_0000)
  }

  // ---- UTF-16 ----

  /** The character at the front and its length in bytes: a joined pair, or a single unit, surrogates let through. */
  function ReadChar16(e: Endian, b: Bytes): (r: (CodePoint, nat))
    requires |b| >= 2
    ensures 2 <= r.1 <= |b|
  {
    var u := Unit16(e, b[0], b[1]);
    if IsHigh(u) && |b| >= 4 && IsLow(Unit16(e, b[2], b[3])) then
      (0x1_0000 + (u - 0xD800) * 0x400 + (Unit16(e, b[2], b[3]) - 0xDC00), 4)
    else (u, 2)
  }

  function Decode16(e: Endian, b: Bytes): Option<Text> {
    if b == [] then Some([])
    else if |b| < 2 then None
    else
      var (c, n) := ReadChar16(e, b);
      match Decode16(e, b[n..]) case None => None case Some(t) => Some([c] + t)
  }

  function EncodeChar16(e: Endian, c: CodePoint): Bytes {
    if c < 0x1_0000 then Bytes16(e, c)
    else Bytes16(e, 0xD800 + (c - 0x1_0000) / 0x400) + Bytes16(e, 0xDC00 + (c - 0x1_0000) % 0x400)
  }

  function Encode16(e: Endian, t: Text): Bytes {
    if t == [] then [] else EncodeChar16(e, t[0]) + Encode16(e, t[1..])
  }

  /** A character reads back unless it is a high surrogate and a low one follows. */
  lemma ReadEncoded16(e: Endian, c: CodePoint, rest: Bytes)
    requires IsHigh(c) && |rest| >= 2 ==> !IsLow(Unit16(e, rest[0], rest[1]))
    ensures var b := EncodeChar16(e, c) + rest; |b| >= 2 && ReadChar16(e, b) == (c, |EncodeChar16(e, c)|)
  {
    var b := EncodeChar16(e, c) + rest;
    if c < 0x1_0000 {
      assert IsHigh(c) && |b| >= 4 ==> b[2] == rest[0] && b[3] == rest[1];
    }
  }

  lemma FirstUnit16(e: Endian, t: Text)
    requires t != []
    ensures |Encode16(e, t)| >= 2
    ensures IsLow(Unit16(e, Encode16(e, t)[0], Encode16(e, t)[1])) ==> IsLow(t[0])
  {
  }

  lemma {:induction false} DecodeEncode16(e: Endian, t: Text)
    requires Paired(t)
    ensures Decode16(e, Encode16(e, t)) == Some(t)
  {
    if t != [] {
      DecodeEncode16(e, t[1..]);
      var rest := Encode16(e, t[1..]);
      if |t| > 1 {
        FirstUnit16(e, t[1..]);
        assert !(IsHigh(t[0]) && IsLow(t[0 + 1]));
      }
      ReadEncoded16(e, t[0], rest);
      assert Encode16(e, t)[|EncodeChar16(e, t[0])|..] == rest;
      assert [t[0]] + t[1..] == t;
    }
  }

  lemma {:induction false} EncodeOfRead16(e: Endian, b: Bytes)
    requires |b| >= 2
    ensures var (c, n) := ReadChar16(e, b); EncodeChar16(e, c) == b[..n]
  {
    var u := Unit16(e, b[0], b[1]);
    UnitBytes(e, b[0], b[1]);
    if IsHigh(u) && |b| >= 4 && IsLow(Unit16(e, b[2], b[3])) {
      UnitBytes(e, b[2], b[3]);
      var v := Unit16(e, b[2], b[3]);
      var c := 0x1_0000 + (u - 0xD800) * 0x400 + (v - 0xDC00);
      assert 0xD800 + (c - 0x1_0000) / 0x400 == u && 0xDC00 + (c - 0x1_0000) % 0x400 == v;
      assert b[..4] == [b[0], b[1]] + [b[2], b[3]];
    } else {
      assert b[..2] == [b[0], b[1]];
    }
  }

  lemma {:induction false} UnitBytes(e: Endian, x: Byte, y: Byte)
    ensures Bytes16(e, Unit16(e, x, y)) == [x, y]
  {
  }

  /** A high surrogate that was not joined is not followed by a low one. */
  lemma {:induction false} NotJoinable(e: Endian, b: Bytes)
    requires |b| >= 2 && |b| - ReadChar16(e, b).1 >= 2
    ensures var (c, n) := ReadChar16(e, b); IsHigh(c) ==> !IsLow(ReadChar16(e, b[n..]).0)
  {
  }

  lemma {:induction false} DecodeStep16(e: Endian, b: Bytes)
    requires Decode16(e, b).Some? && b != []
    ensures |b| >= 2
    ensures var (c, n) := ReadChar16(e, b);
            && Decode16(e, b[n..]).Some? && Decode16(e, b).value == [c] + Decode16(e, b[n..]).value
            && (Decode16(e, b[n..]).value != [] ==>
                  |b| - n >= 2 && Decode16(e, b[n..]).value[0] == ReadChar16(e, b[n..]).0)
  {
    hide ReadChar16;
  }

  lemma {:induction false} EncodeStep16(e: Endian, c: CodePoint, t: Text)
    ensures Encode16(e, [c] + t) == EncodeChar16(e, c) + Encode16(e, t)
    ensures Paired(t) && (t != [] && IsHigh(c) ==> !IsLow(t[0])) ==> Paired([c] + t)
  {
    hide EncodeChar16;
    assert ([c] + t)[1..] == t;
  }

  lemma {:induction false} EncodeDecode16(e: Endian, b: Bytes)
    requires Decode16(e, b).Some?
    ensures Paired(Decode16(e, b).value) && Encode16(e, Decode16(e, b).value) == b
    decreases |b|
  {
    if b != [] {
      DecodeStep16(e, b);
      EncodeOfRead16(e, b);
      hide *;
      var (c, n) := ReadChar16(e, b);
      var t := Decode16(e, b[n..]).value;
      EncodeDecode16(e, b[n..]);
      EncodeStep16(e, c, t);
      if t != [] { NotJoinable(e, b); }
      Rejoin(b, n);
    } else {
      assert Decode16(e, b).value == [];
    }
  }

  lemma {:induction false} Rejoin(b: Bytes, n: nat)
    requires n <= |b|
    ensures b == b[..n] + b[n..]
  {
  }

  /** UTF-16 decodes exactly to the texts without an unjoined pair. */
  lemma {:induction false} DecodeExactly16(e: Endian, b: Bytes, t: Text)
    ensures Decode16(e, b) == Some(t) <==> Paired(t) && Encode16(e, t) == b
  {
    if Decode16(e, b) == Some(t) { EncodeDecode16(e, b); }
    if Paired(t) && Encode16(e, t) == b { DecodeEncode16(e, t); }
  }

  // ---- UTF-32 ----

  function Decode32(e: Endian, b: Bytes): Option<Text> {
    if b == [] then Some([])
    else if |b| < 4 || Unit32(e, b) >= 0x11_0000 then None
    else match Decode32(e, b[4..]) case None => None case Some(t) => Some([Unit32(e, b)] + t)
  }

  function Encode32(e: Endian, t: Text): Bytes {
    if t == [] then [] else Bytes32(e, t[0]) + Encode32(e, t[1..])
  }

  lemma {:induction false} DecodeEncode32(e: Endian, t: Text)
    ensures Decode32(e, Encode32(e, t)) == Some(t)
  {
    if t != [] {
      DecodeEncode32(e, t[1..]);
      var b := Encode32(e, t);
      assert b[4..] == Encode32(e, t[1..]);
      assert Unit32(e, b) == Unit32(e, Bytes32(e, t[0]));
      assert [t[0]] + t[1..] == t;
    }
  }

  lemma {:induction false} BytesOfUnit32(e: Endian, b: Bytes)
    requires |b| >= 4 && Unit32(e, b) < 0x11_0000
    ensures Bytes32(e, Unit32(e, b)) == b[..4]
  {
    UnitBytes(e, b[0], b[1]);
    UnitBytes(e, b[2], b[3]);
    var u, v := Unit16(e, b[0], b[1]), Unit16(e, b[2], b[3]);
    assert (u * 0x1_0000 + v) / 0x1_0000 == u && (u * 0x1_0000 + v) % 0x1_0000 == v;
    assert (v * 0x1_0000 + u) / 0x1_0000 == v && (v * 0x1_0000 + u) % 0x1_0000 == u;
    hide Unit16, Bytes16;
    assert b[..4] == [b[0], b[1]] + [b[2], b[3]];
  }

  lemma {:induction false} EncodeDecode32(e: Endian, b: Bytes)
    requires Decode32(e, b).Some?
    ensures Encode32(e, Decode32(e, b).value) == b
    decreases |b|
  {
    if b != [] {
      var t := Decode32(e, b[4..]).value;
      var c: CodePoint := Unit32(e, b);
      BytesOfUnit32(e, b);
      EncodeDecode32(e, b[4..]);
      hide Unit32, Bytes32;
      assert Decode32(e, b).value == [c] + t;
      assert ([c] + t)[1..] == t;
      Rejoin(b, 4);
    }
  }

  lemma {:induction false} DecodeExactly32(e: Endian, b: Bytes, t: Text)
    ensures Decode32(e, b) == Some(t) <==> Encode32(e, t) == b
  {
    if Decode32(e, b) == Some(t) { EncodeDecode32(e, b); }
    DecodeEncode32(e, t);
  }

  // ---- detection ----

  datatype Encoding = Utf8(skip: nat) | Utf16(endian: Endian, skip: nat) | Utf32(endian: Endian, skip: nat)

  /** `json.detect_encoding`; `skip` is the length of the byte order mark. */
  function Detect(b: Bytes): (enc: Encoding)
    ensures enc.skip <= |b|
  {
    if [0, 0, 0xFE, 0xFF] <= b then Utf32(Big, 4)
    else if [0xFF, 0xFE, 0, 0] <= b then Utf32(Little, 4)
    else if [0xFE, 0xFF] <= b then Utf16(Big, 2)
    else if [0xFF, 0xFE] <= b then Utf16(Little, 2)
    else if [0xEF, 0xBB, 0xBF] <= b then Utf8(3)
    else if |b| >= 4 && b[0] == 0 then (if b[1] != 0 then Utf16(Big, 0) else Utf32(Big, 0))
    else if |b| >= 4 && b[1] == 0 then (if b[2] != 0 || b[3] != 0 then Utf16(Little, 0) else Utf32(Little, 0))
    else if |b| == 2 && b[0] == 0 then Utf16(Big, 0)
    else if |b| == 2 && b[1] == 0 then Utf16(Little, 0)
    else Utf8(0)
  }

  lemma DetectsUtf16(b: Bytes, e: Endian)
    requires |b| >= 4
    requires if e.Big? then b[0] == 0 && 0 < b[1] < 0x80 else 0 < b[0] < 0x80 && b[1] == 0 && (b[2] != 0 || b[3] != 0)
    ensures Detect(b) == Utf16(e, 0)
  {
  }

  lemma DetectsUtf32(b: Bytes, e: Endian)
    requires |b| >= 4
    requires if e.Big? then b[0] == b[1] == b[2] == 0 && 0 < b[3] < 0x80 else 0 < b[0] < 0x80 && b[1] == b[2] == b[3] == 0
    ensures Detect(b) == Utf32(e, 0)
  {
  }

  lemma Front16(e: Endian, t: Text)
    requires t != [] && t[0] < 0x80
    ensures var b := Encode16(e, t);
            && |b| == 2 + |Encode16(e, t[1..])| && b[2..] == Encode16(e, t[1..])
            && (if e.Big? then b[0] == 0 && b[1] == t[0] else b[0] == t[0] && b[1] == 0)
  {
    var rest := Encode16(e, t[1..]);
    assert Encode16(e, t) == Bytes16(e, t[0]) + rest;
    hide Encode16;
  }

  lemma Front32(e: Endian, t: Text)
    requires t != [] && t[0] < 0x80
    ensures var b := Encode32(e, t);
            && |b| >= 4
            && (if e.Big? then b[0] == b[1] == b[2] == 0 && b[3] == t[0] else b[0] == t[0] && b[1] == b[2] == b[3] == 0)
  {
    var rest := Encode32(e, t[1..]);
    assert Encode32(e, t) == Bytes32(e, t[0]) + rest;
    hide Encode32;
  }

  predicate StartsAscii(t: Text) {
    |t| >= 2 && 0 < t[0] < 0x80 && 0 < t[1] < 0x80
  }

  /** Text that starts with two ASCII characters other than NUL is recognised in each of the five encodings. */
  lemma DetectsItself(t: Text, e: Endian, utf8: Bytes)
    requires StartsAscii(t) && |utf8| >= 2 && utf8[0] == t[0] && utf8[1] == t[1]
    ensures Detect(utf8) == Utf8(0)
    ensures Detect(Encode16(e, t)) == Utf16(e, 0)
    ensures Detect(Encode32(e, t)) == Utf32(e, 0)
  {
    Front16(e, t);
    Front16(e, t[1..]);
    Front32(e, t);
    var b16 := Encode16(e, t);
    assert b16[2] == b16[2..][0] && b16[3] == b16[2..][1];
    DetectsUtf32(Encode32(e, t), e);
    hide Encode16, Encode32;
    assert Detect(utf8) == Utf8(0);
    hide Detect;
    DetectsUtf16(b16, e);
  }

  /** So is one such character alone, and a byte order mark is, unless the little-endian one is followed by a NUL. */
  lemma {:induction false} DetectsMarks(b: Bytes, c: CodePoint, e: Endian)
    requires 0 < c < 0x80
    ensures Detect([0xEF, 0xBB, 0xBF] + b) == Utf8(3)
    ensures Detect([0xFE, 0xFF] + b) == Utf16(Big, 2)
    ensures Detect([0xFF, 0xFE] + b) == if [0, 0] <= b then Utf32(Little, 4) else Utf16(Little, 2)
    ensures Detect([0, 0, 0xFE, 0xFF] + b) == Utf32(Big, 4)
    ensures Detect([c]) == Utf8(0) && Detect(Encode16(e, [c])) == Utf16(e, 0) && Detect(Encode32(e, [c])) == Utf32(e, 0)
  {
    MarksByIndex([0xEF, 0xBB, 0xBF] + b);
    MarksByIndex([0xFE, 0xFF] + b);
    MarksByIndex([0xFF, 0xFE] + b);
    MarksByIndex([0, 0, 0xFE, 0xFF] + b);
    assert [0, 0] <= b <==> |b| >= 2 && b[0] == b[1] == 0;
    LoneCharacter(c, e);
  }

  lemma {:induction false} LoneCharacter(c: CodePoint, e: Endian)
    requires 0 < c < 0x80
    ensures Detect([c]) == Utf8(0) && Detect(Encode16(e, [c])) == Utf16(e, 0) && Detect(Encode32(e, [c])) == Utf32(e, 0)
  {
    assert [c][1..] == [];
    assert Encode16(e, [c]) == Bytes16(e, c) + [] == Bytes16(e, c);
    assert Encode32(e, [c]) == Bytes32(e, c) + [] == Bytes32(e, c);
    hide Encode16, Encode32;
    MarksByIndex([c]);
    MarksByIndex(Bytes16(e, c));
    MarksByIndex(Bytes32(e, c));
  }

  lemma {:induction false} MarksByIndex(b: Bytes)
    ensures [0, 0, 0xFE, 0xFF] <= b <==> |b| >= 4 && b[0] == b[1] == 0 && b[2] == 0xFE && b[3] == 0xFF
    ensures [0xFF, 0xFE, 0, 0] <= b <==> |b| >= 4 && b[0] == 0xFF && b[1] == 0xFE && b[2] == b[3] == 0
    ensures [0xFE, 0xFF] <= b <==> |b| >= 2 && b[0] == 0xFE && b[1] == 0xFF
    ensures [0xFF, 0xFE] <= b <==> |b| >= 2 && b[0] == 0xFF && b[1] == 0xFE
    ensures [0xEF, 0xBB, 0xBF] <= b <==> |b| >= 3 && b[0] == 0xEF && b[1] == 0xBB && b[2] == 0xBF
  {
    if |b| >= 4 { assert b[..4] == [b[0], b[1], b[2], b[3]]; }
    if |b| >= 3 { assert b[..3] == [b[0], b[1], b[2]]; }
    if |b| >= 2 { assert b[..2] == [b[0], b[1]]; }
  }
}
