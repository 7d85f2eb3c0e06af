/** UTF-8 (RFC 3629). With `surrogatepass`, as `json.loads` decodes bytes, encoded surrogates are let through. */
module Utf8 {
  import opened Text
  import opened JsonStrings

  predicate Encodable(c: CodePoint, pass: bool) {
    pass || !(IsHigh(c) || IsLow(c))
  }

  predicate IsContinuation(b: Byte) { 0x80 <= b < 0xC0 }

  function EncodeChar(c: CodePoint): (b: Bytes)
    ensures 1 <= |b| <= 4
  {
    if c < 0x80 then [c]
    else if c < 0x800 then [0xC0 + c / 0x40, 0x80 + c % 0x40]
    else if c < 0x1_0000 then [0xE0 + c / 0x40 / 0x40, 0x80 + c / 0x40 % 0x40, 0x80 + c % 0x40]
    else [0xF0 + c / 0x40 / 0x40 / 0x40, 0x80 + c / 0x40 / 0x40 % 0x40, 0x80 + c / 0x40 % 0x40, 0x80 + c % 0x40]
  }

  function Encode(t: Text): Bytes {
    if t == [] then [] else EncodeChar(t[0]) + Encode(t[1..])
  }

  /** Six more bits from a continuation byte. */
  function Append(bits: int, b: int): int { bits * 0x40 + (b - 0x80) }

  /** The first character of `b` and its length; overlong forms, stray bytes and values past U+10FFFF are errors. */
  function ReadChar(b: Bytes, pass: bool): (r: Option<(CodePoint, nat)>)
    requires b != []
    ensures r.Some? ==> 1 <= r.value.1 <= |b|
  {
    if b[0] < 0x80 then Some((b[0], 1))
    else if 0xC0 <= b[0] < 0xE0 && |b| >= 2 && IsContinuation(b[1]) then
      var c := Append(b[0] - 0xC0, b[1]);
      if c < 0x80 then None else Some((c, 2))
    else if 0xE0 <= b[0] < 0xF0 && |b| >= 3 && IsContinuation(b[1]) && IsContinuation(b[2]) then
      var c := Append(Append(b[0] - 0xE0, b[1]), b[2]);
      if c < 0x800 || !Encodable(c, pass) then None else Some((c, 3))
    else if 0xF0 <= b[0] < 0xF8 && |b| >= 4 && IsContinuation(b[1]) && IsContinuation(b[2]) && IsContinuation(b[3]) then
      var c := Append(Append(Append(b[0] - 0xF0, b[1]), b[2]), b[3]);
      if c < 0x1_0000 || c >= 0x11_0000 then None else Some((c, 4))
    else None
  }

  function Decode(b: Bytes, pass: bool): Option<Text> {
    if b == [] then Some([])
    else match ReadChar(b, pass)
      case None => None
      case Some((c, n)) =>
        match Decode(b[n..], pass) case None => None case Some(t) => Some([c] + t)
  }

  ghost predicate AllEncodable(t: Text, pass: bool) {
    forall i | 0 <= i < |t| :: Encodable(t[i], pass)
  }

  lemma ReadEncoded(c: CodePoint, rest: Bytes, pass: bool)
    requires Encodable(c, pass)
    ensures ReadChar(EncodeChar(c) + rest, pass) == Some((c, |EncodeChar(c)|))
  {
  }

  lemma AppendSplits(bits: int, b: Byte)
    requires IsContinuation(b) && bits >= 0
    ensures Append(bits, b) / 0x40 == bits && Append(bits, b) % 0x40 == b - 0x80
  {
  }

  lemma EncodeOfRead(b: Bytes, pass: bool)
    requires b != [] && ReadChar(b, pass).Some?
    ensures var (c, n) := ReadChar(b, pass).value; Encodable(c, pass) && b[..n] == EncodeChar(c)
  {
    if 0xC0 <= b[0] < 0xE0 {
      AppendSplits(b[0] - 0xC0, b[1]);
    } else if 0xE0 <= b[0] < 0xF0 {
      AppendSplits(b[0] - 0xE0, b[1]);
      AppendSplits(Append(b[0] - 0xE0, b[1]), b[2]);
    } else if 0xF0 <= b[0] {
      AppendSplits(b[0] - 0xF0, b[1]);
      AppendSplits(Append(b[0] - 0xF0, b[1]), b[2]);
      AppendSplits(Append(Append(b[0] - 0xF0, b[1]), b[2]), b[3]);
    }
  }

  /** The byte sequences of RFC 3629, each for the character its bits make up. */
  predicate StandsFor(b: Bytes, c: CodePoint) {
    || (|b| == 1 && b[0] == c < 0x80)
    || (|b| == 2 && 0xC2 <= b[0] <= 0xDF && IsContinuation(b[1]) && c as int == Append(b[0] - 0xC0, b[1]))
    || (|b| == 3 && 0xE0 <= b[0] <= 0xEF && IsContinuation(b[1]) && IsContinuation(b[2]) && c >= 0x800
        && c as int == Append(Append(b[0] - 0xE0, b[1]), b[2]))
    || (|b| == 4 && 0xF0 <= b[0] <= 0xF4 && IsContinuation(b[1]) && IsContinuation(b[2]) && IsContinuation(b[3])
        && c >= 0x1_0000 && c as int == Append(Append(Append(b[0] - 0xF0, b[1]), b[2]), b[3]))
  }

  lemma {:induction false} CharExactly(c: CodePoint, b: Bytes)
    ensures EncodeChar(c) == b <==> StandsFor(b, c)
  {
    EncodedStands(c);
    if StandsFor(b, c) { StandsForOne(c, b); }
  }

  lemma {:induction false} EncodedStands(c: CodePoint)
    ensures StandsFor(EncodeChar(c), c)
  {
  }

  lemma {:induction false} StandsForOne(c: CodePoint, b: Bytes)
    requires StandsFor(b, c)
    ensures EncodeChar(c) == b
  {
    if |b| == 1 {
      assert b == [b[0]];
    } else if |b| == 2 {
      AppendSplits(b[0] - 0xC0, b[1]);
      hide Append;
      assert b == [b[0], b[1]];
    } else if |b| == 3 {
      AppendSplits(b[0] - 0xE0, b[1]);
      AppendSplits(Append(b[0] - 0xE0, b[1]), b[2]);
      assert 0x800 <= c < 0x1_0000;
      hide Append;
      assert b == [b[0], b[1], b[2]];
    } else {
      AppendSplits(b[0] - 0xF0, b[1]);
      AppendSplits(Append(b[0] - 0xF0, b[1]), b[2]);
      AppendSplits(Append(Append(b[0] - 0xF0, b[1]), b[2]), b[3]);
      hide Append;
      assert b == [b[0], b[1], b[2], b[3]];
    }
  }

  lemma {:induction false} DecodeEncode(t: Text, pass: bool)
    requires AllEncodable(t, pass)
    ensures Decode(Encode(t), pass) == Some(t)
  {
    if t != [] {
      DecodeEncode(t[1..], pass);
      ReadEncoded(t[0], Encode(t[1..]), pass);
      assert Encode(t)[|EncodeChar(t[0])|..] == Encode(t[1..]);
      assert [t[0]] + t[1..] == t;
    }
  }

  lemma {:induction false} EncodeDecode(b: Bytes, pass: bool)
    requires Decode(b, pass).Some?
    ensures AllEncodable(Decode(b, pass).value, pass) && Encode(Decode(b, pass).value) == b
    decreases |b|
  {
    hide ReadChar, EncodeChar;
    if b != [] {
      EncodeOfRead(b, pass);
      var (c, n) := ReadChar(b, pass).value;
      EncodeDecode(b[n..], pass);
      var t := Decode(b[n..], pass).value;
      assert ([c] + t)[1..] == t;
      assert b == b[..n] + b[n..];
    }
  }

  /** The decoder accepts exactly the encodings of its texts. */
  lemma DecodeExactly(b: Bytes, t: Text, pass: bool)
    ensures Decode(b, pass) == Some(t) <==> AllEncodable(t, pass) && Encode(t) == b
  {
    if Decode(b, pass) == Some(t) { EncodeDecode(b, pass); }
    if AllEncodable(t, pass) && Encode(t) == b { DecodeEncode(t, pass); }
  }

  /** ASCII text is its own encoding. */
  lemma {:induction false} EncodeAscii(t: Text)
    requires IsAscii(t)
    ensures Encode(t) == AsciiBytes(t)
  {
    if t != [] {
      EncodeAscii(t[1..]);
      assert AsciiBytes(t) == [t[0] as Byte] + AsciiBytes(t[1..]);
    }
  }
}
