/**
 JSON strings (section 7 of RFC 8259) as Python's `json` module reads them in strict mode and writes them
 with `ensure_ascii`: control characters are rejected, non-ASCII is written as `\uXXXX`, pairs of escaped
 surrogates are joined, lone ones are kept.
 */
module JsonStrings {
  import opened Text

  const QUOTE: CodePoint := 34
  const BACKSLASH: CodePoint := 92
  const LOWER_U: CodePoint := 117

  predicate IsHigh(c: CodePoint) { 0xD800 <= c < 0xDC00 }
  predicate IsLow(c: CodePoint) { 0xDC00 <= c < 0xE000 }

  /** No high surrogate directly before a low one: what a string read from surrogate-free text satisfies. */
  ghost predicate Paired(s: Text) {
    forall i | 0 <= i < |s| - 1 :: !(IsHigh(s[i]) && IsLow(s[i + 1]))
  }

  ghost predicate SurrogateFree(t: Text) {
    forall i | 0 <= i < |t| :: !IsHigh(t[i]) && !IsLow(t[i])
  }

  // ---- hexadecimal escapes ----

  type Nibble = n: int | 0 <= n < 16

  function HexDigit(n: Nibble): CodePoint {
    if n < 10 then 48 + n else 97 + n - 10
  }

  function HexValue(c: CodePoint): Option<Nibble> {
    if 48 <= c <= 57 then Some(c - 48)
    else if 97 <= c <= 102 then Some(c - 97 + 10)
    else if 65 <= c <= 70 then Some(c - 65 + 10) else None
  }

  /** `\uXXXX` for one 16-bit unit. */
  function UnicodeEscape(u: int): (t: Text)
    requires 0 <= u < 0x1_0000
    ensures |t| == 6 && t[0] == BACKSLASH && t[1] == LOWER_U
  {
    [BACKSLASH, LOWER_U, HexDigit(u / 0x1000), HexDigit(u / 0x100 % 16), HexDigit(u / 16 % 16), HexDigit(u % 16)]
  }

  function JoinNibbles(a: int, b: int, c: int, d: int): int {
    ((a * 16 + b) * 16 + c) * 16 + d
  }

  /** The 16-bit unit of a `\uXXXX` escape at the front of `t`. */
  function ReadUnicodeEscape(t: Text): (u: Option<int>)
    ensures u.Some? ==> |t| >= 6 && t[0] == BACKSLASH && t[1] == LOWER_U && 0 <= u.value < 0x1_0000
  {
    if |t| < 6 || t[0] != BACKSLASH || t[1] != LOWER_U then None
    else match (HexValue(t[2]), HexValue(t[3]), HexValue(t[4]), HexValue(t[5]))
      case (Some(a), Some(b), Some(c), Some(d)) => Some(JoinNibbles(a, b, c, d))
      case _ => None
  }

  lemma HexDigitRoundTrip(n: Nibble)
    ensures HexValue(HexDigit(n)) == Some(n) && 48 <= HexDigit(n) <= 102
  {
  }

  lemma JoinSplitNibbles(u: int)
    requires 0 <= u < 0x1_0000
    ensures JoinNibbles(u / 0x1000, u / 0x100 % 16, u / 16 % 16, u % 16) == u
  {
    assert u / 0x1000 == u / 0x100 / 16 && u / 0x100 == u / 16 / 16;
  }

  lemma UnicodeEscapeRoundTrip(u: int, rest: Text)
    requires 0 <= u < 0x1_0000
    ensures ReadUnicodeEscape(UnicodeEscape(u) + rest) == Some(u)
    ensures forall i | 0 <= i < 6 :: 0x20 <= UnicodeEscape(u)[i] <= 0x7E
  {
    HexDigitRoundTrip(u / 0x1000);
    HexDigitRoundTrip(u / 0x100 % 16);
    HexDigitRoundTrip(u / 16 % 16);
    HexDigitRoundTrip(u % 16);
    JoinSplitNibbles(u);
  }

  // ---- printing ----

  /** The character after the backslash of a two-character escape, if `c` is written that way. */
  function ShortEscape(c: CodePoint): Option<CodePoint> {
    if c == QUOTE || c == BACKSLASH then Some(c)
    else if c == 8 then Some(98) else if c == 12 then Some(102) else if c == 10 then Some(110)
    else if c == 13 then Some(114) else if c == 9 then Some(116) else None
  }

  function EscapeChar(c: CodePoint): Text {
    if ShortEscape(c).Some? then [BACKSLASH, ShortEscape(c).value]
    else if 0x20 <= c <= 0x7E then [c]
    else if c < 0x1_0000 then UnicodeEscape(c)
    else UnicodeEscape(0xD800 + (c - 0x1_0000) / 0x400) + UnicodeEscape(0xDC00 + (c - 0x1_0000) % 0x400)
  }

  function EscapeAll(s: Text): Text {
    if s == [] then [] else EscapeChar(s[0]) + EscapeAll(s[1..])
  }

  // ---- parsing ----

  function ReadShortEscape(c: CodePoint): Option<CodePoint> {
    if c == QUOTE || c == BACKSLASH || c == 47 then Some(c)
    else if c == 98 then Some(8) else if c == 102 then Some(12) else if c == 110 then Some(10)
    else if c == 114 then Some(13) else if c == 116 then Some(9) else None
  }

  /** One character of a string body and what follows it. */
  function ReadChar(t: Text): (r: Option<(CodePoint, Text)>)
    requires t != [] && t[0] != QUOTE
    ensures r.Some? ==> |r.value.1| < |t|
  {
    if t[0] < 0x20 then None
    else if t[0] != BACKSLASH then Some((t[0], t[1..]))
    else if |t| < 2 then None
    else if t[1] != LOWER_U then
      (match ReadShortEscape(t[1]) case None => None case Some(c) => Some((c, t[2..])))
    else match ReadUnicodeEscape(t)
      case None => None
      case Some(u) =>
        if IsHigh(u) && ReadUnicodeEscape(t[6..]).Some? && IsLow(ReadUnicodeEscape(t[6..]).value) then
          Some((0x1_0000 + (u - 0xD800) * 0x400 + (ReadUnicodeEscape(t[6..]).value - 0xDC00), t[12..]))
        else Some((u, t[6..]))
  }

  /** The string whose opening quote has just been read, and the text after its closing quote. */
  function ReadString(t: Text): (r: Option<(Text, Text)>)
    ensures r.Some? ==> |r.value.1| < |t|
    decreases |t|
  {
    if t == [] then None
    else if t[0] == QUOTE then Some(([], t[1..]))
    else match ReadChar(t)
      case None => None
      case Some((c, rest)) =>
        match ReadString(rest)
        case None => None
        case Some((s, tail)) => Some(([c] + s, tail))
  }

  // ---- the printer is inverted by the parser ----

  /** An escaped character reads back as itself unless a high surrogate meets an escaped low one. */
  lemma ReadEscapedChar(c: CodePoint, rest: Text)
    requires IsHigh(c) ==> ReadUnicodeEscape(rest).None? || !IsLow(ReadUnicodeEscape(rest).value)
    ensures var t := EscapeChar(c) + rest; t != [] && t[0] != QUOTE && ReadChar(t) == Some((c, rest))
  {
    var t := EscapeChar(c) + rest;
    if ShortEscape(c).Some? {
      assert t[2..] == rest;
    } else if 0x20 <= c <= 0x7E {
      assert t[1..] == rest;
    } else if c < 0x1_0000 {
      UnicodeEscapeRoundTrip(c, rest);
      assert t[6..] == rest;
    } else {
      var high, low := 0xD800 + (c - 0x1_0000) / 0x400, 0xDC00 + (c - 0x1_0000) % 0x400;
      assert t == UnicodeEscape(high) + (UnicodeEscape(low) + rest);
      UnicodeEscapeRoundTrip(high, UnicodeEscape(low) + rest);
      UnicodeEscapeRoundTrip(low, rest);
      assert t[6..] == UnicodeEscape(low) + rest && t[12..] == rest;
    }
  }

  /** An escape sequence for a low surrogate appears in front only if the character is one. */
  lemma LowEscapeInFront(c: CodePoint, rest: Text)
    ensures var u := ReadUnicodeEscape(EscapeChar(c) + rest); u.Some? && IsLow(u.value) ==> IsLow(c)
  {
    if ShortEscape(c).Some? {
      assert (EscapeChar(c) + rest)[1] != LOWER_U;
    } else if 0x20 <= c <= 0x7E {
    } else if c < 0x1_0000 {
      UnicodeEscapeRoundTrip(c, rest);
    } else {
      var high, low := 0xD800 + (c - 0x1_0000) / 0x400, 0xDC00 + (c - 0x1_0000) % 0x400;
      UnicodeEscapeRoundTrip(high, UnicodeEscape(low) + rest);
      assert EscapeChar(c) + rest == UnicodeEscape(high) + (UnicodeEscape(low) + rest);
    }
  }

  lemma EscapeAllStep(s: Text, rest: Text)
    requires s != []
    ensures EscapeAll(s) + rest == EscapeChar(s[0]) + (EscapeAll(s[1..]) + rest)
  {
  }

  /** Reading back what the printer wrote for `s`, up to the closing quote, gives `s`. */
  lemma {:induction false} StringRoundTrip(s: Text, rest: Text)
    requires Paired(s)
    ensures ReadString(EscapeAll(s) + ([QUOTE] + rest)) == Some((s, rest))
  {
    var close := [QUOTE] + rest;
    if s == [] {
      assert EscapeAll(s) + close == close && close[1..] == rest;
    } else {
      StringRoundTrip(s[1..], rest);
      EscapeAllStep(s, close);
      var tail := EscapeAll(s[1..]) + close;
      if |s| > 1 {
        EscapeAllStep(s[1..], close);
        LowEscapeInFront(s[1], EscapeAll(s[1..][1..]) + close);
        assert !(IsHigh(s[0]) && IsLow(s[0 + 1]));
      } else {
        assert tail == close;
      }
      ReadEscapedChar(s[0], tail);
      assert [s[0]] + s[1..] == s;
    }
  }

  /** The printer writes printable ASCII only, so never a raw control character. */
  lemma {:induction false} EscapedIsPrintable(s: Text)
    ensures forall i | 0 <= i < |EscapeAll(s)| :: 0x20 <= EscapeAll(s)[i] <= 0x7E
  {
    if s != [] {
      EscapedIsPrintable(s[1..]);
      var c := s[0];
      if ShortEscape(c).None? && !(0x20 <= c <= 0x7E) {
        if c < 0x1_0000 {
          UnicodeEscapeRoundTrip(c, []);
        } else {
          UnicodeEscapeRoundTrip(0xD800 + (c - 0x1_0000) / 0x400, []);
          UnicodeEscapeRoundTrip(0xDC00 + (c - 0x1_0000) % 0x400, []);
        }
      }
    }
  }

  /** Strings read from surrogate-free text never hold an unjoined pair. */
  lemma {:induction false} ReadStringPaired(t: Text)
    requires SurrogateFree(t) && ReadString(t).Some?
    ensures Paired(ReadString(t).value.0) && SurrogateFree(ReadString(t).value.1)
    ensures var s := ReadString(t).value.0;
            s != [] && IsLow(s[0]) ==> ReadUnicodeEscape(t).Some? && IsLow(ReadUnicodeEscape(t).value)
    decreases |t|
  {
    if t[0] != QUOTE {
      var (c, rest) := ReadChar(t).value;
      ReadStringPaired(rest);
      if IsHigh(c) {
        assert ReadUnicodeEscape(t) == Some(c as int) && rest == t[6..];
      }
    }
  }
}
