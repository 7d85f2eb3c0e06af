/**
 The grammar of JSON strings (section 7 of RFC 8259) and what a string means to Python's `json` module, stated without the
 reader: a string body is a list of pieces, and the reader accepts exactly those, with that meaning.
 */
module JsonStringGrammar {
  import opened Text
  import opened JsonStrings

  /** A character as it is, a backslash and a letter, or `\u` and four hexadecimal digits with their values. */
  datatype Piece = Plain(c: CodePoint) | Short(letter: CodePoint, means: CodePoint) | Unicode(hex: Text, digits: seq<Nibble>)

  /** The letters after a backslash and what they stand for: themselves, or backspace, form feed, newline, return and tab. */
  predicate StandsFor(letter: CodePoint, means: CodePoint) {
    || (letter == means && (letter == 34 || letter == 92 || letter == 47))
    || (letter == 98 && means == 8) || (letter == 102 && means == 12) || (letter == 110 && means == 10)
    || (letter == 114 && means == 13) || (letter == 116 && means == 9)
  }

  /** A digit, or one of `a` to `f` in either case. */
  predicate IsHex(c: CodePoint, n: Nibble) {
    if n < 10 then c == 48 + n else c == 97 + (n - 10) || c == 65 + (n - 10)
  }

  predicate LegalPiece(p: Piece) {
    match p
    case Plain(c) => c >= 0x20 && c != 34 && c != 92
    case Short(letter, means) => StandsFor(letter, means)
    case Unicode(hex, digits) => |hex| == |digits| == 4 && forall i | 0 <= i < 4 :: IsHex(hex[i], digits[i])
  }

  predicate LegalPieces(ps: seq<Piece>) {
    forall i | 0 <= i < |ps| :: LegalPiece(ps[i])
  }

  /** The 16-bit unit of four hexadecimal digits. */
  function Unit(digits: seq<Nibble>): (u: int)
    requires |digits| == 4
    ensures 0 <= u < 0x1_0000
  {
    digits[0] as int * 0x1000 + digits[1] as int * 0x100 + digits[2] as int * 0x10 + digits[3] as int
  }

  function One(p: Piece): CodePoint
    requires LegalPiece(p)
  {
    match p
    case Plain(c) => c
    case Short(_, means) => means
    case Unicode(_, digits) => Unit(digits)
  }

  /** The character a high and a low surrogate stand for (section 2.1 of RFC 2781). */
  function Pair(high: seq<Nibble>, low: seq<Nibble>): CodePoint
    requires |high| == |low| == 4 && IsHigh(Unit(high)) && IsLow(Unit(low))
  {
    0x1_0000 + (Unit(high) - 0xD800) * 0x400 + (Unit(low) - 0xDC00)
  }

  predicate JoinsNext(ps: seq<Piece>)
    requires LegalPieces(ps)
  {
    |ps| >= 2 && ps[0].Unicode? && ps[1].Unicode? && IsHigh(Unit(ps[0].digits)) && IsLow(Unit(ps[1].digits))
  }

  /** What the pieces say: an escaped high surrogate and an escaped low one right after it are one character. */
  function Meaning(ps: seq<Piece>): Text
    requires LegalPieces(ps)
  {
    if ps == [] then []
    else if JoinsNext(ps) then [Pair(ps[0].digits, ps[1].digits)] + Meaning(ps[2..])
    else [One(ps[0])] + Meaning(ps[1..])
  }

  function PieceText(p: Piece): (t: Text)
  {
    match p
    case Plain(c) => [c]
    case Short(letter, _) => [BACKSLASH, letter]
    case Unicode(hex, _) => [BACKSLASH, LOWER_U] + hex
  }

  /** The text of pieces in front of `rest`. */
  function PiecesText(ps: seq<Piece>, rest: Text): Text {
    if ps == [] then rest else PieceText(ps[0]) + PiecesText(ps[1..], rest)
  }

  // ---- one piece ----

  lemma {:induction false} HexExactly(c: CodePoint, n: Nibble)
    ensures HexValue(c) == Some(n) <==> IsHex(c, n)
  {
  }

  lemma {:induction false} ShortExactly(letter: CodePoint, means: CodePoint)
    ensures ReadShortEscape(letter) == Some(means) <==> StandsFor(letter, means)
    ensures StandsFor(letter, means) ==> letter != LOWER_U
  {
  }

  lemma {:induction false} ReadUnicodePiece(hex: Text, digits: seq<Nibble>, rest: Text)
    requires LegalPiece(Unicode(hex, digits))
    ensures var t := PieceText(Unicode(hex, digits)) + rest;
            ReadUnicodeEscape(t) == Some(Unit(digits)) && |t| >= 6 && t[6..] == rest
  {
    HexExactly(hex[0], digits[0]);
    HexExactly(hex[1], digits[1]);
    HexExactly(hex[2], digits[2]);
    HexExactly(hex[3], digits[3]);
    var t := PieceText(Unicode(hex, digits)) + rest;
    assert t == [BACKSLASH, LOWER_U] + (hex + rest);
    assert t[2..6] == hex;
    assert t[6..] == rest;
  }

  lemma {:induction false} UnicodePieceOf(t: Text) returns (p: Piece)
    requires ReadUnicodeEscape(t).Some?
    ensures p.Unicode? && LegalPiece(p) && ReadUnicodeEscape(t) == Some(Unit(p.digits)) && t == PieceText(p) + t[6..]
  {
    var hex := t[2..6];
    var digits := [HexValue(t[2]).value, HexValue(t[3]).value, HexValue(t[4]).value, HexValue(t[5]).value];
    p := Unicode(hex, digits);
    forall i | 0 <= i < 4 ensures IsHex(hex[i], digits[i]) { HexExactly(hex[i], digits[i]); }
    assert t == [BACKSLASH, LOWER_U] + hex + t[6..];
  }

  /** An escaped unit stands in front of a string body exactly if its first piece is one. */
  lemma {:induction false} EscapeInFront(ps: seq<Piece>, rest: Text)
    requires LegalPieces(ps)
    ensures var u := ReadUnicodeEscape(PiecesText(ps, [QUOTE] + rest));
            if ps != [] && ps[0].Unicode? then u == Some(Unit(ps[0].digits)) else u.None?
  {
    if ps != [] {
      assert LegalPiece(ps[0]);
      match ps[0]
      case Unicode(hex, digits) => ReadUnicodePiece(hex, digits, PiecesText(ps[1..], [QUOTE] + rest));
      case Short(letter, means) => ShortExactly(letter, means);
      case Plain(_) =>
    }
  }

  // ---- a body is read as its pieces ----

  lemma {:induction false} ReadStringStep(t: Text, c: CodePoint, tail: Text, s: Text, rest: Text)
    requires t != [] && t[0] != QUOTE && ReadChar(t) == Some((c, tail)) && ReadString(tail) == Some((s, rest))
    ensures ReadString(t) == Some(([c] + s, rest))
  {
  }

  lemma {:induction false} FirstPiece(p: Piece, ps: seq<Piece>, rest: Text)
    requires LegalPiece(p) && LegalPieces(ps)
    ensures LegalPieces([p] + ps) && PiecesText([p] + ps, rest) == PieceText(p) + PiecesText(ps, rest)
    ensures !JoinsNext([p] + ps) ==> Meaning([p] + ps) == [One(p)] + Meaning(ps)
  {
    assert ([p] + ps)[1..] == ps;
  }

  lemma {:induction false} FirstPair(high: Piece, low: Piece, ps: seq<Piece>)
    requires LegalPiece(high) && LegalPiece(low) && LegalPieces(ps) && JoinsNext([high, low])
    ensures LegalPieces([high, low] + ps) && Meaning([high, low] + ps) == [Pair(high.digits, low.digits)] + Meaning(ps)
  {
    assert ([high, low] + ps)[2..] == ps;
  }

  predicate ReadsAs(ps: seq<Piece>, rest: Text)
    requires LegalPieces(ps)
  {
    ReadString(PiecesText(ps, [QUOTE] + rest)) == Some((Meaning(ps), rest))
  }

  lemma {:induction false} ReadsPieces(ps: seq<Piece>, rest: Text)
    requires LegalPieces(ps)
    ensures ReadsAs(ps, rest)
    decreases |ps|
  {
    hide ReadsAs;
    if ps == [] {
      ReadsNone(rest);
    } else if JoinsNext(ps) {
      ReadsPieces(ps[2..], rest);
      ReadsJoined(ps, rest);
    } else {
      ReadsPieces(ps[1..], rest);
      ReadsSingle(ps[0], ps[1..], rest);
      assert ps == [ps[0]] + ps[1..];
    }
  }

  lemma {:induction false} ReadsNone(rest: Text)
    ensures ReadsAs([], rest)
  {
    assert ([QUOTE] + rest)[1..] == rest;
  }

  lemma {:induction false} ReadsJoined(ps: seq<Piece>, rest: Text)
    requires LegalPieces(ps) && JoinsNext(ps) && ReadsAs(ps[2..], rest)
    ensures ReadsAs(ps, rest)
  {
    PairReads(ps, rest);
    assert ps == [ps[0], ps[1]] + ps[2..];
    FirstPair(ps[0], ps[1], ps[2..]);
    hide ReadChar, ReadString, Meaning, PiecesText, LegalPieces, LegalPiece, Pair;
    ReadStringStep(PiecesText(ps, [QUOTE] + rest), Pair(ps[0].digits, ps[1].digits),
                   PiecesText(ps[2..], [QUOTE] + rest), Meaning(ps[2..]), rest);
  }

  lemma {:induction false} ReadsSingle(p: Piece, more: seq<Piece>, rest: Text)
    requires LegalPiece(p) && LegalPieces(more) && LegalPieces([p] + more) && !JoinsNext([p] + more) && ReadsAs(more, rest)
    ensures ReadsAs([p] + more, rest)
  {
    OneReads(p, more, rest);
    FirstPiece(p, more, []);
    hide ReadChar, ReadString, Meaning, PiecesText, LegalPieces, LegalPiece, JoinsNext;
    ReadStringStep(PiecesText([p] + more, [QUOTE] + rest), One(p), PiecesText(more, [QUOTE] + rest), Meaning(more), rest);
  }

  lemma {:induction false} PairReads(ps: seq<Piece>, rest: Text)
    requires LegalPieces(ps) && JoinsNext(ps)
    ensures var t := PiecesText(ps, [QUOTE] + rest);
            && t != [] && t[0] != QUOTE
            && ReadChar(t) == Some((Pair(ps[0].digits, ps[1].digits), PiecesText(ps[2..], [QUOTE] + rest)))
  {
    var tail := PiecesText(ps[2..], [QUOTE] + rest);
    assert PiecesText(ps, [QUOTE] + rest) == PieceText(ps[0]) + (PieceText(ps[1]) + tail) by {
      assert ps[1..][0] == ps[1] && ps[1..][1..] == ps[2..];
    }
    hide ReadChar, PiecesText;
    ReadsPair(ps[0], ps[1], tail);
  }

  lemma {:induction false} OneReads(p: Piece, more: seq<Piece>, rest: Text)
    requires LegalPieces([p] + more) && LegalPiece(p) && LegalPieces(more) && !JoinsNext([p] + more)
    ensures var t := PiecesText([p] + more, [QUOTE] + rest);
            t != [] && t[0] != QUOTE && ReadChar(t) == Some((One(p), PiecesText(more, [QUOTE] + rest)))
  {
    EscapeInFront(more, rest);
    FirstPiece(p, more, [QUOTE] + rest);
    hide ReadChar, PiecesText, ReadUnicodeEscape;
    ReadsOne(p, PiecesText(more, [QUOTE] + rest));
  }

  /** An escaped high surrogate and an escaped low one read as one character. */
  lemma {:induction false} ReadsPair(high: Piece, low: Piece, tail: Text)
    requires LegalPiece(high) && LegalPiece(low) && JoinsNext([high, low])
    ensures var t := PieceText(high) + (PieceText(low) + tail);
            && t != [] && t[0] != QUOTE
            && ReadChar(t) == Some((Pair(high.digits, low.digits), tail))
  {
    var t := PieceText(high) + (PieceText(low) + tail);
    ReadUnicodePiece(high.hex, high.digits, PieceText(low) + tail);
    ReadUnicodePiece(low.hex, low.digits, tail);
    hide ReadUnicodeEscape;
    assert t[12..] == t[6..][6..];
  }

  /** One piece reads as its character unless it joins with what follows. */
  lemma {:induction false} ReadsOne(p: Piece, tail: Text)
    requires LegalPiece(p)
    requires p.Unicode? && IsHigh(Unit(p.digits)) ==> ReadUnicodeEscape(tail).None? || !IsLow(ReadUnicodeEscape(tail).value)
    ensures var t := PieceText(p) + tail; t != [] && t[0] != QUOTE && ReadChar(t) == Some((One(p), tail))
  {
    var t := PieceText(p) + tail;
    match p
    case Plain(_) => assert t[1..] == tail;
    case Short(letter, means) =>
      ShortExactly(letter, means);
      assert t[2..] == tail;
    case Unicode(hex, digits) => ReadUnicodePiece(hex, digits, tail);
  }

  // ---- and what is read is made of pieces ----

  lemma {:induction false} PiecesOf(t: Text) returns (ps: seq<Piece>)
    requires ReadString(t).Some?
    ensures LegalPieces(ps) && t == PiecesText(ps, [QUOTE] + ReadString(t).value.1) && Meaning(ps) == ReadString(t).value.0
    decreases |t|
  {
    var end := ReadString(t).value.1;
    if t[0] == QUOTE {
      ps := [];
      assert t == [QUOTE] + t[1..];
    } else {
      var (c, rest) := ReadChar(t).value;
      var more := PiecesOf(rest);
      hide ReadUnicodeEscape;
      if t[0] != BACKSLASH {
        ps := [Plain(t[0])] + more;
        assert t == [t[0]] + t[1..];
        assert ps[1..] == more;
      } else if t[1] != LOWER_U {
        ShortExactly(t[1], c);
        ps := [Short(t[1], c)] + more;
        assert t == [t[0], t[1]] + t[2..];
        assert ps[1..] == more;
      } else {
        ps := EscapedPieces(t, more, end);
      }
    }
  }

  lemma {:induction false} EscapedPieces(t: Text, more: seq<Piece>, end: Text) returns (ps: seq<Piece>)
    requires |t| >= 2 && t[0] == BACKSLASH && t[1] == LOWER_U && ReadChar(t).Some? && LegalPieces(more)
    requires ReadChar(t).value.1 == PiecesText(more, [QUOTE] + end)
    ensures LegalPieces(ps) && t == PiecesText(ps, [QUOTE] + end) && Meaning(ps) == [ReadChar(t).value.0] + Meaning(more)
  {
    EscapeInFront(more, end);
    var first := UnicodePieceOf(t);
    if ReadChar(t).value.1 == t[6..] {
      ps := [first] + more;
      assert !JoinsNext(ps) by { hide ReadUnicodeEscape, PiecesText; }
      hide *;
      FirstPiece(first, more, [QUOTE] + end);
      assert One(first) == ReadChar(t).value.0 by { SingleUnit(t, first); }
    } else {
      var second := UnicodePieceOf(t[6..]);
      ps := PairPieces(t, first, second, more, end);
    }
  }

  lemma {:induction false} SingleUnit(t: Text, p: Piece)
    requires p.Unicode? && LegalPiece(p) && ReadUnicodeEscape(t) == Some(Unit(p.digits))
    requires ReadChar.requires(t) && ReadChar(t).Some? && ReadChar(t).value.1 == t[6..]
    ensures One(p) == ReadChar(t).value.0
  {
  }

  lemma {:induction false} PairRead(t: Text, first: Piece, second: Piece)
    requires first.Unicode? && LegalPiece(first) && second.Unicode? && LegalPiece(second)
    requires ReadUnicodeEscape(t) == Some(Unit(first.digits)) && ReadUnicodeEscape(t[6..]) == Some(Unit(second.digits))
    requires t[0] == BACKSLASH && t[1] == LOWER_U && ReadChar(t).Some? && ReadChar(t).value.1 != t[6..]
    ensures t[6..][6..] == t[12..] == ReadChar(t).value.1 && JoinsNext([first, second])
    ensures IsHigh(Unit(first.digits)) && IsLow(Unit(second.digits))
    ensures ReadChar(t).value.0 == Pair(first.digits, second.digits)
  {
    assert t[6..][6..] == t[12..];
    assert LegalPieces([first, second]);
    hide ReadUnicodeEscape, LegalPiece, Unit;
  }

  lemma {:induction false} PairPieces(t: Text, first: Piece, second: Piece, more: seq<Piece>, end: Text) returns (ps: seq<Piece>)
    requires first.Unicode? && LegalPiece(first) && second.Unicode? && LegalPiece(second) && LegalPieces(more)
    requires ReadUnicodeEscape(t) == Some(Unit(first.digits)) && t == PieceText(first) + t[6..]
    requires ReadUnicodeEscape(t[6..]) == Some(Unit(second.digits)) && t[6..] == PieceText(second) + t[6..][6..]
    requires ReadChar(t).Some? && ReadChar(t).value.1 == PiecesText(more, [QUOTE] + end) != t[6..]
    ensures LegalPieces(ps) && t == PiecesText(ps, [QUOTE] + end) && Meaning(ps) == [ReadChar(t).value.0] + Meaning(more)
  {
    ps := [first, second] + more;
    hide *;
    PairRead(t, first, second);
    assert ps == [first] + ([second] + more);
    FirstPiece(second, more, [QUOTE] + end);
    FirstPiece(first, [second] + more, [QUOTE] + end);
    FirstPair(first, second, more);
  }

  /** The reader accepts exactly the legal string bodies, with their meaning, and leaves what follows the closing quote. */
  lemma {:induction false} StringsExactly(t: Text, s: Text, rest: Text)
    ensures ReadString(t) == Some((s, rest)) <==>
            exists ps :: LegalPieces(ps) && t == PiecesText(ps, [QUOTE] + rest) && s == Meaning(ps)
  {
    if ReadString(t) == Some((s, rest)) { var ps := PiecesOf(t); }
    forall ps | LegalPieces(ps) && t == PiecesText(ps, [QUOTE] + rest) ensures ReadString(t) == Some((Meaning(ps), rest)) {
      ReadsPieces(ps, rest);
    }
  }

  // ---- what the printer writes ----

  /** The shortest form: itself for printable ASCII, a letter where there is one, lower-case digits otherwise. */
  predicate Canonical(p: Piece)
    requires LegalPiece(p)
  {
    match p
    case Plain(c) => c <= 0x7E
    case Short(letter, _) => letter != 47
    case Unicode(hex, digits) =>
      && (Unit(digits) < 0x20 || Unit(digits) > 0x7E)
      && (forall letter :: !StandsFor(letter, Unit(digits)))
      && forall i | 0 <= i < 4 :: hex[i] < 65 || hex[i] >= 97
  }

  predicate AllCanonical(ps: seq<Piece>) {
    LegalPieces(ps) && forall i | 0 <= i < |ps| :: Canonical(ps[i])
  }

  lemma {:induction false} CanonicalUnicode(u: int) returns (p: Piece)
    requires 0 <= u < 0x1_0000 && ShortEscape(u).None? && !(0x20 <= u <= 0x7E)
    ensures LegalPiece(p) && Canonical(p) && PieceText(p) == UnicodeEscape(u)
  {
    var digits: seq<Nibble> := [u / 0x1000, u / 0x100 % 16, u / 16 % 16, u % 16];
    var hex := [HexDigit(digits[0]), HexDigit(digits[1]), HexDigit(digits[2]), HexDigit(digits[3])];
    p := Unicode(hex, digits);
    forall i | 0 <= i < 4 ensures IsHex(hex[i], digits[i]) && (hex[i] < 65 || hex[i] >= 97) { LowerHex(digits[i]); }
    assert Unit(digits) == u by { UnitOf(u); }
    NotShort(u);
    hide IsHex, HexDigit, Unit;
    assert UnicodeEscape(u) == [BACKSLASH, LOWER_U] + hex;
  }

  lemma {:induction false} LowerHex(n: Nibble)
    ensures IsHex(HexDigit(n), n) && (HexDigit(n) < 65 || HexDigit(n) >= 97)
  {
  }

  lemma {:induction false} UnitOf(u: int)
    requires 0 <= u < 0x1_0000
    ensures Unit([u / 0x1000, u / 0x100 % 16, u / 16 % 16, u % 16]) == u
  {
    JoinSplitNibbles(u);
  }

  lemma {:induction false} NotShort(u: int)
    requires 0 <= u < 0x1_0000 && ShortEscape(u).None? && !(0x20 <= u <= 0x7E)
    ensures forall letter :: !StandsFor(letter, u)
  {
  }

  lemma {:induction false} Alone(p: Piece, q: Piece)
    ensures PiecesText([p], []) == PieceText(p) && PiecesText([p, q], []) == PieceText(p) + PieceText(q)
  {
    assert [p][1..] == [] && [p, q][1..] == [q] && [q][1..] == [];
  }

  lemma {:induction false} CanonicalChar(c: CodePoint) returns (ps: seq<Piece>)
    ensures AllCanonical(ps) && PiecesText(ps, []) == EscapeChar(c)
  {
    if ShortEscape(c).Some? || 0x20 <= c <= 0x7E {
      var p := if ShortEscape(c).Some? then Short(ShortEscape(c).value, c) else Plain(c);
      ps := [p];
      Alone(p, p);
      hide PiecesText;
    } else if c < 0x1_0000 {
      var p := CanonicalUnicode(c);
      ps := [p];
      Alone(p, p);
      hide *;
      assert EscapeChar(c) == UnicodeEscape(c) by { EscapedAsUnicode(c); }
      assert AllCanonical(ps) by { AllOf(p, p); }
    } else {
      var u, v := 0xD800 + (c - 0x1_0000) / 0x400, 0xDC00 + (c - 0x1_0000) % 0x400;
      assert ShortEscape(u).None? && ShortEscape(v).None?;
      var high := CanonicalUnicode(u);
      var low := CanonicalUnicode(v);
      ps := [high, low];
      Alone(high, low);
      hide *;
      EscapedAsUnicode(c);
      AllOf(high, low);
    }
  }

  lemma {:induction false} EscapedAsUnicode(c: CodePoint)
    requires ShortEscape(c).None? && !(0x20 <= c <= 0x7E)
    ensures c < 0x1_0000 ==> EscapeChar(c) == UnicodeEscape(c)
    ensures c >= 0x1_0000 ==>
              EscapeChar(c) == UnicodeEscape(0xD800 + (c - 0x1_0000) / 0x400) + UnicodeEscape(0xDC00 + (c - 0x1_0000) % 0x400)
  {
  }

  lemma {:induction false} AllOf(p: Piece, q: Piece)
    requires LegalPiece(p) && Canonical(p) && LegalPiece(q) && Canonical(q)
    ensures AllCanonical([p]) && AllCanonical([p, q])
  {
  }

  lemma {:induction false} PiecesTextConcat(a: seq<Piece>, b: seq<Piece>, rest: Text)
    ensures PiecesText(a + b, rest) == PiecesText(a, []) + PiecesText(b, rest)
  {
    if a == [] {
      assert a + b == b;
    } else {
      assert (a + b)[1..] == a[1..] + b;
      PiecesTextConcat(a[1..], b, rest);
    }
  }

  /** The printer writes a string in its shortest form, and that form means the string. */
  lemma {:induction false} WritesCanonically(s: Text, rest: Text) returns (ps: seq<Piece>)
    ensures AllCanonical(ps) && EscapeAll(s) + rest == PiecesText(ps, rest)
    ensures Paired(s) ==> Meaning(ps) == s
    decreases |s|
  {
    ps := CanonicalPieces(s, rest);
    if Paired(s) {
      var again := CanonicalPieces(s, [QUOTE]);
      StringRoundTrip(s, []);
      ReadsPieces(again, []);
      assert [QUOTE] + [] == [QUOTE];
      ps := again;
      SameRest(s, ps, rest);
    }
  }

  lemma {:induction false} SameRest(s: Text, ps: seq<Piece>, rest: Text)
    requires EscapeAll(s) + [QUOTE] == PiecesText(ps, [QUOTE])
    ensures EscapeAll(s) + rest == PiecesText(ps, rest)
  {
    PiecesTextConcat(ps, [], [QUOTE]);
    PiecesTextConcat(ps, [], rest);
    assert ps + [] == ps;
    assert EscapeAll(s) == (EscapeAll(s) + [QUOTE])[..|EscapeAll(s)|];
    assert PiecesText(ps, []) == (PiecesText(ps, []) + [QUOTE])[..|PiecesText(ps, [])|];
  }

  lemma {:induction false} CanonicalPieces(s: Text, rest: Text) returns (ps: seq<Piece>)
    ensures AllCanonical(ps) && EscapeAll(s) + rest == PiecesText(ps, rest)
    decreases |s|
  {
    if s == [] {
      ps := [];
      assert EscapeAll(s) + rest == rest;
    } else {
      var first := CanonicalChar(s[0]);
      var more := CanonicalPieces(s[1..], rest);
      ps := first + more;
      hide EscapeChar, LegalPiece, Canonical;
      EscapeAllStep(s, rest);
      PiecesTextConcat(first, more, rest);
    }
  }
}
