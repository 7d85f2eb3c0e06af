/**
 Base64 as `base64.b64encode` writes it (section 4 of RFC 4648) and as the non-strict
 `base64.b64decode` reads it: characters outside the alphabet are skipped, and a complete pad ends the input.
 */
module Base64 {
  import opened Text

  type Sextet = v: int | 0 <= v < 64

  const PAD: CodePoint := 61

  function EncodeSextet(v: Sextet): CodePoint {
    if v < 26 then 65 + v
    else if v < 52 then 97 + v - 26
    else if v < 62 then 48 + v - 52
    else if v == 62 then 43 else 47
  }

  function DecodeSextet(c: CodePoint): Option<Sextet> {
    if 65 <= c <= 90 then Some(c - 65)
    else if 97 <= c <= 122 then Some(c - 97 + 26)
    else if 48 <= c <= 57 then Some(c - 48 + 52)
    else if c == 43 then Some(62)
    else if c == 47 then Some(63) else None
  }

  function EncodeTriple(x: Byte, y: Byte, z: Byte): (t: Text)
    ensures |t| == 4
  {
    [EncodeSextet(x / 4), EncodeSextet(x % 4 * 16 + y / 16), EncodeSextet(y % 16 * 4 + z / 64), EncodeSextet(z % 64)]
  }

  function Encode(b: Bytes): Text {
    if |b| == 0 then []
    else if |b| == 1 then [EncodeSextet(b[0] / 4), EncodeSextet(b[0] % 4 * 16), PAD, PAD]
    else if |b| == 2 then
      [EncodeSextet(b[0] / 4), EncodeSextet(b[0] % 4 * 16 + b[1] / 16), EncodeSextet(b[1] % 16 * 4), PAD]
    else EncodeTriple(b[0], b[1], b[2]) + Encode(b[3..])
  }

  /** Position in the current group of four, the bits carried over, and the pads seen since the last data character. */
  datatype Scan = Scan(quad: int, left: int, pads: nat)
  {
    predicate Valid() {
      0 <= quad < 4 && 0 <= left && left < (if quad == 1 then 64 else if quad == 2 then 16 else if quad == 3 then 4 else 1)
    }
  }

  const START: Scan := Scan(0, 0, 0)

  function DecodeFrom(t: Text, s: Scan): Option<Bytes>
    requires s.Valid()
  {
    if t == [] then (if s.quad == 0 then Some([]) else None)
    else if t[0] == PAD then
      if s.quad >= 2 && s.quad + s.pads + 1 >= 4 then Some([])
      else DecodeFrom(t[1..], if s.quad >= 2 then s.(pads := s.pads + 1) else s)
    else match DecodeSextet(t[0])
      case None => DecodeFrom(t[1..], s)
      case Some(v) =>
        if s.quad == 0 then DecodeFrom(t[1..], Scan(1, v, 0))
        else if s.quad == 1 then Emit(s.left * 4 + v / 16, DecodeFrom(t[1..], Scan(2, v % 16, 0)))
        else if s.quad == 2 then Emit(s.left * 16 + v / 4, DecodeFrom(t[1..], Scan(3, v % 4, 0)))
        else Emit(s.left * 64 + v, DecodeFrom(t[1..], START))
  }

  function Emit(b: Byte, rest: Option<Bytes>): Option<Bytes> {
    if rest.None? then None else Some([b] + rest.value)
  }

  function Decode(t: Text): Option<Bytes> {
    DecodeFrom(t, START)
  }

  lemma SextetRoundTrip(v: Sextet)
    ensures DecodeSextet(EncodeSextet(v)) == Some(v) && EncodeSextet(v) != PAD && 43 <= EncodeSextet(v) <= 122
    ensures EncodeSextet(v) != 92
  {
  }

  /** One data character advances the scan and emits what it completes. */
  lemma DecodeDataStep(v: Sextet, t: Text, s: Scan)
    requires s.Valid()
    ensures DecodeFrom([EncodeSextet(v)] + t, s) ==
            if s.quad == 0 then DecodeFrom(t, Scan(1, v, 0))
            else if s.quad == 1 then Emit(s.left * 4 + v / 16, DecodeFrom(t, Scan(2, v % 16, 0)))
            else if s.quad == 2 then Emit(s.left * 16 + v / 4, DecodeFrom(t, Scan(3, v % 4, 0)))
            else Emit(s.left * 64 + v, DecodeFrom(t, START))
  {
    SextetRoundTrip(v);
    assert ([EncodeSextet(v)] + t)[1..] == t;
  }

  lemma TripleText(x: Byte, y: Byte, z: Byte, t: Text)
    ensures EncodeTriple(x, y, z) + t ==
            [EncodeSextet(x / 4)] + ([EncodeSextet(x % 4 * 16 + y / 16)]
                                     + ([EncodeSextet(y % 16 * 4 + z / 64)] + ([EncodeSextet(z % 64)] + t)))
  {
    hide EncodeSextet;
  }

  lemma DecodeTriple(x: Byte, y: Byte, z: Byte, t: Text)
    ensures DecodeFrom(EncodeTriple(x, y, z) + t, START) == Emit(x, Emit(y, Emit(z, DecodeFrom(t, START))))
  {
    var a, b, c, d := x / 4, x % 4 * 16 + y / 16, y % 16 * 4 + z / 64, z % 64;
    var t3 := [EncodeSextet(d)] + t;
    var t2 := [EncodeSextet(c)] + t3;
    var t1 := [EncodeSextet(b)] + t2;
    TripleText(x, y, z, t);
    hide DecodeFrom, EncodeSextet, EncodeTriple;
    DecodeDataStep(a, t1, START);
    DecodeDataStep(b, t2, Scan(1, a, 0));
    assert b % 16 == y / 16 && b / 16 == x % 4;
    DecodeDataStep(c, t3, Scan(2, y / 16, 0));
    assert c % 4 == z / 64 && c / 4 == y % 16;
    DecodeDataStep(d, t, Scan(3, z / 64, 0));
  }

  lemma DecodeOneByteTail(x: Byte)
    ensures DecodeFrom([EncodeSextet(x / 4), EncodeSextet(x % 4 * 16), PAD, PAD], START) == Some([x])
  {
    var a, c := x / 4, x % 4 * 16;
    assert [EncodeSextet(a), EncodeSextet(c), PAD, PAD] == [EncodeSextet(a)] + ([EncodeSextet(c)] + [PAD, PAD]);
    DecodeDataStep(a, [EncodeSextet(c)] + [PAD, PAD], START);
    DecodeDataStep(c, [PAD, PAD], Scan(1, a, 0));
    assert [PAD, PAD][1..] == [PAD];
    assert DecodeFrom([PAD, PAD], Scan(2, c % 16, 0)) == DecodeFrom([PAD], Scan(2, 0, 1)) == Some([]);
    assert [x] + [] == [x];
  }

  lemma DecodeTwoByteTail(x: Byte, y: Byte)
    ensures DecodeFrom([EncodeSextet(x / 4), EncodeSextet(x % 4 * 16 + y / 16), EncodeSextet(y % 16 * 4), PAD], START)
         == Some([x, y])
  {
    var a, c, d := x / 4, x % 4 * 16 + y / 16, y % 16 * 4;
    assert [EncodeSextet(a), EncodeSextet(c), EncodeSextet(d), PAD]
        == [EncodeSextet(a)] + ([EncodeSextet(c)] + ([EncodeSextet(d)] + [PAD]));
    DecodeDataStep(a, [EncodeSextet(c)] + ([EncodeSextet(d)] + [PAD]), START);
    DecodeDataStep(c, [EncodeSextet(d)] + [PAD], Scan(1, a, 0));
    DecodeDataStep(d, [PAD], Scan(2, y / 16, 0));
    assert [x] + ([y] + []) == [x, y];
  }

  /** Decoding undoes encoding, for every byte string. */
  lemma {:induction false} RoundTrip(b: Bytes)
    ensures Decode(Encode(b)) == Some(b)
  {
    if |b| == 0 {
    } else if |b| == 1 {
      DecodeOneByteTail(b[0]);
      assert b == [b[0]];
    } else if |b| == 2 {
      DecodeTwoByteTail(b[0], b[1]);
      assert b == [b[0], b[1]];
    } else {
      RoundTrip(b[3..]);
      DecodeTriple(b[0], b[1], b[2], Encode(b[3..]));
      assert [b[0]] + ([b[1]] + ([b[2]] + b[3..])) == b;
    }
  }

  /** Four characters for every started group of three bytes, all of them printable ASCII without quote or backslash. */
  lemma {:induction false} EncodeShape(b: Bytes)
    ensures |Encode(b)| == (|b| + 2) / 3 * 4
    ensures forall i | 0 <= i < |Encode(b)| :: 43 <= Encode(b)[i] <= 122 && Encode(b)[i] != 92
  {
    forall v: Sextet ensures 43 <= EncodeSextet(v) <= 122 && EncodeSextet(v) != 92 { SextetRoundTrip(v); }
    hide EncodeSextet;
    if |b| >= 3 {
      EncodeShape(b[3..]);
      assert (|b| + 2) / 3 == 1 + (|b[3..]| + 2) / 3;
    }
  }

  /** Encoding distributes over a split at a multiple of three bytes. */
  lemma {:induction false} EncodeConcat(a: Bytes, b: Bytes)
    requires |a| % 3 == 0
    ensures Encode(a + b) == Encode(a) + Encode(b)
  {
    if |a| == 0 {
      assert a + b == b;
    } else {
      EncodeConcat(a[3..], b);
      assert (a + b)[3..] == a[3..] + b;
      assert EncodeTriple(a[0], a[1], a[2]) + (Encode(a[3..]) + Encode(b))
          == EncodeTriple(a[0], a[1], a[2]) + Encode(a[3..]) + Encode(b);
    }
  }

  // ---- what a text decodes to, stated without the scan ----

  /** Table 1 of RFC 4648: `A` to `Z`, `a` to `z`, `0` to `9`, `+` and `/`. */
  predicate StandsFor(c: CodePoint, v: Sextet) {
    || (65 <= c <= 90 && v == c - 65) || (97 <= c <= 122 && v == c - 71) || (48 <= c <= 57 && v == c + 4)
    || (c == 43 && v == 62) || (c == 47 && v == 63)
  }

  lemma {:induction false} AlphabetExactly(c: CodePoint, v: Sextet)
    ensures DecodeSextet(c) == Some(v) <==> StandsFor(c, v)
    ensures EncodeSextet(v) == c <==> StandsFor(c, v)
  {
  }

  /** The values of the alphabet's characters in a text; all others are passed over. */
  function Values(t: Text): seq<Sextet> {
    if t == [] then []
    else if DecodeSextet(t[0]).Some? then [DecodeSextet(t[0]).value] + Values(t[1..]) else Values(t[1..])
  }

  /** A pad with no character of the alphabet after it. */
  ghost predicate PadPending(t: Text) {
    exists q | 0 <= q < |t| :: t[q] == PAD && Values(t[q..]) == []
  }

  /** The pad at `p` completes the padding of a group: one after three characters, or the second after two. */
  ghost predicate Completes(t: Text, p: nat) {
    && p < |t| && t[p] == PAD
    && (|Values(t[..p])| % 4 == 3 || (|Values(t[..p])| % 4 == 2 && PadPending(t[..p])))
  }

  /** Where the input ends: at the first pad that completes its group, or else with the text. */
  ghost predicate EndsAt(t: Text, p: nat) {
    p <= |t| && (p < |t| ==> Completes(t, p)) && forall q | 0 <= q < p :: !Completes(t, q)
  }

  /** The three bytes of a group: 6 + 2, 4 + 4 and 2 + 6 bits. */
  function High(x: Sextet, y: Sextet): Byte { x as int * 4 + y / 16 }
  function Middle(x: Sextet, y: Sextet): Byte { x as int % 16 * 16 + y / 4 }
  function Low(x: Sextet, y: Sextet): Byte { x as int % 4 * 64 + y as int }

  /** Byte `i` takes its bits from values `x`, at `i / 3 * 4 + i % 3`, and the one after it. */
  predicate ByteFrom(vs: seq<Sextet>, i: nat, b: Byte) {
    var x := i / 3 * 4 + i % 3;
    && x + 1 < |vs|
    && b == if i % 3 == 0 then High(vs[x], vs[x + 1]) else if i % 3 == 1 then Middle(vs[x], vs[x + 1]) else Low(vs[x], vs[x + 1])
  }

  /** Three bytes for every four values, and one or two for what is left of a group. */
  ghost predicate Packs(vs: seq<Sextet>, b: Bytes) {
    |b| == |vs| * 3 / 4 && forall i | 0 <= i < |b| :: ByteFrom(vs, i, b[i])
  }

  /** The bytes a text stands for: those its values pack into up to its end, which must complete a group. */
  ghost predicate Denotes(t: Text, b: Bytes) {
    exists p: nat :: EndsAt(t, p) && (p == |t| ==> |Values(t)| % 4 == 0) && Packs(Values(t[..p]), b)
  }

  function Pack(vs: seq<Sextet>): Bytes {
    if |vs| < 2 then []
    else if |vs| == 2 then [High(vs[0], vs[1])]
    else if |vs| == 3 then [High(vs[0], vs[1]), Middle(vs[1], vs[2])]
    else [High(vs[0], vs[1]), Middle(vs[1], vs[2]), Low(vs[2], vs[3])] + Pack(vs[4..])
  }

  lemma {:induction false} PackPacks(vs: seq<Sextet>)
    ensures Packs(vs, Pack(vs))
  {
    hide High, Middle, Low;
    if |vs| >= 4 {
      PackPacks(vs[4..]);
      var b, rest := Pack(vs), Pack(vs[4..]);
      forall i | 0 <= i < |b| ensures ByteFrom(vs, i, b[i]) {
        if i >= 3 { NextGroup(vs, i, rest[i - 3]); }
      }
    }
  }

  lemma {:induction false} NextGroup(vs: seq<Sextet>, i: nat, b: Byte)
    requires |vs| >= 4 && i >= 3 && ByteFrom(vs[4..], i - 3, b)
    ensures ByteFrom(vs, i, b)
  {
    hide High, Middle, Low;
    assert (i - 3) / 3 == i / 3 - 1 && (i - 3) % 3 == i % 3;
  }

  lemma {:induction false} PackIsOnly(vs: seq<Sextet>, b: Bytes)
    requires Packs(vs, b)
    ensures b == Pack(vs)
  {
    PackPacks(vs);
    var c := Pack(vs);
    assert |b| == |c|;
    forall i | 0 <= i < |b| ensures b[i] == c[i] {}
  }

  /** What one more value adds. */
  function Added(vs: seq<Sextet>, v: Sextet): Bytes {
    var r := |vs| % 4;
    if r == 0 then []
    else
      var last := vs[|vs| - 1];
      if r == 1 then [High(last, v)] else if r == 2 then [Middle(last, v)] else [Low(last, v)]
  }

  lemma {:induction false} PackOneMore(vs: seq<Sextet>, v: Sextet)
    ensures Pack(vs + [v]) == Pack(vs) + Added(vs, v)
  {
    hide High, Middle, Low;
    if |vs| >= 4 {
      assert (vs + [v])[4..] == vs[4..] + [v];
      PackOneMore(vs[4..], v);
      assert |vs[4..]| % 4 == |vs| % 4;
    }
  }

  lemma {:induction false} ValuesConcat(a: Text, b: Text)
    ensures Values(a + b) == Values(a) + Values(b)
  {
    if a == [] {
      assert a + b == b;
    } else {
      assert (a + b)[1..] == a[1..] + b;
      ValuesConcat(a[1..], b);
    }
  }

  lemma {:induction false} ValuesOfOne(c: CodePoint)
    ensures Values([c]) == if DecodeSextet(c).Some? then [DecodeSextet(c).value] else []
    ensures DecodeSextet(PAD).None?
  {
    assert [c][1..] == [];
  }

  /** The scan's state after `done`. */
  ghost predicate Tracks(done: Text, s: Scan) {
    var vs := Values(done);
    && s.Valid() && s.quad == |vs| % 4
    && (s.quad > 0 ==> s.left == vs[|vs| - 1] % (if s.quad == 1 then 64 else if s.quad == 2 then 16 else 4))
    && (s.quad == 2 ==> (s.pads > 0 <==> PadPending(done)))
  }

  lemma {:induction false} PendingAfter(done: Text, c: CodePoint)
    ensures PadPending(done + [c]) <==> DecodeSextet(c).None? && (c == PAD || PadPending(done))
  {
    var t := done + [c];
    ValuesOfOne(c);
    forall q | 0 <= q < |done| ensures Values(t[q..]) == Values(done[q..]) + Values([c]) {
      ValuesConcat(done[q..], [c]);
      assert t[q..] == done[q..] + [c];
    }
    assert t[|done|..] == [c];
    if DecodeSextet(c).None? && c == PAD { assert t[|done|] == PAD && Values(t[|done|..]) == []; }
    if DecodeSextet(c).None? && PadPending(done) {
      var q :| 0 <= q < |done| && done[q] == PAD && Values(done[q..]) == [];
      assert t[q] == PAD && Values(t[q..]) == [];
    }
  }

  lemma {:induction false} TracksData(done: Text, c: CodePoint, s: Scan)
    requires Tracks(done, s) && DecodeSextet(c).Some?
    ensures Tracks(done + [c], Advance(s, DecodeSextet(c).value))
    ensures Values(done + [c]) == Values(done) + [DecodeSextet(c).value]
    ensures Added(Values(done), DecodeSextet(c).value) == Emitted(s, DecodeSextet(c).value)
  {
    ValuesConcat(done, [c]);
    ValuesOfOne(c);
    PendingAfter(done, c);
    hide DecodeSextet;
  }

  lemma {:induction false} TracksOther(done: Text, c: CodePoint, s: Scan)
    requires Tracks(done, s) && DecodeSextet(c).None? && (c == PAD ==> s.quad < 2 || s.quad + s.pads + 1 < 4)
    ensures Tracks(done + [c], if c == PAD && s.quad >= 2 then s.(pads := s.pads + 1) else s)
    ensures Values(done + [c]) == Values(done)
  {
    ValuesConcat(done, [c]);
    ValuesOfOne(c);
    PendingAfter(done, c);
    assert Values(done) + [] == Values(done);
    hide DecodeSextet;
  }

  /** A character of the alphabet moves the scan on and completes a byte, except at the start of a group. */
  function Advance(s: Scan, v: Sextet): Scan
    requires s.Valid()
  {
    if s.quad == 0 then Scan(1, v, 0) else if s.quad == 1 then Scan(2, v % 16, 0)
    else if s.quad == 2 then Scan(3, v % 4, 0) else START
  }

  function Emitted(s: Scan, v: Sextet): Bytes
    requires s.Valid()
  {
    if s.quad == 0 then [] else if s.quad == 1 then [s.left * 4 + v / 16]
    else if s.quad == 2 then [s.left * 16 + v / 4] else [s.left * 64 + v]
  }

  lemma {:induction false} DataStep(t: Text, s: Scan)
    requires s.Valid() && t != [] && DecodeSextet(t[0]).Some?
    ensures var v := DecodeSextet(t[0]).value;
            && Advance(s, v).Valid()
            && DecodeFrom(t, s) == match DecodeFrom(t[1..], Advance(s, v))
                                   case None => None
                                   case Some(b) => Some(Emitted(s, v) + b)
  {
    ValuesOfOne(t[0]);
    var rest := DecodeFrom(t[1..], Advance(s, DecodeSextet(t[0]).value));
    if rest.Some? { assert [] + rest.value == rest.value; }
  }

  lemma {:induction false} PadCompletes(done: Text, t: Text, s: Scan)
    requires Tracks(done, s) && t != []
    ensures Completes(done + t, |done|) <==> t[0] == PAD && s.quad >= 2 && s.quad + s.pads + 1 >= 4
  {
    assert (done + t)[..|done|] == done;
    hide Values;
  }

  /** From a scan that tracks what was read so far, the rest is decoded up to where the whole text ends. */
  lemma {:induction false} DecodesFrom(done: Text, t: Text, s: Scan) returns (p: nat)
    requires Tracks(done, s) && forall q | 0 <= q < |done| :: !Completes(done + t, q)
    ensures |done| <= p && EndsAt(done + t, p)
    ensures DecodeFrom(t, s).None? <==> p == |done + t| && |Values(done + t)| % 4 != 0
    ensures DecodeFrom(t, s).Some? ==>
              Pack(Values((done + t)[..p])) == Pack(Values(done)) + DecodeFrom(t, s).value
    decreases |t|
  {
    hide Completes, Values, Pack, DecodeSextet, PadPending;
    if t == [] {
      p := |done|;
      assert done + t == done && done[..|done|] == done;
      assert Pack(Values(done)) + [] == Pack(Values(done));
    } else {
      PadCompletes(done, t, s);
      if t[0] == PAD && s.quad >= 2 && s.quad + s.pads + 1 >= 4 {
        p := |done|;
        assert (done + t)[..|done|] == done;
        assert Pack(Values(done)) + [] == Pack(Values(done));
      } else {
        var c := t[0];
        assert done + [c] + t[1..] == done + t;
        forall q | 0 <= q < |done + [c]| ensures !Completes(done + [c] + t[1..], q) {}
        if DecodeSextet(c).Some? {
          var v := DecodeSextet(c).value;
          DataStep(t, s);
          TracksData(done, c, s);
          PackOneMore(Values(done), v);
          p := DecodesFrom(done + [c], t[1..], Advance(s, v));
          hide DecodeFrom;
        } else {
          TracksOther(done, c, s);
          p := DecodesFrom(done + [c], t[1..], if c == PAD && s.quad >= 2 then s.(pads := s.pads + 1) else s);
        }
      }
    }
  }

  /**
   The decoder reads a text as what it stands for: what is outside the alphabet is passed over, the first complete padding
   ends the input, and without one the text must end with a group.
   */
  lemma {:induction false} DecodeExactly(t: Text, b: Bytes)
    ensures Decode(t) == Some(b) <==> Denotes(t, b)
  {
    assert Tracks([], START);
    var p := DecodesFrom([], t, START);
    assert [] + t == t;
    if Decode(t).Some? { assert Pack(Values([])) + Decode(t).value == Decode(t).value; }
    hide Values, DecodeFrom, Completes, Pack;
    PackPacks(Values(t[..p]));
    if Denotes(t, b) {
      var q: nat :| EndsAt(t, q) && (q == |t| ==> |Values(t)| % 4 == 0) && Packs(Values(t[..q]), b);
      assert q == p;
      PackIsOnly(Values(t[..p]), b);
    }
  }
}
