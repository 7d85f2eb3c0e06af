/**
 `application/vnd.amazon.eventstream`: length-prefixed frames guarded by two CRCs, and the decoder that turns a body
 of frames into server-sent-events lines. The CRC is a parameter, and so is how floats are printed.
 */
module EventStream {
  import opened Text
  import opened SseLine
  import Json

  type Word = w: int | 0 <= w < 0x1_0000_0000
  type Crc = Bytes -> Word

  datatype Frame = Frame(headers: Bytes, payload: Bytes)
  {
    predicate Encodable() { |headers| + |payload| + 16 < 0x1_0000_0000 }
  }

  // ---- big-endian words ----

  function Be32(w: Word): (b: Bytes)
    ensures |b| == 4
  {
    [w / 0x100 / 0x100 / 0x100, w / 0x100 / 0x100 % 0x100, w / 0x100 % 0x100, w % 0x100]
  }

  function FromBe32(b: Bytes): Word
    requires |b| == 4
  {
    var a: int, c: int, d: int, e: int := b[0], b[1], b[2], b[3];
    ((a * 0x100 + c) * 0x100 + d) * 0x100 + e
  }

  lemma FromBe32OfBe32(w: Word)
    ensures FromBe32(Be32(w)) == w
  {
  }

  lemma Be32OfFromBe32(b: Bytes)
    requires |b| == 4
    ensures Be32(FromBe32(b)) == b
  {
    var a: int, c: int, d: int := b[0], b[1], b[2];
    var w := FromBe32(b);
    assert w / 0x100 == (a * 0x100 + c) * 0x100 + d && w % 0x100 == b[3];
    assert w / 0x100 / 0x100 == a * 0x100 + c && w / 0x100 % 0x100 == d;
  }

  // ---- frames on the wire ----

  /** Total length and header length, the CRC of those eight bytes, headers, payload, and the CRC of all before it. */
  function Head(f: Frame): (b: Bytes)
    requires f.Encodable()
    ensures |b| == 8
  {
    Be32(|f.headers| + |f.payload| + 16) + Be32(|f.headers|)
  }

  function Guarded(crc: Crc, f: Frame): (b: Bytes)
    requires f.Encodable()
    ensures |b| == |f.headers| + |f.payload| + 12
  {
    Head(f) + Be32(crc(Head(f))) + f.headers + f.payload
  }

  function Wire(crc: Crc, f: Frame): (b: Bytes)
    requires f.Encodable()
    ensures |b| == |f.headers| + |f.payload| + 16
  {
    Guarded(crc, f) + Be32(crc(Guarded(crc, f)))
  }

  function WireAll(crc: Crc, fs: seq<Frame>): Bytes
    requires forall i | 0 <= i < |fs| :: fs[i].Encodable()
  {
    if fs == [] then [] else Wire(crc, fs[0]) + WireAll(crc, fs[1..])
  }

  /** What a buffer holding `b` yields next: nothing yet, a parse error, or a frame. */
  datatype Next = Incomplete | Corrupt | Complete(frame: Frame)

  function NextFrame(crc: Crc, b: Bytes): (r: Next)
    ensures r.Complete? ==> r.frame.Encodable() && |Wire(crc, r.frame)| <= |b|
  {
    if |b| < 12 then Incomplete
    else
      var total, headers := FromBe32(b[..4]), FromBe32(b[4..8]);
      if FromBe32(b[8..12]) != crc(b[..8]) then Corrupt
      else if total < headers + 16 then Corrupt
      else if |b| < total then Incomplete
      else if FromBe32(b[total - 4..total]) != crc(b[..total - 4]) then Corrupt
      else Complete(Frame(b[12..12 + headers], b[12 + headers..total - 4]))
  }

  /** A buffer that starts with a frame yields it. */
  lemma NextOfWire(crc: Crc, f: Frame, rest: Bytes)
    requires f.Encodable()
    ensures NextFrame(crc, Wire(crc, f) + rest) == Complete(f)
  {
    var b := Wire(crc, f) + rest;
    var total := |Wire(crc, f)|;
    assert b[..4] == Be32(total) && b[4..8] == Be32(|f.headers|) && b[..8] == Head(f);
    assert b[8..12] == Be32(crc(Head(f)));
    assert b[..total - 4] == Guarded(crc, f) && b[total - 4..total] == Be32(crc(Guarded(crc, f)));
    assert b[12..12 + |f.headers|] == f.headers && b[12 + |f.headers|..total - 4] == f.payload;
    FromBe32OfBe32(total);
    FromBe32OfBe32(|f.headers|);
    FromBe32OfBe32(crc(Head(f)));
    FromBe32OfBe32(crc(Guarded(crc, f)));
  }

  /** A frame that is yielded is what the buffer starts with. */
  lemma WireOfNext(crc: Crc, b: Bytes)
    requires NextFrame(crc, b).Complete?
    ensures Wire(crc, NextFrame(crc, b).frame) <= b
  {
    var f := NextFrame(crc, b).frame;
    var total := FromBe32(b[..4]);
    Be32OfFromBe32(b[..4]);
    Be32OfFromBe32(b[4..8]);
    Be32OfFromBe32(b[8..12]);
    Be32OfFromBe32(b[total - 4..total]);
    assert Head(f) == b[..8];
    assert Guarded(crc, f) == b[..total - 4];
    assert Wire(crc, f) == b[..total];
  }

  lemma FrameFits(crc: Crc, f: Frame, b: Bytes)
    requires f.Encodable() && Wire(crc, f) <= b
    ensures NextFrame(crc, b) == Complete(f)
  {
    hide *;
    NextOfWire(crc, f, b[|Wire(crc, f)|..]);
    assert b == Wire(crc, f) + b[|Wire(crc, f)|..];
  }

  lemma NoFrameFits(crc: Crc, b: Bytes)
    requires !NextFrame(crc, b).Complete?
    ensures forall f: Frame | f.Encodable() :: !(Wire(crc, f) <= b)
  {
    hide *;
    forall f: Frame | f.Encodable() ensures !(Wire(crc, f) <= b) {
      if Wire(crc, f) <= b { FrameFits(crc, f, b); }
    }
  }

  /** The prelude of a frame. */
  lemma PreludeOfWire(crc: Crc, f: Frame)
    requires f.Encodable()
    ensures var w := Wire(crc, f);
            && w[..4] == Be32(|w|) && w[4..8] == Be32(|f.headers|) && w[..8] == Head(f) && w[8..12] == Be32(crc(Head(f)))
  {
    var rest := f.headers + f.payload + Be32(crc(Guarded(crc, f)));
    assert Wire(crc, f) == Head(f) + Be32(crc(Head(f))) + rest;
  }

  /** The layout: two lengths, most significant byte first, a CRC of them, headers, payload, and a CRC of all before it. */
  lemma {:induction false} WireLayout(crc: Crc, f: Frame)
    requires f.Encodable()
    ensures var w, h := Wire(crc, f), |f.headers|;
            && IsWord(w[..4], |w|) && IsWord(w[4..8], h) && IsWord(w[8..12], crc(w[..8]))
            && w[12..12 + h] == f.headers && w[12 + h..|w| - 4] == f.payload && IsWord(w[|w| - 4..], crc(w[..|w| - 4]))
  {
    var w, h := Wire(crc, f), |f.headers|;
    PreludeOfWire(crc, f);
    assert w[..|w| - 4] == Guarded(crc, f) && w[|w| - 4..] == Be32(crc(Guarded(crc, f)));
    assert w[12..12 + h] == f.headers && w[12 + h..|w| - 4] == f.payload;
    WordOfBe32(|w|);
    WordOfBe32(h);
    WordOfBe32(crc(Head(f)));
    WordOfBe32(crc(Guarded(crc, f)));
    hide Wire, Guarded, Head, Be32, IsWord;
  }

  /** Four bytes that stand for a number, most significant first. */
  predicate IsWord(b: Bytes, w: int) {
    |b| == 4 && w == b[0] as int * 0x100_0000 + b[1] as int * 0x1_0000 + b[2] as int * 0x100 + b[3] as int
  }

  lemma {:induction false} WordOfBe32(w: Word)
    ensures IsWord(Be32(w), w)
  {
    assert w / 0x100 / 0x100 / 0x100 * 0x100 + w / 0x100 / 0x100 % 0x100 == w / 0x100 / 0x100;
  }

  lemma SliceOfPrefix(w: Bytes, cut: nat, i: nat, j: nat)
    requires i <= j <= cut <= |w|
    ensures w[..cut][i..j] == w[i..j]
  {
  }

  /** A strict prefix of a frame is never mistaken for a corrupt one. */
  lemma NextOfStrictPrefix(crc: Crc, f: Frame, cut: nat)
    requires f.Encodable() && cut < |Wire(crc, f)|
    ensures NextFrame(crc, Wire(crc, f)[..cut]) == Incomplete
  {
    if cut >= 12 {
      var w := Wire(crc, f);
      PreludeOfWire(crc, f);
      SliceOfPrefix(w, cut, 0, 4);
      SliceOfPrefix(w, cut, 4, 8);
      SliceOfPrefix(w, cut, 0, 8);
      SliceOfPrefix(w, cut, 8, 12);
      FromBe32OfBe32(|w|);
      FromBe32OfBe32(|f.headers|);
      FromBe32OfBe32(crc(Head(f)));
      hide Wire, Head, Be32, FromBe32;
    }
  }

  /** `b` holds the prelude of `f` but not all of it. */
  ghost predicate CutsShort(crc: Crc, b: Bytes, f: Frame) {
    f.Encodable() && 12 <= |b| < |Wire(crc, f)| && b[..12] == Wire(crc, f)[..12]
  }

  lemma {:induction false} CutIsIncomplete(crc: Crc, b: Bytes, f: Frame)
    requires CutsShort(crc, b, f)
    ensures NextFrame(crc, b).Incomplete?
  {
    var w := Wire(crc, f);
    PreludeOfWire(crc, f);
    SliceOfPrefix(w, 12, 0, 4);
    SliceOfPrefix(w, 12, 4, 8);
    SliceOfPrefix(w, 12, 0, 8);
    SliceOfPrefix(w, 12, 8, 12);
    SliceOfPrefix(b, 12, 0, 4);
    SliceOfPrefix(b, 12, 4, 8);
    SliceOfPrefix(b, 12, 0, 8);
    SliceOfPrefix(b, 12, 8, 12);
    FromBe32OfBe32(|w|);
    FromBe32OfBe32(|f.headers|);
    FromBe32OfBe32(crc(Head(f)));
    hide Wire, Head, Be32, FromBe32;
  }

  lemma {:induction false} IncompleteIsCut(crc: Crc, b: Bytes) returns (f: Frame)
    requires |b| >= 12 && NextFrame(crc, b).Incomplete?
    ensures CutsShort(crc, b, f)
  {
    var total, headers := FromBe32(b[..4]), FromBe32(b[4..8]);
    f := Frame(seq(headers, _ => 0), seq(total - headers - 16, _ => 0));
    Be32OfFromBe32(b[..4]);
    Be32OfFromBe32(b[4..8]);
    Be32OfFromBe32(b[8..12]);
    PreludeOfWire(crc, f);
    var w := Wire(crc, f);
    hide Wire, Be32, FromBe32;
    assert Head(f) == b[..8];
    assert w[..12] == w[..8] + w[8..12] && b[..12] == b[..8] + b[8..12];
  }

  /**
   How any bytes are classified: as a frame if they start with one, as incomplete if they are fewer than twelve or the
   prelude of a longer frame, and as corrupt otherwise.
   */
  lemma {:induction false} ClassifiedExactly(crc: Crc, b: Bytes)
    ensures NextFrame(crc, b).Complete? <==> exists f: Frame :: f.Encodable() && Wire(crc, f) <= b
    ensures NextFrame(crc, b).Incomplete? <==> |b| < 12 || exists f :: CutsShort(crc, b, f)
  {
    if NextFrame(crc, b).Complete? { WireOfNext(crc, b); } else { NoFrameFits(crc, b); }
    if |b| < 12 {
      TooFewBytes(crc, b);
    } else if NextFrame(crc, b).Incomplete? {
      var f := IncompleteIsCut(crc, b);
    }
    hide NextFrame, Wire, CutsShort;
    forall f | CutsShort(crc, b, f) ensures NextFrame(crc, b).Incomplete? { CutIsIncomplete(crc, b, f); }
  }

  lemma {:induction false} TooFewBytes(crc: Crc, b: Bytes)
    requires |b| < 12
    ensures NextFrame(crc, b).Incomplete?
  {
  }

  // ---- the decoder's result, and what determines it ----

  /** The lines of the usable messages, in order. */
  function UsableLines(repr: Json.Repr, fs: seq<Frame>): seq<Text> {
    if fs == [] then []
    else match PayloadToSseLine(repr, fs[0].payload)
      case None => UsableLines(repr, fs[1..])
      case Some(line) => [line] + UsableLines(repr, fs[1..])
  }

  function Concat(ls: seq<Text>): Text {
    if ls == [] then [] else ls[0] + Concat(ls[1..])
  }

  /** `fs` is the longest run of frames at the front of `b`, and `rest` is what no further frame starts. */
  ghost predicate IsLongestRun(crc: Crc, b: Bytes, fs: seq<Frame>, rest: Bytes) {
    && (forall i | 0 <= i < |fs| :: fs[i].Encodable())
    && b == WireAll(crc, fs) + rest
    && forall f: Frame | f.Encodable() :: !(Wire(crc, f) <= rest)
  }

  function LeadingFrames(crc: Crc, b: Bytes): (fs: seq<Frame>)
    ensures forall i | 0 <= i < |fs| :: fs[i].Encodable()
    decreases |b|
  {
    match NextFrame(crc, b)
    case Complete(f) => [f] + LeadingFrames(crc, b[|Wire(crc, f)|..])
    case _ => []
  }

  function Remainder(crc: Crc, b: Bytes): Bytes
    decreases |b|
  {
    match NextFrame(crc, b)
    case Complete(f) => Remainder(crc, b[|Wire(crc, f)|..])
    case _ => b
  }

  /** The outcome for a run of frames `fs` followed by `rest`. */
  function Outcome(crc: Crc, repr: Json.Repr, fs: seq<Frame>, rest: Bytes): Option<Text> {
    if fs == [] || (rest != [] && NextFrame(crc, rest).Incomplete?) then None
    else Some(Concat(UsableLines(repr, fs)))
  }

  lemma EmptyRun(crc: Crc, b: Bytes)
    requires !NextFrame(crc, b).Complete?
    ensures IsLongestRun(crc, b, [], b)
  {
    hide NextFrame, Wire;
    NoFrameFits(crc, b);
  }

  lemma PrependToRun(crc: Crc, f: Frame, tail: Bytes, fs: seq<Frame>, rest: Bytes)
    requires f.Encodable() && IsLongestRun(crc, tail, fs, rest)
    ensures IsLongestRun(crc, Wire(crc, f) + tail, [f] + fs, rest)
  {
    hide Wire;
    assert ([f] + fs)[1..] == fs;
    assert Wire(crc, f) + (WireAll(crc, fs) + rest) == Wire(crc, f) + WireAll(crc, fs) + rest;
  }

  lemma {:induction false} LeadingFramesAreLongest(crc: Crc, b: Bytes)
    ensures IsLongestRun(crc, b, LeadingFrames(crc, b), Remainder(crc, b))
    decreases |b|
  {
    hide NextFrame, Wire, WireAll, IsLongestRun;
    match NextFrame(crc, b)
    case Complete(f) =>
      WireOfNext(crc, b);
      var tail := b[|Wire(crc, f)|..];
      LeadingFramesAreLongest(crc, tail);
      PrependToRun(crc, f, tail, LeadingFrames(crc, tail), Remainder(crc, tail));
      assert b == Wire(crc, f) + tail;
    case _ => EmptyRun(crc, b);
  }

  /** The longest run is unique, for arbitrary bytes. */
  lemma {:induction false} LongestRunUnique(crc: Crc, b: Bytes, fs: seq<Frame>, rest: Bytes)
    requires IsLongestRun(crc, b, fs, rest)
    ensures fs == LeadingFrames(crc, b) && rest == Remainder(crc, b)
    decreases |fs|
  {
    hide NextFrame, Wire;
    if fs == [] {
      assert b == rest;
      if NextFrame(crc, b).Complete? { WireOfNext(crc, b); }
    } else {
      var tail := WireAll(crc, fs[1..]) + rest;
      assert b == Wire(crc, fs[0]) + tail;
      NextOfWire(crc, fs[0], tail);
      assert b[|Wire(crc, fs[0])|..] == tail;
      LongestRunUnique(crc, tail, fs[1..], rest);
    }
  }

  lemma UsableLinesAppend(repr: Json.Repr, fs: seq<Frame>, f: Frame)
    ensures UsableLines(repr, fs + [f]) ==
            match PayloadToSseLine(repr, f.payload)
            case None => UsableLines(repr, fs)
            case Some(line) => UsableLines(repr, fs) + [line]
  {
    hide PayloadToSseLine;
    if fs == [] {
      assert fs + [f] == [f];
    } else {
      assert (fs + [f])[1..] == fs[1..] + [f];
      UsableLinesAppend(repr, fs[1..], f);
    }
  }

  /** What the decoder computes, as a function of the body. */
  function Decoded(crc: Crc, repr: Json.Repr, body: Bytes): Option<Text> {
    Outcome(crc, repr, LeadingFrames(crc, body), Remainder(crc, body))
  }

  /** One more frame has been taken off the front. */
  lemma LoopStep(crc: Crc, body: Bytes, consumed: nat, parsed: seq<Frame>, f: Frame)
    requires consumed <= |body| && NextFrame(crc, body[consumed..]) == Complete(f)
    requires LeadingFrames(crc, body) == parsed + LeadingFrames(crc, body[consumed..])
    requires Remainder(crc, body) == Remainder(crc, body[consumed..])
    ensures var after := consumed + |f.headers| + |f.payload| + 16;
            && after <= |body|
            && LeadingFrames(crc, body) == parsed + [f] + LeadingFrames(crc, body[after..])
            && Remainder(crc, body) == Remainder(crc, body[after..])
  {
    hide *;
    var tail := body[consumed + |f.headers| + |f.payload| + 16..];
    FirstFrame(crc, body[consumed..], f);
    assert body[consumed..][|Wire(crc, f)|..] == tail;
    assert parsed + ([f] + LeadingFrames(crc, tail)) == parsed + [f] + LeadingFrames(crc, tail);
  }

  lemma FirstFrame(crc: Crc, b: Bytes, f: Frame)
    requires NextFrame(crc, b) == Complete(f)
    ensures LeadingFrames(crc, b) == [f] + LeadingFrames(crc, b[|Wire(crc, f)|..])
    ensures Remainder(crc, b) == Remainder(crc, b[|Wire(crc, f)|..])
  {
  }

  lemma LoopEnd(crc: Crc, repr: Json.Repr, body: Bytes, parsed: seq<Frame>, rest: Bytes)
    requires !NextFrame(crc, rest).Complete?
    requires LeadingFrames(crc, body) == parsed + LeadingFrames(crc, rest) && Remainder(crc, body) == Remainder(crc, rest)
    ensures Decoded(crc, repr, body) == Outcome(crc, repr, parsed, rest)
  {
    hide NextFrame, Outcome;
    assert parsed + [] == parsed;
  }

  /** The decoder's loop: one frame per turn, each consuming at least sixteen bytes. */
  method ParseEventStream(crc: Crc, repr: Json.Repr, body: Bytes) returns (sse: Option<Text>)
    ensures sse == Decoded(crc, repr, body)
  {
    hide Wire, NextFrame, LeadingFrames, Remainder, UsableLines, Decoded, PayloadToSseLine, Concat;
    var sseLines: seq<Text> := [];
    var parsedAny := false;
    var consumed := 0;
    var next := NextFrame(crc, body);
    ghost var parsed: seq<Frame> := [];
    LoopStart(crc, repr, body);
    while next.Complete?
      invariant consumed <= |body| && next == NextFrame(crc, body[consumed..])
      invariant LeadingFrames(crc, body) == parsed + LeadingFrames(crc, body[consumed..])
      invariant Remainder(crc, body) == Remainder(crc, body[consumed..])
      invariant parsedAny <==> parsed != []
      invariant sseLines == UsableLines(repr, parsed)
      decreases |body| - consumed
    {
      LoopStep(crc, body, consumed, parsed, next.frame);
      parsedAny := true;
      consumed := consumed + |next.frame.headers| + |next.frame.payload| + 16;
      UsableLinesAppend(repr, parsed, next.frame);
      parsed := parsed + [next.frame];
      var line := PayloadToSseLine(repr, next.frame.payload);
      if line.Some? {
        sseLines := sseLines + [line.value];
      }
      next := NextFrame(crc, body[consumed..]);
    }
    LoopEnd(crc, repr, body, parsed, body[consumed..]);
    if next.Corrupt? {
      sse := if parsedAny then Some(Concat(sseLines)) else None;
    } else if !parsedAny {
      sse := None;
    } else if |body| - consumed > 0 {
      sse := None;
    } else {
      sse := Some(Concat(sseLines));
    }
  }

  lemma LoopStart(crc: Crc, repr: Json.Repr, body: Bytes)
    ensures body[0..] == body && UsableLines(repr, []) == []
    ensures LeadingFrames(crc, body) == [] + LeadingFrames(crc, body[0..])
  {
    assert body[0..] == body;
  }

  /**
   For arbitrary bytes the result is determined by the longest run of leading frames: None if that run is empty or what
   follows it is an incomplete frame, otherwise exactly the lines of that run.
   */
  lemma DecodedOfRun(crc: Crc, repr: Json.Repr, b: Bytes, fs: seq<Frame>, rest: Bytes)
    requires IsLongestRun(crc, b, fs, rest)
    ensures Decoded(crc, repr, b) == Outcome(crc, repr, fs, rest)
  {
    hide Outcome, IsLongestRun;
    LongestRunUnique(crc, b, fs, rest);
  }

  // ---- encoding and decoding, whole and cut short ----

  /** Decoding an encoded, non-empty list of messages gives the lines of the usable ones in order. */
  lemma DecodeEncoded(crc: Crc, repr: Json.Repr, fs: seq<Frame>)
    requires fs != [] && forall i | 0 <= i < |fs| :: fs[i].Encodable()
    ensures Decoded(crc, repr, WireAll(crc, fs)) == Some(Concat(UsableLines(repr, fs)))
  {
    hide Wire, UsableLines, Concat, Decoded;
    NoFrameFits(crc, []);
    assert WireAll(crc, fs) + [] == WireAll(crc, fs);
    DecodedOfRun(crc, repr, WireAll(crc, fs), fs, []);
  }

  /** A corrupt frame after a good run costs nothing of that run. */
  lemma DecodeCorruptTail(crc: Crc, repr: Json.Repr, fs: seq<Frame>, rest: Bytes)
    requires fs != [] && (forall i | 0 <= i < |fs| :: fs[i].Encodable()) && NextFrame(crc, rest).Corrupt?
    ensures Decoded(crc, repr, WireAll(crc, fs) + rest) == Decoded(crc, repr, WireAll(crc, fs))
  {
    hide Wire, NextFrame;
    NoFrameFits(crc, rest);
    DecodedOfRun(crc, repr, WireAll(crc, fs) + rest, fs, rest);
    DecodeEncoded(crc, repr, fs);
  }

  /** The prelude of an empty frame with a CRC that does not match it. */
  lemma CorruptRest(crc: Crc) returns (rest: Bytes)
    ensures NextFrame(crc, rest).Corrupt?
  {
    var head := Be32(16) + Be32(0);
    var wrong := (crc(head) + 1) % 0x1_0000_0000;
    rest := head + Be32(wrong);
    assert rest[..8] == head && rest[..4] == Be32(16) && rest[4..8] == Be32(0) && rest[8..12] == Be32(wrong);
    FromBe32OfBe32(wrong);
  }

  /**
   A result does not mean that complete frames account for every byte. It leaves bytes out exactly when a corrupt frame
   follows at least one good one, and under every CRC there are such bodies.
   */
  lemma ResultLeavesBytesOut(crc: Crc, repr: Json.Repr, body: Bytes)
    ensures Decoded(crc, repr, body).Some? && Remainder(crc, body) != [] <==>
            LeadingFrames(crc, body) != [] && NextFrame(crc, Remainder(crc, body)).Corrupt?
  {
    hide Wire, Concat, UsableLines, LeadingFrames;
    RemainderStartsNoFrame(crc, body);
    NothingIsIncomplete(crc);
  }

  lemma {:induction false} RemainderStartsNoFrame(crc: Crc, b: Bytes)
    ensures !NextFrame(crc, Remainder(crc, b)).Complete?
    decreases |b|
  {
    hide Wire;
    match NextFrame(crc, b)
    case Complete(f) => RemainderStartsNoFrame(crc, b[|Wire(crc, f)|..]);
    case _ =>
  }

  lemma ResultCanLeaveBytesOut(crc: Crc, repr: Json.Repr, f: Frame) returns (body: Bytes)
    requires f.Encodable()
    ensures Decoded(crc, repr, body) == Some(Concat(UsableLines(repr, [f]))) && Remainder(crc, body) != []
  {
    var rest := CorruptRest(crc);
    hide Wire, NextFrame, Concat, UsableLines;
    body := WireAll(crc, [f]) + rest;
    NoFrameFits(crc, rest);
    LongestRunUnique(crc, body, [f], rest);
    assert Decoded(crc, repr, body) == Outcome(crc, repr, [f], rest);
    NothingIsIncomplete(crc);
  }

  lemma NothingIsIncomplete(crc: Crc)
    ensures NextFrame(crc, []).Incomplete?
  {
  }

  /** How many whole frames of `fs` lie in the first `cut` bytes of its encoding. */
  function WholeFrames(crc: Crc, fs: seq<Frame>, cut: nat): (n: nat)
    requires forall i | 0 <= i < |fs| :: fs[i].Encodable()
    ensures n <= |fs|
  {
    if fs == [] || cut < |Wire(crc, fs[0])| then 0
    else 1 + WholeFrames(crc, fs[1..], cut - |Wire(crc, fs[0])|)
  }

  lemma {:induction false} CutRun(crc: Crc, fs: seq<Frame>, cut: nat)
    requires (forall i | 0 <= i < |fs| :: fs[i].Encodable()) && cut < |WireAll(crc, fs)|
    ensures var n := WholeFrames(crc, fs, cut);
            && n < |fs| && |WireAll(crc, fs[..n])| <= cut
            && cut - |WireAll(crc, fs[..n])| < |Wire(crc, fs[n])|
            && WireAll(crc, fs)[..cut] == WireAll(crc, fs[..n]) + Wire(crc, fs[n])[..cut - |WireAll(crc, fs[..n])|]
  {
    hide Wire;
    var first := Wire(crc, fs[0]);
    if cut < |first| {
      assert WireAll(crc, fs)[..cut] == first[..cut];
      assert fs[..0] == [];
    } else {
      var n := WholeFrames(crc, fs, cut);
      CutRun(crc, fs[1..], cut - |first|);
      assert fs[..n][1..] == fs[1..][..n - 1];
      assert WireAll(crc, fs)[..cut] == first + WireAll(crc, fs[1..])[..cut - |first|];
    }
  }

  /**
   Every strict prefix of an encoding decodes to None, unless it ends on a frame boundary after at least one frame;
   there it decodes to the lines of the frames before the cut.
   */
  lemma DecodePrefix(crc: Crc, repr: Json.Repr, fs: seq<Frame>, cut: nat)
    requires (forall i | 0 <= i < |fs| :: fs[i].Encodable()) && cut < |WireAll(crc, fs)|
    ensures var n := WholeFrames(crc, fs, cut);
            && n < |fs|
            && Decoded(crc, repr, WireAll(crc, fs)[..cut]) ==
               if n > 0 && |WireAll(crc, fs[..n])| == cut then Some(Concat(UsableLines(repr, fs[..n]))) else None
  {
    hide Wire, NextFrame, WholeFrames;
    CutRun(crc, fs, cut);
    var n := WholeFrames(crc, fs, cut);
    var rest := Wire(crc, fs[n])[..cut - |WireAll(crc, fs[..n])|];
    NextOfStrictPrefix(crc, fs[n], |rest|);
    NoFrameFits(crc, rest);
    DecodedOfRun(crc, repr, WireAll(crc, fs)[..cut], fs[..n], rest);
  }

  // ---- one line per usable message ----

  /** Python's `t.split("\n")`. */
  function SplitLines(t: Text): (ls: seq<Text>)
    ensures ls != []
  {
    if t == [] then [[]]
    else var ls := SplitLines(t[1..]);
         if t[0] == NEWLINE then [[]] + ls else [[t[0]] + ls[0]] + ls[1..]
  }

  lemma {:induction false} SplitOneLine(line: Text, rest: Text)
    requires NEWLINE !in line
    ensures SplitLines(line + [NEWLINE] + rest) == [line] + SplitLines(rest)
  {
    var t := line + [NEWLINE] + rest;
    if line == [] {
      assert t[1..] == rest;
    } else {
      SplitOneLine(line[1..], rest);
      assert t[1..] == line[1..] + [NEWLINE] + rest;
      assert [line[0]] + line[1..] == line;
    }
  }

  /** The inner objects of the usable messages, in order. */
  function UsableObjects(repr: Json.Repr, fs: seq<Frame>): seq<Json.Value> {
    if fs == [] then []
    else match InnerObject(repr, fs[0].payload)
      case None => UsableObjects(repr, fs[1..])
      case Some(v) => [v] + UsableObjects(repr, fs[1..])
  }

  /** `vs` are the objects that the payloads of `fs` wrap, in order; the others wrap none. */
  ghost predicate AreWrapped(repr: Json.Repr, fs: seq<Frame>, vs: seq<Json.Value>) {
    if fs == [] then vs == []
    else if exists v :: Wraps(repr, fs[0].payload, v) then
      vs != [] && Wraps(repr, fs[0].payload, vs[0]) && AreWrapped(repr, fs[1..], vs[1..])
    else AreWrapped(repr, fs[1..], vs)
  }

  lemma {:induction false} UsableObjectsExactly(repr: Json.Repr, fs: seq<Frame>, vs: seq<Json.Value>)
    ensures UsableObjects(repr, fs) == vs <==> AreWrapped(repr, fs, vs)
  {
    hide InnerObject, Wraps;
    if fs != [] {
      var payload := fs[0].payload;
      forall v ensures InnerObject(repr, payload) == Some(v) <==> Wraps(repr, payload, v) {
        InnerObjectExactly(repr, payload, v);
      }
      var tail := if InnerObject(repr, payload).Some? && vs != [] then vs[1..] else vs;
      UsableObjectsExactly(repr, fs[1..], tail);
      if InnerObject(repr, payload).Some? && vs != [] {
        assert vs == [vs[0]] + vs[1..];
        assert UsableObjects(repr, fs)[1..] == UsableObjects(repr, fs[1..]);
      }
    }
  }

  /** The text after the last newline is empty; before it there is exactly one line per object, which parses back to it. */
  ghost predicate LinesCarry(repr: Json.Repr, ls: seq<Text>, vs: seq<Json.Value>) {
    && |ls| == |vs| + 1 && ls[|vs|] == []
    && forall i | 0 <= i < |vs| :: |ls[i]| >= 6 && ls[i][..6] == DATA && Json.Loads(repr, ls[i][6..]) == Some(vs[i])
  }

  lemma PrependLine(repr: Json.Repr, line: Text, v: Json.Value, ls: seq<Text>, vs: seq<Json.Value>)
    requires LinesCarry(repr, ls, vs) && |line| >= 6 && line[..6] == DATA && Json.Loads(repr, line[6..]) == Some(v)
    ensures LinesCarry(repr, [line] + ls, [v] + vs)
  {
    hide Json.Loads;
  }

  /** Splitting the output on newlines gives one `data:` line per message that wraps an object, each holding that object. */
  lemma {:induction false} OutputLines(repr: Json.Repr, fs: seq<Frame>)
    ensures AreWrapped(repr, fs, UsableObjects(repr, fs))
    ensures LinesCarry(repr, SplitLines(Concat(UsableLines(repr, fs))), UsableObjects(repr, fs))
  {
    UsableObjectsExactly(repr, fs, UsableObjects(repr, fs));
    hide AreWrapped;
    LinesCarryObjects(repr, fs);
  }

  lemma {:induction false} LinesCarryObjects(repr: Json.Repr, fs: seq<Frame>)
    ensures LinesCarry(repr, SplitLines(Concat(UsableLines(repr, fs))), UsableObjects(repr, fs))
  {
    hide InnerObject, DataLine, LinesCarry, Json.Loads;
    if fs == [] {
      NoLines(repr);
    } else {
      LinesCarryObjects(repr, fs[1..]);
      if InnerObject(repr, fs[0].payload).Some? {
        FirstOutputLine(repr, fs[0].payload, Concat(UsableLines(repr, fs[1..])));
        var content := DataLine(InnerObject(repr, fs[0].payload).value);
        PrependLine(repr, content, InnerObject(repr, fs[0].payload).value,
                    SplitLines(Concat(UsableLines(repr, fs[1..]))), UsableObjects(repr, fs[1..]));
        assert UsableLines(repr, fs)[1..] == UsableLines(repr, fs[1..]);
      }
    }
  }

  lemma NoLines(repr: Json.Repr)
    ensures LinesCarry(repr, SplitLines(Concat(UsableLines(repr, []))), UsableObjects(repr, []))
  {
  }

  lemma FirstOutputLine(repr: Json.Repr, payload: Bytes, rest: Text)
    requires InnerObject(repr, payload).Some?
    ensures var inner := InnerObject(repr, payload).value;
            var content := DataLine(inner);
            && |content| >= 6 && content[..6] == DATA && Json.Loads(repr, content[6..]) == Some(inner)
            && SplitLines(content + [NEWLINE] + rest) == [content] + SplitLines(rest)
  {
    LineRoundTrip(repr, payload);
    var content := DataLine(InnerObject(repr, payload).value);
    var line := content + [NEWLINE];
    assert content == line[..|line| - 1] && content[6..] == line[6..|line| - 1];
    assert NEWLINE !in content;
    SplitOneLine(content, rest);
  }

  lemma {:induction false} EventsAreUsable(repr: Json.Repr, fs: seq<Frame>, events: seq<Json.Value>)
    requires |fs| == |events|
    requires forall i | 0 <= i < |fs| ::
               events[i].Obj? && Json.WellFormed(repr, events[i]) && fs[i].payload == EncodeEvent(repr, events[i])
    ensures UsableObjects(repr, fs) == events
  {
    hide InnerObject, EncodeEvent;
    if fs != [] {
      EventRoundTrip(repr, events[0]);
      EventsAreUsable(repr, fs[1..], events[1..]);
      assert events == [events[0]] + events[1..];
    }
  }

  /** From events to bytes and back: wrapped, framed, decoded, split and parsed, the same events in the same order. */
  lemma StreamRoundTrip(crc: Crc, repr: Json.Repr, fs: seq<Frame>, events: seq<Json.Value>)
    requires |fs| == |events| > 0 && forall i | 0 <= i < |fs| :: fs[i].Encodable()
    requires forall i | 0 <= i < |fs| ::
               events[i].Obj? && Json.WellFormed(repr, events[i]) && fs[i].payload == EncodeEvent(repr, events[i])
    ensures Decoded(crc, repr, WireAll(crc, fs)).Some?
    ensures LinesCarry(repr, SplitLines(Decoded(crc, repr, WireAll(crc, fs)).value), events)
  {
    hide EncodeEvent, Decoded, LinesCarry;
    DecodeEncoded(crc, repr, fs);
    EventsAreUsable(repr, fs, events);
    OutputLines(repr, fs);
  }
}
