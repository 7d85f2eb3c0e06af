/** One event-stream payload, `{"bytes": "<base64 of a JSON object>"}`, as one server-sent-events `data:` line. */
module SseLine {
  import opened Text
  import opened Json
  import opened JsonGrammar
  import Base64
  import JsonStrings
  import Utf8
  import WideUtf

  const BYTES_KEY: Text := [98, 121, 116, 101, 115]
  const DATA: Text := [100, 97, 116, 97, 58, 32]

  /** `d.get(key)`. */
  function Get(ms: seq<Member>, key: Text): Option<Value> {
    if ms == [] then None else if ms[0].key == key then Some(ms[0].value) else Get(ms[1..], key)
  }

  /** The text of bytes in a detected encoding, encoded surrogates let through. */
  function DecodeDetected(b: Bytes): Option<Text> {
    match WideUtf.Detect(b)
    case Utf8(skip) => Utf8.Decode(b[skip..], true)
    case Utf16(endian, skip) => WideUtf.Decode16(endian, b[skip..])
    case Utf32(endian, skip) => WideUtf.Decode32(endian, b[skip..])
  }

  /** `json.loads` on bytes. */
  function LoadsBytes(repr: Repr, b: Bytes): Option<Value> {
    match DecodeDetected(b)
    case None => None
    case Some(t) => Loads(repr, t)
  }

  /** The object inside the envelope; None when the payload is not a usable envelope. */
  function InnerObject(repr: Repr, payload: Bytes): Option<Value> {
    match LoadsBytes(repr, payload)
    case Some(Obj(ms)) =>
      (match Get(ms, BYTES_KEY)
       case Some(Str(b64)) =>
         if b64 == [] || !IsAscii(b64) then None
         else (match Base64.Decode(b64)
               case None => None
               case Some(raw) =>
                 match Utf8.Decode(raw, false)
                 case None => None
                 case Some(inner) =>
                   match Loads(repr, inner)
                   case Some(Obj(fields)) => Some(Obj(fields))
                   case _ => None)
       case _ => None)
    case _ => None
  }

  function DataLine(inner: Value): Text {
    DATA + Print(inner)
  }

  function PayloadToSseLine(repr: Repr, payload: Bytes): Option<Text> {
    match InnerObject(repr, payload)
    case None => None
    case Some(inner) => Some(DataLine(inner) + [NEWLINE])
  }

  // ---- what a payload yields, stated without the decoders ----

  /** The bytes are the text's in the encoding they are detected to have, without its byte order mark. */
  ghost predicate AreBytesOf(b: Bytes, t: Text) {
    match WideUtf.Detect(b)
    case Utf8(skip) => Utf8.Encode(t) == b[skip..]
    case Utf16(endian, skip) => JsonStrings.Paired(t) && WideUtf.Encode16(endian, t) == b[skip..]
    case Utf32(endian, skip) => WideUtf.Encode32(endian, t) == b[skip..]
  }

  lemma {:induction false} DecodeDetectedExactly(b: Bytes, t: Text)
    ensures DecodeDetected(b) == Some(t) <==> AreBytesOf(b, t)
  {
    match WideUtf.Detect(b)
    case Utf8(skip) => Utf8.DecodeExactly(b[skip..], t, true);
    case Utf16(endian, skip) => WideUtf.DecodeExactly16(endian, b[skip..], t);
    case Utf32(endian, skip) => WideUtf.DecodeExactly32(endian, b[skip..], t);
  }

  ghost predicate BytesDenote(repr: Repr, b: Bytes, v: Value) {
    exists t :: AreBytesOf(b, t) && Denotes(repr, t, v)
  }

  /** `json.loads` on bytes: the value of the JSON text they encode. */
  lemma {:induction false} LoadsBytesExactly(repr: Repr, b: Bytes, v: Value)
    ensures LoadsBytes(repr, b) == Some(v) <==> BytesDenote(repr, b, v)
  {
    hide DecodeDetected, AreBytesOf, Loads, Denotes;
    if LoadsBytes(repr, b) == Some(v) {
      var t := DecodeDetected(b).value;
      DecodeDetectedExactly(b, t);
      LoadsExactly(repr, t, v);
    }
    if BytesDenote(repr, b, v) {
      var t :| AreBytesOf(b, t) && Denotes(repr, t, v);
      DecodeDetectedExactly(b, t);
      LoadsExactly(repr, t, v);
    }
  }

  /** The first member named `key` is at `i`. */
  ghost predicate IsFirst(ms: seq<Member>, i: nat, key: Text) {
    i < |ms| && ms[i].key == key && forall j | 0 <= j < i :: ms[j].key != key
  }

  /** The ASCII text is the base64 of the UTF-8 of `inner`. */
  ghost predicate Carries(b64: Text, inner: Text) {
    b64 != [] && IsAscii(b64) && JsonStrings.SurrogateFree(inner) && Base64.Denotes(b64, Utf8.Encode(inner))
  }

  /** The first member named `bytes`, at `i`, is a string that carries the text of `v`. */
  ghost predicate Holds(repr: Repr, ms: seq<Member>, i: nat, inner: Text, v: Value) {
    && IsFirst(ms, i, [98, 121, 116, 101, 115]) && ms[i].value.Str?
    && Carries(ms[i].value.text, inner) && Denotes(repr, inner, v)
  }

  /** The payload is an object that holds the object `v`. */
  ghost predicate Wraps(repr: Repr, payload: Bytes, v: Value) {
    v.Obj? && exists ms, i, inner :: BytesDenote(repr, payload, Obj(ms)) && Holds(repr, ms, i, inner, v)
  }

  lemma {:induction false} FirstIsGot(ms: seq<Member>, i: nat, key: Text)
    requires IsFirst(ms, i, key)
    ensures Get(ms, key) == Some(ms[i].value)
  {
    if i > 0 { FirstIsGot(ms[1..], i - 1, key); }
  }

  lemma {:induction false} GotIsFirst(ms: seq<Member>, key: Text) returns (i: nat)
    requires Get(ms, key).Some?
    ensures IsFirst(ms, i, key) && ms[i].value == Get(ms, key).value
  {
    if ms[0].key == key {
      i := 0;
    } else {
      var j := GotIsFirst(ms[1..], key);
      i := j + 1;
    }
  }

  lemma {:induction false} CarriesExactly(b64: Text, inner: Text)
    ensures Carries(b64, inner) <==>
            && b64 != [] && IsAscii(b64) && Base64.Decode(b64).Some?
            && Utf8.Decode(Base64.Decode(b64).value, false) == Some(inner)
  {
    assert Utf8.AllEncodable(inner, false) <==> JsonStrings.SurrogateFree(inner);
    hide Base64.Denotes, Base64.Decode, Utf8.Decode, Utf8.Encode, IsAscii, Utf8.AllEncodable, JsonStrings.SurrogateFree;
    Base64.DecodeExactly(b64, Utf8.Encode(inner));
    if Base64.Decode(b64).Some? { Utf8.DecodeExactly(Base64.Decode(b64).value, inner, false); }
  }

  lemma {:induction false} YieldsWrapped(repr: Repr, payload: Bytes, ms: seq<Member>, i: nat, inner: Text, v: Value)
    requires v.Obj? && BytesDenote(repr, payload, Obj(ms)) && Holds(repr, ms, i, inner, v)
    ensures InnerObject(repr, payload) == Some(v)
  {
    LoadsBytesExactly(repr, payload, Obj(ms));
    FirstIsGot(ms, i, BYTES_KEY);
    CarriesExactly(ms[i].value.text, inner);
    LoadsExactly(repr, inner, v);
    hide LoadsBytes, BytesDenote, Denotes, Loads, Get, Base64.Decode, Utf8.Decode, Carries;
  }

  lemma {:induction false} WrappedIsYielded(repr: Repr, payload: Bytes)
    requires InnerObject(repr, payload).Some?
    ensures Wraps(repr, payload, InnerObject(repr, payload).value)
  {
    hide LoadsBytes, BytesDenote, Denotes, Loads, Get, Base64.Decode, Utf8.Decode, Carries;
    var v := InnerObject(repr, payload).value;
    var ms := LoadsBytes(repr, payload).value.members;
    LoadsBytesExactly(repr, payload, Obj(ms));
    var i := GotIsFirst(ms, BYTES_KEY);
    var inner := Utf8.Decode(Base64.Decode(ms[i].value.text).value, false).value;
    CarriesExactly(ms[i].value.text, inner);
    LoadsExactly(repr, inner, v);
    assert Holds(repr, ms, i, inner, v);
  }

  /** What an envelope yields is exactly the object it wraps. */
  lemma {:induction false} InnerObjectExactly(repr: Repr, payload: Bytes, v: Value)
    ensures InnerObject(repr, payload) == Some(v) <==> Wraps(repr, payload, v)
  {
    hide InnerObject, BytesDenote, Holds;
    if InnerObject(repr, payload) == Some(v) { WrappedIsYielded(repr, payload); }
    if Wraps(repr, payload, v) {
      var ms, i, inner :| BytesDenote(repr, payload, Obj(ms)) && Holds(repr, ms, i, inner, v);
      YieldsWrapped(repr, payload, ms, i, inner, v);
    }
  }

  /**
   A message is used exactly if its payload wraps an object, and then its line is `data: `, that object printed, and a
   newline. Any other payload, one without a `bytes` member among them, is skipped.
   */
  lemma {:induction false} LineExactly(repr: Repr, payload: Bytes, line: Text)
    ensures PayloadToSseLine(repr, payload) == Some(line) <==>
            exists v :: Wraps(repr, payload, v) && line == [100, 97, 116, 97, 58, 32] + Print(v) + [10]
  {
    hide InnerObject, Wraps, Print;
    forall v ensures InnerObject(repr, payload) == Some(v) <==> Wraps(repr, payload, v) {
      InnerObjectExactly(repr, payload, v);
    }
  }

  /** The envelope Bedrock wraps around an event. */
  function EncodeEvent(repr: Repr, inner: Value): Bytes
    requires WellFormed(repr, inner)
  {
    PrintPrintable(repr, inner);
    var b64 := Base64.Encode(AsciiBytes(Print(inner)));
    var envelope := Obj([Member(BYTES_KEY, Str(b64))]);
    EnvelopePrintable(repr, inner);
    AsciiBytes(Print(envelope))
  }

  lemma EnvelopePrintable(repr: Repr, inner: Value)
    requires WellFormed(repr, inner) && IsAscii(Print(inner))
    ensures var envelope := Obj([Member(BYTES_KEY, Str(Base64.Encode(AsciiBytes(Print(inner)))))]);
            WellFormed(repr, envelope) && Printable(Print(envelope))
  {
    Base64.EncodeShape(AsciiBytes(Print(inner)));
    PrintPrintable(repr, Obj([Member(BYTES_KEY, Str(Base64.Encode(AsciiBytes(Print(inner)))))]));
  }

  /** Whatever comes out of an envelope is an object the printer and the parser agree on. */
  lemma InnerObjectWellFormed(repr: Repr, payload: Bytes)
    requires InnerObject(repr, payload).Some?
    ensures InnerObject(repr, payload).value.Obj? && WellFormed(repr, InnerObject(repr, payload).value)
  {
    var ms := LoadsBytes(repr, payload).value.members;
    var raw := Base64.Decode(Get(ms, BYTES_KEY).value.text).value;
    Utf8.EncodeDecode(raw, false);
    LoadsIsIdempotent(repr, Utf8.Decode(raw, false).value);
  }

  lemma LineShape(content: Text)
    requires Printable(content) && content != []
    ensures var line := DATA + content + [NEWLINE];
            && |line| > 7 && line[..6] == DATA && line[|line| - 1] == NEWLINE
            && Printable(line[..|line| - 1]) && line[6..|line| - 1] == content
  {
    var line := DATA + content + [NEWLINE];
    assert line[..|line| - 1] == DATA + content;
  }

  /**
   A usable line is one line: no control character before the final newline, so no second `data:` line can be
   smuggled in, and the JSON after the prefix parses back to the inner object.
   */
  lemma LineRoundTrip(repr: Repr, payload: Bytes)
    requires PayloadToSseLine(repr, payload).Some?
    ensures var line := PayloadToSseLine(repr, payload).value;
            var inner := InnerObject(repr, payload).value;
            && |line| > 7 && line[..6] == DATA && line[|line| - 1] == NEWLINE
            && Printable(line[..|line| - 1])
            && Loads(repr, line[6..|line| - 1]) == Some(inner)
  {
    InnerObjectWellFormed(repr, payload);
    var inner := InnerObject(repr, payload).value;
    PrintPrintable(repr, inner);
    LoadsPrint(repr, inner);
    PrintedBrackets(inner);
    hide InnerObject, Loads, Print, WellFormed, Printable;
    LineShape(Print(inner));
  }

  lemma Detected8(t: Text)
    requires WideUtf.StartsAscii(t) && IsAscii(t)
    ensures DecodeDetected(Utf8.Encode(t)) == Some(t)
  {
    Utf8.EncodeAscii(t);
    Utf8.DecodeEncode(t, true);
    var b := Utf8.Encode(t);
    WideUtf.DetectsItself(t, WideUtf.Big, b);
    hide Utf8.Encode, Utf8.Decode, WideUtf.Detect;
    assert b[0..] == b;
  }

  lemma Detected16(t: Text, e: WideUtf.Endian)
    requires WideUtf.StartsAscii(t) && IsAscii(t)
    ensures DecodeDetected(WideUtf.Encode16(e, t)) == Some(t)
  {
    WideUtf.DecodeEncode16(e, t);
    WideUtf.DetectsItself(t, e, AsciiBytes(t));
    hide WideUtf.Encode16, WideUtf.Decode16, WideUtf.Detect;
    var b := WideUtf.Encode16(e, t);
    assert b[0..] == b;
  }

  lemma Detected32(t: Text, e: WideUtf.Endian)
    requires WideUtf.StartsAscii(t) && IsAscii(t)
    ensures DecodeDetected(WideUtf.Encode32(e, t)) == Some(t)
  {
    WideUtf.DecodeEncode32(e, t);
    WideUtf.DetectsItself(t, e, AsciiBytes(t));
    hide WideUtf.Encode32, WideUtf.Decode32, WideUtf.Detect;
    var b := WideUtf.Encode32(e, t);
    assert b[0..] == b;
  }

  /** A printed array or object reads back from its bytes in every encoding `json.loads` detects. */
  lemma LoadsEncoded(repr: Repr, v: Value, e: WideUtf.Endian)
    requires WellFormed(repr, v) && (v.Arr? || v.Obj?)
    ensures LoadsBytes(repr, Utf8.Encode(Print(v))) == Some(v)
    ensures LoadsBytes(repr, WideUtf.Encode16(e, Print(v))) == Some(v)
    ensures LoadsBytes(repr, WideUtf.Encode32(e, Print(v))) == Some(v)
  {
    PrintPrintable(repr, v);
    PrintedBrackets(v);
    LoadsPrint(repr, v);
    hide Print, Loads, DecodeDetected;
    Detected8(Print(v));
    Detected16(Print(v), e);
    Detected32(Print(v), e);
  }

  lemma PrintedBrackets(v: Value)
    requires v.Arr? || v.Obj?
    ensures |Print(v)| >= 2
  {
  }

  lemma EnvelopeLoads(repr: Repr, inner: Value)
    requires inner.Obj? && WellFormed(repr, inner) && IsAscii(Print(inner))
    ensures LoadsBytes(repr, EncodeEvent(repr, inner)) ==
            Some(Obj([Member(BYTES_KEY, Str(Base64.Encode(AsciiBytes(Print(inner)))))]))
  {
    var envelope := Obj([Member(BYTES_KEY, Str(Base64.Encode(AsciiBytes(Print(inner)))))]);
    EnvelopePrintable(repr, inner);
    LoadsEncoded(repr, envelope, WideUtf.Big);
    Utf8.EncodeAscii(Print(envelope));
    hide LoadsBytes, Print, Base64.Encode;
  }

  /** Wrapping an event and unwrapping it gives the same event, for every JSON object the parser can produce. */
  lemma EventRoundTrip(repr: Repr, inner: Value)
    requires inner.Obj? && WellFormed(repr, inner)
    ensures InnerObject(repr, EncodeEvent(repr, inner)) == Some(inner)
  {
    PrintPrintable(repr, inner);
    EnvelopeLoads(repr, inner);
    var raw := AsciiBytes(Print(inner));
    var b64 := Base64.Encode(raw);
    assert Get([Member(BYTES_KEY, Str(b64))], BYTES_KEY) == Some(Str(b64));
    PrintedBrackets(inner);
    Base64.EncodeShape(raw);
    Base64.RoundTrip(raw);
    Utf8.EncodeAscii(Print(inner));
    Utf8.DecodeEncode(Print(inner), false);
    LoadsPrint(repr, inner);
    hide LoadsBytes, EncodeEvent, Print, Base64.Encode, Base64.Decode, Utf8.Decode, Utf8.Encode, Loads, Get;
  }
}
