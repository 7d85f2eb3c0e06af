/**
 JSON values, the compact printer `json.dumps(v, separators=(',', ':'))` and the parser `json.loads` with Python's
 extensions (`NaN`, `Infinity`, `-Infinity`) and its rule for repeated keys: the first position, the last value. A number
 is represented by the text it prints as.
 */
module Json {
  import opened Text
  import opened JsonStrings
  import opened JsonNumbers

  datatype Word = Null | True | False | NaN | Infinity | NegativeInfinity

  datatype Value =
    | Literal(word: Word)
    | Number(lexeme: Text)
    | Str(text: Text)
    | Arr(elems: seq<Value>)
    | Obj(members: seq<Member>)

  datatype Member = Member(key: Text, value: Value)

  function WordText(w: Word): Text {
    match w
    case Null => [110, 117, 108, 108]
    case True => [116, 114, 117, 101]
    case False => [102, 97, 108, 115, 101]
    case NaN => [78, 97, 78]
    case Infinity => [73, 110, 102, 105, 110, 105, 116, 121]
    case NegativeInfinity => [45, 73, 110, 102, 105, 110, 105, 116, 121]
  }

  const COLON: CodePoint := 58
  const COMMA: CodePoint := 44
  const OPEN_OBJ: CodePoint := 123
  const CLOSE_OBJ: CodePoint := 125
  const OPEN_ARR: CodePoint := 91
  const CLOSE_ARR: CodePoint := 93

  // ---- printer ----

  function PrintString(s: Text): Text {
    [QUOTE] + EscapeAll(s) + [QUOTE]
  }

  function Print(v: Value): Text
    decreases v, 1
  {
    match v
    case Literal(w) => WordText(w)
    case Number(lexeme) => lexeme
    case Str(s) => PrintString(s)
    case Arr(es) => [OPEN_ARR] + PrintElems(es) + [CLOSE_ARR]
    case Obj(ms) => [OPEN_OBJ] + PrintMembers(ms) + [CLOSE_OBJ]
  }

  function PrintElems(es: seq<Value>): Text
    decreases es, 0
  {
    if es == [] then []
    else if |es| == 1 then Print(es[0])
    else Print(es[0]) + ([COMMA] + PrintElems(es[1..]))
  }

  function PrintMember(m: Member): Text
    decreases m, 2
  {
    PrintString(m.key) + ([COLON] + Print(m.value))
  }

  function PrintMembers(ms: seq<Member>): Text
    decreases ms, 0
  {
    if ms == [] then []
    else if |ms| == 1 then PrintMember(ms[0])
    else PrintMember(ms[0]) + ([COMMA] + PrintMembers(ms[1..]))
  }

  // ---- parser ----

  predicate IsSpace(c: CodePoint) { c == 32 || c == 9 || c == 10 || c == 13 }

  function SkipSpace(t: Text): (r: Text)
    ensures |r| <= |t|
    ensures r != [] ==> !IsSpace(r[0])
  {
    if t != [] && IsSpace(t[0]) then SkipSpace(t[1..]) else t
  }

  function ReadWord(t: Text): (w: Option<Word>)
    ensures w.Some? ==> WordText(w.value) <= t
  {
    if WordText(Null) <= t then Some(Null)
    else if WordText(True) <= t then Some(True)
    else if WordText(False) <= t then Some(False)
    else if WordText(NaN) <= t then Some(NaN)
    else if WordText(Infinity) <= t then Some(Infinity)
    else if WordText(NegativeInfinity) <= t then Some(NegativeInfinity) else None
  }

  /** A number with a fraction or an exponent: Python reads it as a float. */
  predicate IsFloat(lexeme: Text) {
    IsNumber(lexeme) && IntegerLength(lexeme) < |lexeme|
  }

  /**
   How Python prints the float a lexeme denotes: as an infinity when it is too large, and otherwise as a float that reads
   back as the same one.
   */
  ghost predicate IsRepr(repr: Text -> Text) {
    forall t | IsFloat(t) ::
      repr(t) == WordText(Infinity) || repr(t) == WordText(NegativeInfinity) || (IsFloat(repr(t)) && repr(repr(t)) == repr(t))
  }

  type Repr = repr: Text -> Text | IsRepr(repr) witness (t: Text) => t

  /** The value of a number: an integer as it is, but `-0` is 0; a float as it will be printed. */
  function ReadNumber(repr: Repr, lexeme: Text): Value {
    if !IsFloat(lexeme) then Number(if lexeme == [45, 48] then [48] else lexeme)
    else if repr(lexeme) == WordText(Infinity) then Literal(Infinity)
    else if repr(lexeme) == WordText(NegativeInfinity) then Literal(NegativeInfinity)
    else Number(repr(lexeme))
  }

  /** `d[key] = value` on an insertion-ordered dict. */
  function SetMember(ms: seq<Member>, m: Member): seq<Member> {
    if ms == [] then [m]
    else if ms[0].key == m.key then [m] + ms[1..]
    else [ms[0]] + SetMember(ms[1..], m)
  }

  /** The value at the very front of `t`, and what follows it. */
  function ReadValue(repr: Repr, t: Text): (r: Option<(Value, Text)>)
    ensures r.Some? ==> |r.value.1| < |t|
    decreases |t|, 0
  {
    if t == [] then None
    else if t[0] == QUOTE then
      (match ReadString(t[1..]) case None => None case Some((s, rest)) => Some((Str(s), rest)))
    else if t[0] == OPEN_ARR then
      var u := SkipSpace(t[1..]);
      if u != [] && u[0] == CLOSE_ARR then Some((Arr([]), u[1..])) else ReadElems(repr, u, [])
    else if t[0] == OPEN_OBJ then
      var u := SkipSpace(t[1..]);
      if u != [] && u[0] == CLOSE_OBJ then Some((Obj([]), u[1..])) else ReadMembers(repr, u, [])
    else if ReadWord(t).Some? then Some((Literal(ReadWord(t).value), t[|WordText(ReadWord(t).value)|..]))
    else if NumberLength(t) > 0 then Some((ReadNumber(repr, t[..NumberLength(t)]), t[NumberLength(t)..]))
    else None
  }

  /** The rest of an array whose next element starts at `t`. */
  function ReadElems(repr: Repr, t: Text, done: seq<Value>): (r: Option<(Value, Text)>)
    ensures r.Some? ==> |r.value.1| < |t|
    decreases |t|, 1
  {
    match ReadValue(repr, t)
    case None => None
    case Some((v, rest)) =>
      var u := SkipSpace(rest);
      if u == [] then None
      else if u[0] == CLOSE_ARR then Some((Arr(done + [v]), u[1..]))
      else if u[0] == COMMA then ReadElems(repr, SkipSpace(u[1..]), done + [v])
      else None
  }

  /** A key, a colon and a value. */
  function ReadMember(repr: Repr, t: Text): (r: Option<(Member, Text)>)
    ensures r.Some? ==> |r.value.1| < |t|
    decreases |t|, 1
  {
    if t == [] || t[0] != QUOTE then None
    else match ReadString(t[1..])
      case None => None
      case Some((key, rest)) =>
        var u := SkipSpace(rest);
        if u == [] || u[0] != COLON then None
        else match ReadValue(repr, SkipSpace(u[1..]))
          case None => None
          case Some((v, tail)) => Some((Member(key, v), tail))
  }

  function ReadMembers(repr: Repr, t: Text, done: seq<Member>): (r: Option<(Value, Text)>)
    ensures r.Some? ==> |r.value.1| < |t|
    decreases |t|, 2
  {
    match ReadMember(repr, t)
    case None => None
    case Some((m, rest)) =>
      var u := SkipSpace(rest);
      if u == [] then None
      else if u[0] == CLOSE_OBJ then Some((Obj(SetMember(done, m)), u[1..]))
      else if u[0] == COMMA then ReadMembers(repr, SkipSpace(u[1..]), SetMember(done, m))
      else None
  }

  /** `json.loads`: one value with only white space around it. */
  function Loads(repr: Repr, t: Text): Option<Value> {
    match ReadValue(repr, SkipSpace(t))
    case None => None
    case Some((v, rest)) => if SkipSpace(rest) == [] then Some(v) else None
  }

  // ---- the values the parser can produce ----

  ghost predicate DistinctKeys(ms: seq<Member>) {
    forall i, j | 0 <= i < j < |ms| :: ms[i].key != ms[j].key
  }

  ghost predicate WellFormed(repr: Repr, v: Value) {
    match v
    case Literal(_) => true
    case Number(lexeme) => IsNumber(lexeme) && ReadNumber(repr, lexeme) == Number(lexeme)
    case Str(s) => Paired(s)
    case Arr(es) => forall i | 0 <= i < |es| :: WellFormed(repr, es[i])
    case Obj(ms) => DistinctKeys(ms) && forall i | 0 <= i < |ms| :: Paired(ms[i].key) && WellFormed(repr, ms[i].value)
  }

  // ---- how printed text is put together, and what its atoms are read as ----

  /** What the first character of printed text can be: never space, a closing bracket or a comma. */
  predicate StartsValue(t: Text) {
    t != [] && !IsSpace(t[0]) && t[0] != CLOSE_ARR && t[0] != CLOSE_OBJ
  }

  lemma NumberStart(lexeme: Text)
    requires IsNumber(lexeme)
    ensures IsDigit(lexeme[0]) || lexeme[0] == 45
    ensures lexeme[0] == 45 ==> |lexeme| > 1 && IsDigit(lexeme[1])
  {
  }

  lemma WordIsRead(w: Word, rest: Text)
    ensures ReadWord(WordText(w) + rest) == Some(w)
  {
    var t := WordText(w) + rest;
    assert t[0] == WordText(w)[0] && WordText(w) <= t;
    if w.NegativeInfinity? { assert t[1] == 73; }
  }

  lemma ReadPrintedWord(repr: Repr, w: Word, rest: Text)
    ensures ReadValue(repr, WordText(w) + rest) == Some((Literal(w), rest))
  {
    var t := WordText(w) + rest;
    WordIsRead(w, rest);
    assert t[0] == WordText(w)[0];
    assert t[|WordText(w)|..] == rest;
    hide ReadWord, ReadNumber, ReadElems, ReadMembers, ReadString, NumberLength, SkipSpace;
  }

  lemma NumberIsNotAWord(t: Text)
    requires t != [] && (IsDigit(t[0]) || (t[0] == 45 && |t| > 1 && IsDigit(t[1])))
    ensures ReadWord(t).None?
  {
    assert forall w: Word :: WordText(w)[0] != t[0] || (WordText(w)[1] == 73 && t[0] == 45);
  }

  lemma ReadLexeme(repr: Repr, lexeme: Text, rest: Text)
    requires IsNumber(lexeme) && EndsNumber(rest)
    ensures ReadValue(repr, lexeme + rest) == Some((ReadNumber(repr, lexeme), rest))
  {
    hide ReadWord, ReadNumber, IntegerLength, UnsignedLength, FractionLength, ExponentLength;
    var t := lexeme + rest;
    NumberStart(lexeme);
    NumberIsNotAWord(t);
    NumberStable(lexeme, rest);
    assert t[..|lexeme|] == lexeme && t[|lexeme|..] == rest;
  }

  lemma PrintBracketed(es: seq<Value>, ms: seq<Member>, rest: Text)
    ensures Print(Arr(es)) + rest == [OPEN_ARR] + (PrintElems(es) + ([CLOSE_ARR] + rest))
    ensures Print(Obj(ms)) + rest == [OPEN_OBJ] + (PrintMembers(ms) + ([CLOSE_OBJ] + rest))
    ensures PrintElems([]) + ([CLOSE_ARR] + rest) == [CLOSE_ARR] + rest
    ensures PrintMembers([]) + ([CLOSE_OBJ] + rest) == [CLOSE_OBJ] + rest
  {
    assert Print(Arr(es)) + rest == [OPEN_ARR] + PrintElems(es) + [CLOSE_ARR] + rest;
    assert Print(Obj(ms)) + rest == [OPEN_OBJ] + PrintMembers(ms) + [CLOSE_OBJ] + rest;
    hide PrintElems, PrintMembers, Print;
  }

  lemma MembersWellFormed(repr: Repr, ms: seq<Member>)
    requires WellFormed(repr, Obj(ms))
    ensures DistinctKeys(ms) && forall i | 0 <= i < |ms| :: Paired(ms[i].key) && WellFormed(repr, ms[i].value)
  {
  }

  lemma Regroup(a: Text, b: Text, rest: Text)
    ensures a + ([COMMA] + b) + rest == a + ([COMMA] + (b + rest))
  {
  }

  lemma PrintElemsThen(es: seq<Value>, rest: Text)
    ensures |es| == 1 ==> PrintElems(es) + rest == Print(es[0]) + rest
    ensures |es| > 1 ==> PrintElems(es) + rest == Print(es[0]) + ([COMMA] + (PrintElems(es[1..]) + rest))
  {
    hide Print;
    if |es| > 1 { Regroup(Print(es[0]), PrintElems(es[1..]), rest); }
  }

  lemma PrintMembersThen(ms: seq<Member>, rest: Text)
    ensures |ms| == 1 ==> PrintMembers(ms) + rest == PrintMember(ms[0]) + rest
    ensures |ms| > 1 ==> PrintMembers(ms) + rest == PrintMember(ms[0]) + ([COMMA] + (PrintMembers(ms[1..]) + rest))
  {
    hide Print, PrintMember;
    if |ms| > 1 { Regroup(PrintMember(ms[0]), PrintMembers(ms[1..]), rest); }
  }

  lemma SetFreshMember(done: seq<Member>, ms: seq<Member>)
    requires ms != [] && DistinctKeys(done + ms)
    ensures SetMember(done, ms[0]) == done + [ms[0]]
  {
    forall i | 0 <= i < |done| ensures done[i].key != ms[0].key {
      assert (done + ms)[i] == done[i] && (done + ms)[|done|] == ms[0];
    }
    SetAbsentMember(done, ms[0]);
  }

  lemma {:induction false} SetAbsentMember(ms: seq<Member>, m: Member)
    requires forall i | 0 <= i < |ms| :: ms[i].key != m.key
    ensures SetMember(ms, m) == ms + [m]
  {
    if ms != [] {
      SetAbsentMember(ms[1..], m);
      assert [ms[0]] + (ms[1..] + [m]) == ms + [m];
    }
  }

  // ---- everything the parser produces is well formed ----

  lemma {:induction false} SetMemberWellFormed(repr: Repr, ms: seq<Member>, m: Member)
    requires WellFormed(repr, Obj(ms)) && Paired(m.key) && WellFormed(repr, m.value)
    ensures WellFormed(repr, Obj(SetMember(ms, m)))
    ensures forall i | 0 <= i < |SetMember(ms, m)| ::
              SetMember(ms, m)[i].key == m.key || exists j | 0 <= j < |ms| :: ms[j].key == SetMember(ms, m)[i].key
  {
    hide ReadNumber, IsNumber;
    if ms != [] && ms[0].key != m.key {
      assert WellFormed(repr, Obj(ms[1..]));
      SetMemberWellFormed(repr, ms[1..], m);
      var rest := SetMember(ms[1..], m);
      forall i | 0 <= i < |rest| ensures rest[i].key != ms[0].key {
        if rest[i].key != m.key {
          var j :| 0 <= j < |ms[1..]| && ms[1..][j].key == rest[i].key;
          assert ms[j + 1].key == rest[i].key;
        }
      }
      var all := SetMember(ms, m);
      forall i | 0 <= i < |all|
        ensures all[i].key == m.key || exists j | 0 <= j < |ms| :: ms[j].key == all[i].key
      {
        if i > 0 && rest[i - 1].key != m.key {
          var j :| 0 <= j < |ms[1..]| && ms[1..][j].key == rest[i - 1].key;
          assert ms[j + 1].key == all[i].key;
        }
      }
    }
  }

  lemma {:induction false} SkipSpaceKeeps(t: Text)
    requires SurrogateFree(t)
    ensures SurrogateFree(SkipSpace(t))
  {
    if t != [] && IsSpace(t[0]) { SkipSpaceKeeps(t[1..]); }
  }

  /** A number that has been read prints as one that reads back the same. */
  lemma ReadNumberWellFormed(repr: Repr, lexeme: Text)
    requires IsNumber(lexeme)
    ensures WellFormed(repr, ReadNumber(repr, lexeme))
  {
    assert IsNumber([48]) && !IsFloat([48]);
    if IsFloat(lexeme) { assert IsRepr(repr); }
    hide NumberLength;
  }

  lemma {:induction false} ReadValueWellFormed(repr: Repr, t: Text)
    requires SurrogateFree(t) && ReadValue(repr, t).Some?
    ensures WellFormed(repr, ReadValue(repr, t).value.0) && SurrogateFree(ReadValue(repr, t).value.1)
    decreases |t|, 0
  {
    if t[0] == QUOTE {
      ReadStringPaired(t[1..]);
    } else if t[0] == OPEN_ARR || t[0] == OPEN_OBJ {
      SkipSpaceKeeps(t[1..]);
      var u := SkipSpace(t[1..]);
      if t[0] == OPEN_ARR && !(u != [] && u[0] == CLOSE_ARR) {
        ReadElemsWellFormed(repr, u, []);
      } else if t[0] == OPEN_OBJ && !(u != [] && u[0] == CLOSE_OBJ) {
        ReadMembersWellFormed(repr, u, []);
      }
    } else if ReadWord(t).None? {
      MatchedIsNumber(t);
      ReadNumberWellFormed(repr, t[..NumberLength(t)]);
    }
  }

  lemma {:induction false} ReadElemsWellFormed(repr: Repr, t: Text, done: seq<Value>)
    requires SurrogateFree(t) && WellFormed(repr, Arr(done)) && ReadElems(repr, t, done).Some?
    ensures WellFormed(repr, ReadElems(repr, t, done).value.0) && SurrogateFree(ReadElems(repr, t, done).value.1)
    decreases |t|, 1
  {
    ReadValueWellFormed(repr, t);
    var (v, rest) := ReadValue(repr, t).value;
    SkipSpaceKeeps(rest);
    var u := SkipSpace(rest);
    assert WellFormed(repr, Arr(done + [v]));
    if u[0] == COMMA {
      SkipSpaceKeeps(u[1..]);
      ReadElemsWellFormed(repr, SkipSpace(u[1..]), done + [v]);
    }
  }

  lemma {:induction false} ReadMembersWellFormed(repr: Repr, t: Text, done: seq<Member>)
    requires SurrogateFree(t) && WellFormed(repr, Obj(done)) && ReadMembers(repr, t, done).Some?
    ensures WellFormed(repr, ReadMembers(repr, t, done).value.0) && SurrogateFree(ReadMembers(repr, t, done).value.1)
    decreases |t|, 2
  {
    ReadStringPaired(t[1..]);
    var (key, afterKey) := ReadString(t[1..]).value;
    SkipSpaceKeeps(afterKey);
    var colon := SkipSpace(afterKey);
    SkipSpaceKeeps(colon[1..]);
    ReadValueWellFormed(repr, SkipSpace(colon[1..]));
    var (m, rest) := ReadMember(repr, t).value;
    SkipSpaceKeeps(rest);
    var u := SkipSpace(rest);
    SetMemberWellFormed(repr, done, m);
    if u[0] == COMMA {
      SkipSpaceKeeps(u[1..]);
      ReadMembersWellFormed(repr, SkipSpace(u[1..]), SetMember(done, m));
    }
  }

  // ---- printed text holds no control character ----

  predicate Printable(t: Text) {
    forall i | 0 <= i < |t| :: 0x20 <= t[i] <= 0x7E
  }

  lemma NumberPrintable(lexeme: Text)
    requires IsNumber(lexeme)
    ensures Printable(lexeme)
  {
    NumberExtends(lexeme);
    assert lexeme[..|lexeme|] == lexeme;
  }

  lemma {:induction false} PrintPrintable(repr: Repr, v: Value)
    requires WellFormed(repr, v)
    ensures Printable(Print(v))
    decreases v, 1
  {
    hide EscapeAll, PrintElems, PrintMembers, NumberLength, ReadNumber, Paired, DistinctKeys;
    match v
    case Literal(_) =>
    case Number(lexeme) => NumberPrintable(lexeme);
    case Str(s) => EscapedIsPrintable(s);
    case Arr(es) => PrintElemsPrintable(repr, es);
    case Obj(ms) => PrintMembersPrintable(repr, ms);
  }

  lemma {:induction false} PrintElemsPrintable(repr: Repr, es: seq<Value>)
    requires forall i | 0 <= i < |es| :: WellFormed(repr, es[i])
    ensures Printable(PrintElems(es))
    decreases es, 0
  {
    if es != [] {
      PrintPrintable(repr, es[0]);
      PrintElemsPrintable(repr, es[1..]);
    }
  }

  lemma {:induction false} PrintMembersPrintable(repr: Repr, ms: seq<Member>)
    requires forall i | 0 <= i < |ms| :: WellFormed(repr, ms[i].value)
    ensures Printable(PrintMembers(ms))
    decreases ms, 0
  {
    if ms != [] {
      EscapedIsPrintable(ms[0].key);
      PrintPrintable(repr, ms[0].value);
      PrintMembersPrintable(repr, ms[1..]);
    }
  }
}
