/**
 The grammar of JSON texts (RFC 8259, with Python's extra words) as concrete syntax trees, and what a tree means, stated
 without the parser. The parser accepts exactly the texts of legal trees, with their meaning; the printer writes a value as
 the text of its shortest tree.
 */
module JsonGrammar {
  import opened Text
  import opened JsonStrings
  import opened JsonNumbers
  import opened JsonStringGrammar
  import opened Json

  datatype Tree =
    | WordTree(word: Word)
    | NumberTree(lexeme: Text)
    | StringTree(pieces: seq<Piece>)
    | ArrayTree(space: Text, elems: seq<Elem>)        // `space` only between empty brackets
    | ObjectTree(space: Text, entries: seq<Entry>)

  datatype Elem = Elem(before: Text, tree: Tree, after: Text)

  datatype Entry = Entry(before: Text, key: seq<Piece>, beforeColon: Text, afterColon: Text, tree: Tree, after: Text)

  predicate AllSpace(t: Text) {
    forall i | 0 <= i < |t| :: t[i] == 32 || t[i] == 9 || t[i] == 10 || t[i] == 13
  }

  predicate Legal(tree: Tree)
    decreases tree, 1
  {
    match tree
    case WordTree(_) => true
    case NumberTree(lexeme) => IsNumber(lexeme)
    case StringTree(pieces) => LegalPieces(pieces)
    case ArrayTree(space, elems) => AllSpace(space) && LegalElems(elems)
    case ObjectTree(space, entries) => AllSpace(space) && LegalEntries(entries)
  }

  predicate LegalElems(es: seq<Elem>)
    decreases es, 0
  {
    es == [] || (AllSpace(es[0].before) && Legal(es[0].tree) && AllSpace(es[0].after) && LegalElems(es[1..]))
  }

  predicate LegalEntries(ms: seq<Entry>)
    decreases ms, 0
  {
    ms == [] ||
    (AllSpace(ms[0].before) && LegalPieces(ms[0].key) && AllSpace(ms[0].beforeColon) && AllSpace(ms[0].afterColon)
     && Legal(ms[0].tree) && AllSpace(ms[0].after) && LegalEntries(ms[1..]))
  }

  /** The text of a tree in front of `rest`. */
  function Show(tree: Tree, rest: Text): Text
    decreases tree, 1
  {
    match tree
    case WordTree(word) => WordText(word) + rest
    case NumberTree(lexeme) => lexeme + rest
    case StringTree(pieces) => [QUOTE] + PiecesText(pieces, [QUOTE] + rest)
    case ArrayTree(space, elems) =>
      [OPEN_ARR] + if elems == [] then space + ([CLOSE_ARR] + rest) else ShowElems(elems, rest)
    case ObjectTree(space, entries) =>
      [OPEN_OBJ] + if entries == [] then space + ([CLOSE_OBJ] + rest) else ShowEntries(entries, rest)
  }

  function ShowElems(es: seq<Elem>, rest: Text): Text
    requires es != []
    decreases es, 0
  {
    var tail := if |es| == 1 then [CLOSE_ARR] + rest else [COMMA] + ShowElems(es[1..], rest);
    es[0].before + Show(es[0].tree, es[0].after + tail)
  }

  /** A key, a colon and a value in front of `rest`. */
  function ShowEntry(e: Entry, rest: Text): Text
    decreases e, 2
  {
    [QUOTE] + PiecesText(e.key, [QUOTE] + (e.beforeColon + ([COLON] + (e.afterColon + Show(e.tree, rest)))))
  }

  function ShowEntries(ms: seq<Entry>, rest: Text): Text
    requires ms != []
    decreases ms, 0
  {
    var tail := if |ms| == 1 then [CLOSE_OBJ] + rest else [COMMA] + ShowEntries(ms[1..], rest);
    ms[0].before + ShowEntry(ms[0], ms[0].after + tail)
  }

  // ---- what a tree means ----

  function Means(repr: Repr, tree: Tree): Value
    requires Legal(tree)
    decreases tree, 1
  {
    match tree
    case WordTree(word) => Literal(word)
    case NumberTree(lexeme) => ReadNumber(repr, lexeme)
    case StringTree(pieces) => Str(Meaning(pieces))
    case ArrayTree(_, elems) => Arr(ElemValues(repr, elems))
    case ObjectTree(_, entries) => Obj(Collect([], EntryValues(repr, entries)))
  }

  function ElemValues(repr: Repr, es: seq<Elem>): (vs: seq<Value>)
    requires LegalElems(es)
    ensures |vs| == |es|
    decreases es, 0
  {
    if es == [] then [] else [Means(repr, es[0].tree)] + ElemValues(repr, es[1..])
  }

  function EntryValues(repr: Repr, ms: seq<Entry>): (vs: seq<Member>)
    requires LegalEntries(ms)
    ensures |vs| == |ms|
    decreases ms, 0
  {
    if ms == [] then [] else [Member(Meaning(ms[0].key), Means(repr, ms[0].tree))] + EntryValues(repr, ms[1..])
  }

  /** The dict that assigning the members one after the other builds. */
  function Collect(done: seq<Member>, ms: seq<Member>): seq<Member>
    decreases |ms|
  {
    if ms == [] then done else Collect(SetMember(done, ms[0]), ms[1..])
  }

  /** A number is a float if it has a fraction or an exponent; an integer keeps its text, except that `-0` is 0. */
  lemma {:induction false} NumberMeans(repr: Repr, lexeme: Text)
    requires IsNumber(lexeme)
    ensures var float := exists i | 0 <= i < |lexeme| :: lexeme[i] == 46 || lexeme[i] == 69 || lexeme[i] == 101;
            ReadNumber(repr, lexeme) ==
            if !float then Number(if lexeme == [45, 48] then [48] else lexeme)
            else if repr(lexeme) == WordText(Infinity) then Literal(Infinity)
            else if repr(lexeme) == WordText(NegativeInfinity) then Literal(NegativeInfinity)
            else Number(repr(lexeme))
  {
    var sign, whole, fraction, exponent := PartsOfNumber(lexeme);
    NumberOfParts(sign, whole, fraction, exponent);
    FloatMarks(sign + whole, fraction, exponent);
    hide IsNumber, WordText, IntegerLength;
  }

  lemma {:induction false} FloatMarks(integer: Text, fraction: Text, exponent: Text)
    requires forall i | 0 <= i < |integer| :: integer[i] == 45 || IsDigit(integer[i])
    requires IsFraction(fraction) && IsExponent(exponent)
    ensures var t := integer + fraction + exponent;
            |t| > |integer| <==> exists i | 0 <= i < |t| :: t[i] == 46 || t[i] == 69 || t[i] == 101
  {
    var t := integer + fraction + exponent;
    if |t| > |integer| { assert t[|integer|] == if fraction != [] then 46 else exponent[0]; }
    assert forall i | 0 <= i < |integer| :: t[i] == integer[i];
  }

  // ---- white space ----

  lemma {:induction false} SkipsAll(space: Text, t: Text)
    requires AllSpace(space) && (t != [] ==> !IsSpace(t[0]))
    ensures SkipSpace(space + t) == t
  {
    if space == [] {
      assert space + t == t;
    } else {
      assert (space + t)[1..] == space[1..] + t;
      SkipsAll(space[1..], t);
    }
  }

  lemma {:induction false} Skipped(t: Text) returns (space: Text)
    ensures AllSpace(space) && t == space + SkipSpace(t)
  {
    if t != [] && IsSpace(t[0]) {
      var more := Skipped(t[1..]);
      space := [t[0]] + more;
      assert t == [t[0]] + t[1..];
    } else {
      space := [];
    }
  }

  lemma {:induction false} SpaceEndsNumber(space: Text, delimiter: CodePoint, rest: Text)
    requires AllSpace(space) && delimiter in {COMMA, CLOSE_ARR, CLOSE_OBJ}
    ensures EndsNumber(space + ([delimiter] + rest)) && EndsNumber(space)
    ensures SkipSpace(space + ([delimiter] + rest)) == [delimiter] + rest
  {
    SkipsAll(space, [delimiter] + rest);
  }

  // ---- the text of a legal tree is read as its meaning ----

  predicate ReadsAsMeant(repr: Repr, tree: Tree, rest: Text)
    requires Legal(tree)
  {
    StartsValue(Show(tree, rest)) && ReadValue(repr, Show(tree, rest)) == Some((Means(repr, tree), rest))
  }

  lemma {:induction false} ReadsTree(repr: Repr, tree: Tree, rest: Text)
    requires Legal(tree) && EndsNumber(rest)
    ensures ReadsAsMeant(repr, tree, rest)
    decreases tree, 1
  {
    hide ReadsAsMeant;
    match tree
    case WordTree(word) => ReadsWord(repr, word, rest);
    case NumberTree(lexeme) => ReadsNumber(repr, lexeme, rest);
    case StringTree(pieces) => ReadsString(repr, pieces, rest);
    case ArrayTree(space, elems) =>
      if elems == [] { ReadsEmpty(repr, space, rest); } else {
        ReadsElems(repr, elems, rest, []);
        ReadsArray(repr, space, elems, rest);
      }
    case ObjectTree(space, entries) =>
      if entries == [] { ReadsEmpty(repr, space, rest); } else {
        ReadsEntries(repr, entries, rest, []);
        ReadsObject(repr, space, entries, rest);
      }
  }

  lemma {:induction false} ReadsWord(repr: Repr, word: Word, rest: Text)
    ensures ReadsAsMeant(repr, WordTree(word), rest)
  {
    ReadPrintedWord(repr, word, rest);
    hide ReadValue;
  }

  lemma {:induction false} ReadsNumber(repr: Repr, lexeme: Text, rest: Text)
    requires IsNumber(lexeme) && EndsNumber(rest)
    ensures ReadsAsMeant(repr, NumberTree(lexeme), rest)
  {
    NumberStart(lexeme);
    ReadLexeme(repr, lexeme, rest);
    hide ReadValue, IsNumber, ReadNumber;
  }

  lemma {:induction false} ReadsString(repr: Repr, pieces: seq<Piece>, rest: Text)
    requires LegalPieces(pieces)
    ensures ReadsAsMeant(repr, StringTree(pieces), rest)
  {
    var t := PiecesText(pieces, [QUOTE] + rest);
    ReadsPieces(pieces, rest);
    assert ([QUOTE] + t)[1..] == t;
    hide PiecesText, ReadString, Meaning, LegalPieces;
  }

  lemma {:induction false} ReadsEmpty(repr: Repr, space: Text, rest: Text)
    requires AllSpace(space)
    ensures ReadsAsMeant(repr, ArrayTree(space, []), rest) && ReadsAsMeant(repr, ObjectTree(space, []), rest)
  {
    var u, v := [CLOSE_ARR] + rest, [CLOSE_OBJ] + rest;
    SkipsAll(space, u);
    SkipsAll(space, v);
    assert ([OPEN_ARR] + (space + u))[1..] == space + u && ([OPEN_OBJ] + (space + v))[1..] == space + v;
    assert u[1..] == rest && v[1..] == rest;
    hide SkipSpace, ReadElems, ReadMembers, ReadString, ReadNumber, NumberLength, ReadWord;
  }

  /** The elements from `t` on, with the white space in front of them skipped. */
  predicate ReadsElemsAs(repr: Repr, es: seq<Elem>, rest: Text, done: seq<Value>)
    requires es != [] && LegalElems(es)
  {
    var u := SkipSpace(ShowElems(es, rest));
    StartsValue(u) && ReadElems(repr, u, done) == Some((Arr(done + ElemValues(repr, es)), rest))
  }

  lemma {:induction false} ReadsArray(repr: Repr, space: Text, es: seq<Elem>, rest: Text)
    requires AllSpace(space) && es != [] && LegalElems(es) && ReadsElemsAs(repr, es, rest, [])
    ensures ReadsAsMeant(repr, ArrayTree(space, es), rest)
  {
    var t := ShowElems(es, rest);
    assert ([OPEN_ARR] + t)[1..] == t;
    assert [] + ElemValues(repr, es) == ElemValues(repr, es);
    hide SkipSpace, ShowElems, ReadElems, ReadMembers, ReadString, ReadNumber, NumberLength, ReadWord, LegalElems, ElemValues;
  }

  lemma {:induction false} ReadsElems(repr: Repr, es: seq<Elem>, rest: Text, done: seq<Value>)
    requires es != [] && LegalElems(es)
    ensures ReadsElemsAs(repr, es, rest, done)
    decreases es, 0
  {
    hide ReadsElemsAs, ReadsAsMeant;
    var e := es[0];
    var v := Means(repr, e.tree);
    if |es| == 1 {
      SpaceEndsNumber(e.after, CLOSE_ARR, rest);
      ReadsTree(repr, e.tree, e.after + ([CLOSE_ARR] + rest));
      ReadsLastElem(repr, es, rest, done);
    } else {
      var next := ShowElems(es[1..], rest);
      SpaceEndsNumber(e.after, COMMA, next);
      ReadsTree(repr, e.tree, e.after + ([COMMA] + next));
      ReadsElems(repr, es[1..], rest, done + [v]);
      ReadsOneElem(repr, es, rest, done);
    }
  }

  lemma {:induction false} ReadsLastElem(repr: Repr, es: seq<Elem>, rest: Text, done: seq<Value>)
    requires |es| == 1 && LegalElems(es) && ReadsAsMeant(repr, es[0].tree, es[0].after + ([CLOSE_ARR] + rest))
    ensures ReadsElemsAs(repr, es, rest, done)
  {
    var e := es[0];
    var tail := [CLOSE_ARR] + rest;
    SkipsAll(e.before, Show(e.tree, e.after + tail));
    SpaceEndsNumber(e.after, CLOSE_ARR, rest);
    assert tail[1..] == rest;
    assert ElemValues(repr, es) == [Means(repr, e.tree)] by { assert es[1..] == []; }
    hide SkipSpace, Show, ReadValue, Means, Legal, ElemValues;
  }

  lemma {:induction false} ReadsOneElem(repr: Repr, es: seq<Elem>, rest: Text, done: seq<Value>)
    requires |es| > 1 && LegalElems(es)
    requires ReadsAsMeant(repr, es[0].tree, es[0].after + ([COMMA] + ShowElems(es[1..], rest)))
    requires ReadsElemsAs(repr, es[1..], rest, done + [Means(repr, es[0].tree)])
    ensures ReadsElemsAs(repr, es, rest, done)
  {
    var e := es[0];
    var next := ShowElems(es[1..], rest);
    var tail := [COMMA] + next;
    SkipsAll(e.before, Show(e.tree, e.after + tail));
    SpaceEndsNumber(e.after, COMMA, next);
    assert tail[1..] == next;
    assert done + [Means(repr, e.tree)] + ElemValues(repr, es[1..]) == done + ElemValues(repr, es);
    assert ShowElems(es, rest) == e.before + Show(e.tree, e.after + tail);
    hide SkipSpace, Show, ShowElems, ReadValue, Means, Legal, LegalElems, ElemValues;
  }

  // ---- objects ----

  /** The entries from `t` on, likewise. */
  predicate ReadsEntriesAs(repr: Repr, ms: seq<Entry>, rest: Text, done: seq<Member>)
    requires ms != [] && LegalEntries(ms)
  {
    var u := SkipSpace(ShowEntries(ms, rest));
    StartsValue(u) && ReadMembers(repr, u, done) == Some((Obj(Collect(done, EntryValues(repr, ms))), rest))
  }

  function FirstMember(repr: Repr, ms: seq<Entry>): Member
    requires ms != [] && LegalEntries(ms)
  {
    Member(Meaning(ms[0].key), Means(repr, ms[0].tree))
  }

  predicate ReadsEntryAs(repr: Repr, ms: seq<Entry>, rest: Text)
    requires ms != [] && LegalEntries(ms)
  {
    var t := ShowEntry(ms[0], rest);
    StartsValue(t) && ReadMember(repr, t) == Some((FirstMember(repr, ms), rest))
  }

  lemma {:induction false} ReadsObject(repr: Repr, space: Text, ms: seq<Entry>, rest: Text)
    requires AllSpace(space) && ms != [] && LegalEntries(ms) && ReadsEntriesAs(repr, ms, rest, [])
    ensures ReadsAsMeant(repr, ObjectTree(space, ms), rest)
  {
    var t := ShowEntries(ms, rest);
    assert ([OPEN_OBJ] + t)[1..] == t;
    hide SkipSpace, ShowEntries, ReadElems, ReadMembers, ReadString, ReadNumber, NumberLength, ReadWord, LegalEntries,
      EntryValues, Collect;
  }

  lemma {:induction false} ReadsEntry(repr: Repr, ms: seq<Entry>, rest: Text)
    requires ms != [] && LegalEntries(ms) && ReadsAsMeant(repr, ms[0].tree, rest)
    ensures ReadsEntryAs(repr, ms, rest)
  {
    var e := ms[0];
    var shown := Show(e.tree, rest);
    var colon := [COLON] + (e.afterColon + shown);
    var body := PiecesText(e.key, [QUOTE] + (e.beforeColon + colon));
    ReadsPieces(e.key, e.beforeColon + colon);
    SkipsAll(e.beforeColon, colon);
    SkipsAll(e.afterColon, shown);
    assert ([QUOTE] + body)[1..] == body && colon[1..] == e.afterColon + shown;
    hide SkipSpace, Show, ReadValue, Means, Meaning, Legal, LegalPieces, ReadString, PiecesText;
  }

  lemma {:induction false} ReadsEntries(repr: Repr, ms: seq<Entry>, rest: Text, done: seq<Member>)
    requires ms != [] && LegalEntries(ms)
    ensures ReadsEntriesAs(repr, ms, rest, done)
    decreases ms, 0
  {
    hide ReadsEntriesAs, ReadsEntryAs, ReadsAsMeant;
    var e := ms[0];
    if |ms| == 1 {
      SpaceEndsNumber(e.after, CLOSE_OBJ, rest);
      ReadsTree(repr, e.tree, e.after + ([CLOSE_OBJ] + rest));
      ReadsEntry(repr, ms, e.after + ([CLOSE_OBJ] + rest));
      ReadsLastEntry(repr, ms, rest, done);
    } else {
      var next := ShowEntries(ms[1..], rest);
      SpaceEndsNumber(e.after, COMMA, next);
      ReadsTree(repr, e.tree, e.after + ([COMMA] + next));
      ReadsEntry(repr, ms, e.after + ([COMMA] + next));
      ReadsEntries(repr, ms[1..], rest, SetMember(done, FirstMember(repr, ms)));
      ReadsOneEntry(repr, ms, rest, done);
    }
  }

  lemma {:induction false} ReadsLastEntry(repr: Repr, ms: seq<Entry>, rest: Text, done: seq<Member>)
    requires |ms| == 1 && LegalEntries(ms) && ReadsEntryAs(repr, ms, ms[0].after + ([CLOSE_OBJ] + rest))
    ensures ReadsEntriesAs(repr, ms, rest, done)
  {
    var e := ms[0];
    var tail := [CLOSE_OBJ] + rest;
    SkipsAll(e.before, ShowEntry(e, e.after + tail));
    SpaceEndsNumber(e.after, CLOSE_OBJ, rest);
    assert tail[1..] == rest;
    assert EntryValues(repr, ms) == [FirstMember(repr, ms)] by { assert ms[1..] == []; }
    assert Collect(done, [FirstMember(repr, ms)]) == SetMember(done, FirstMember(repr, ms)) by {
      assert [FirstMember(repr, ms)][1..] == [];
    }
    hide SkipSpace, ShowEntry, ReadMember, FirstMember, LegalPieces, Legal, EntryValues, Collect, SetMember;
  }

  lemma {:induction false} ReadsOneEntry(repr: Repr, ms: seq<Entry>, rest: Text, done: seq<Member>)
    requires |ms| > 1 && LegalEntries(ms)
    requires ReadsEntryAs(repr, ms, ms[0].after + ([COMMA] + ShowEntries(ms[1..], rest)))
    requires ReadsEntriesAs(repr, ms[1..], rest, SetMember(done, FirstMember(repr, ms)))
    ensures ReadsEntriesAs(repr, ms, rest, done)
  {
    var e := ms[0];
    var next := ShowEntries(ms[1..], rest);
    var tail := [COMMA] + next;
    SkipsAll(e.before, ShowEntry(e, e.after + tail));
    SpaceEndsNumber(e.after, COMMA, next);
    assert tail[1..] == next;
    CollectStep(repr, ms, done);
    assert ShowEntries(ms, rest) == e.before + ShowEntry(e, e.after + tail);
    hide SkipSpace, ShowEntry, ShowEntries, ReadMember, FirstMember, LegalPieces, Legal, LegalEntries, EntryValues, Collect,
      SetMember;
  }

  lemma {:induction false} CollectStep(repr: Repr, ms: seq<Entry>, done: seq<Member>)
    requires ms != [] && LegalEntries(ms)
    ensures Collect(done, EntryValues(repr, ms)) ==
            Collect(SetMember(done, FirstMember(repr, ms)), EntryValues(repr, ms[1..]))
  {
    assert EntryValues(repr, ms)[1..] == EntryValues(repr, ms[1..]);
  }

  // ---- and whatever is read is the text of a legal tree ----

  predicate Explains(repr: Repr, tree: Tree, t: Text)
    requires ReadValue(repr, t).Some?
  {
    Legal(tree) && t == Show(tree, ReadValue(repr, t).value.1) && Means(repr, tree) == ReadValue(repr, t).value.0
  }

  lemma {:induction false} TreeOf(repr: Repr, t: Text) returns (tree: Tree)
    requires ReadValue(repr, t).Some?
    ensures Explains(repr, tree, t)
    decreases |t|, 2
  {
    hide Explains;
    if t[0] == QUOTE {
      tree := StringTreeOf(repr, t);
    } else if t[0] == OPEN_ARR {
      tree := ArrayTreeOf(repr, t);
    } else if t[0] == OPEN_OBJ {
      tree := ObjectTreeOf(repr, t);
    } else {
      tree := AtomTreeOf(repr, t);
    }
  }

  lemma {:induction false} StringTreeOf(repr: Repr, t: Text) returns (tree: Tree)
    requires ReadValue(repr, t).Some? && t[0] == QUOTE
    ensures Explains(repr, tree, t)
  {
    var pieces := PiecesOf(t[1..]);
    tree := StringTree(pieces);
    assert t == [QUOTE] + t[1..];
    hide ReadString, PiecesText, Meaning, LegalPieces;
  }

  lemma {:induction false} ReadAtom(repr: Repr, t: Text)
    requires t != [] && t[0] != QUOTE && t[0] != OPEN_ARR && t[0] != OPEN_OBJ
    ensures ReadValue(repr, t) ==
            if ReadWord(t).Some? then Some((Literal(ReadWord(t).value), t[|WordText(ReadWord(t).value)|..]))
            else if NumberLength(t) > 0 then Some((ReadNumber(repr, t[..NumberLength(t)]), t[NumberLength(t)..])) else None
  {
    hide ReadElems, ReadMembers, ReadString, ReadNumber, NumberLength, ReadWord, SkipSpace;
  }

  lemma {:induction false} ReadBracket(repr: Repr, t: Text)
    requires t != [] && (t[0] == OPEN_ARR || t[0] == OPEN_OBJ)
    ensures var u := SkipSpace(t[1..]);
            ReadValue(repr, t) ==
            if t[0] == OPEN_ARR then
              if u != [] && u[0] == CLOSE_ARR then Some((Arr([]), u[1..])) else ReadElems(repr, u, [])
            else if u != [] && u[0] == CLOSE_OBJ then Some((Obj([]), u[1..])) else ReadMembers(repr, u, [])
  {
    hide ReadElems, ReadMembers, ReadString, ReadNumber, NumberLength, ReadWord, SkipSpace;
  }

  lemma {:induction false} AtomTreeOf(repr: Repr, t: Text) returns (tree: Tree)
    requires ReadValue(repr, t).Some? && t[0] != QUOTE && t[0] != OPEN_ARR && t[0] != OPEN_OBJ
    ensures Explains(repr, tree, t)
  {
    ReadAtom(repr, t);
    hide *;
    if ReadWord(t).Some? {
      var word := ReadWord(t).value;
      tree := WordTree(word);
      WordExplained(repr, t, word, |WordText(word)|);
    } else {
      var n := NumberLength(t);
      MatchedIsNumber(t);
      tree := NumberTree(t[..n]);
      NumberExplained(repr, t, n);
    }
  }

  lemma {:induction false} WordExplained(repr: Repr, t: Text, word: Word, n: nat)
    requires n <= |t| && t[..n] == WordText(word) && ReadValue(repr, t) == Some((Literal(word), t[n..]))
    ensures Explains(repr, WordTree(word), t)
  {
    Rejoin(t, n);
    hide ReadValue, WordText;
  }

  lemma {:induction false} NumberExplained(repr: Repr, t: Text, n: nat)
    requires n <= |t| && IsNumber(t[..n]) && ReadValue(repr, t) == Some((ReadNumber(repr, t[..n]), t[n..]))
    ensures Explains(repr, NumberTree(t[..n]), t)
  {
    Rejoin(t, n);
    hide ReadValue, IsNumber, ReadNumber;
  }

  lemma {:induction false} Rejoin(t: Text, n: nat)
    requires n <= |t|
    ensures t == t[..n] + t[n..]
  {
  }

  lemma {:induction false} ArrayTreeOf(repr: Repr, t: Text) returns (tree: Tree)
    requires ReadValue(repr, t).Some? && t[0] == OPEN_ARR
    ensures Explains(repr, tree, t)
    decreases |t|, 0
  {
    ReadBracket(repr, t);
    hide ReadValue, ReadElems, SkipSpace;
    var space := Skipped(t[1..]);
    var u := SkipSpace(t[1..]);
    assert t == [OPEN_ARR] + (space + u);
    if u != [] && u[0] == CLOSE_ARR {
      tree := ArrayTree(space, []);
      assert u == [CLOSE_ARR] + u[1..];
      assert Legal(tree);
      assert Means(repr, tree) == Arr([]);
      assert t == Show(tree, u[1..]);
    } else {
      var elems := ElemsOf(repr, space, u, []);
      tree := ArrayTree([], elems);
      assert [] + ElemValues(repr, elems) == ElemValues(repr, elems);
      hide ShowElems, LegalElems, ElemValues;
      assert Legal(tree);
      assert Means(repr, tree) == ReadValue(repr, t).value.0;
      assert t == Show(tree, ReadValue(repr, t).value.1);
    }
  }

  lemma {:induction false} ConsElem(repr: Repr, e: Elem, more: seq<Elem>, rest: Text)
    requires AllSpace(e.before) && Legal(e.tree) && AllSpace(e.after) && LegalElems(more)
    ensures var es := [e] + more;
            && LegalElems(es) && ElemValues(repr, es) == [Means(repr, e.tree)] + ElemValues(repr, more)
            && ShowElems(es, rest) ==
               e.before
               + Show(e.tree, e.after + if more == [] then [CLOSE_ARR] + rest else [COMMA] + ShowElems(more, rest))
  {
    assert ([e] + more)[1..] == more;
    hide Show, Means, Legal;
  }

  lemma {:induction false} ReadElemsStep(repr: Repr, t: Text, done: seq<Value>)
    requires ReadElems(repr, t, done).Some?
    ensures ReadValue(repr, t).Some?
    ensures var (v, rest) := ReadValue(repr, t).value;
            var u := SkipSpace(rest);
            && u == [u[0]] + u[1..] && (u[0] == CLOSE_ARR || u[0] == COMMA) && |SkipSpace(u[1..])| < |t|
            && ReadElems(repr, t, done) ==
               if u[0] == CLOSE_ARR then Some((Arr(done + [v]), u[1..]))
               else ReadElems(repr, SkipSpace(u[1..]), done + [v])
  {
    hide ReadValue, SkipSpace;
  }

  /** The elements read from `t`, with `space` put in front of the first. */
  lemma {:induction false} ElemsOf(repr: Repr, space: Text, t: Text, done: seq<Value>) returns (es: seq<Elem>)
    requires ReadElems(repr, t, done).Some? && AllSpace(space)
    ensures es != [] && LegalElems(es)
    ensures space + t == ShowElems(es, ReadElems(repr, t, done).value.1)
    ensures ReadElems(repr, t, done).value.0 == Arr(done + ElemValues(repr, es))
    decreases |t|, 3
  {
    ReadElemsStep(repr, t, done);
    hide *;
    var (v, rest) := ReadValue(repr, t).value;
    var tree := TreeOf(repr, t);
    Explained(repr, tree, t);
    var after := Skipped(rest);
    var u := SkipSpace(rest);
    var end := ReadElems(repr, t, done).value.1;
    var more: seq<Elem> := [];
    if u[0] == CLOSE_ARR {
      NoElems(repr);
      Regroup3(done, v, []);
    } else {
      var next := Skipped(u[1..]);
      more := ElemsOf(repr, next, SkipSpace(u[1..]), done + [v]);
      Regroup3(done, v, ElemValues(repr, more));
    }
    es := [Elem(space, tree, after)] + more;
    ConsElem(repr, Elem(space, tree, after), more, end);
  }

  lemma {:induction false} Explained(repr: Repr, tree: Tree, t: Text)
    requires ReadValue(repr, t).Some? && Explains(repr, tree, t)
    ensures Legal(tree) && t == Show(tree, ReadValue(repr, t).value.1) && Means(repr, tree) == ReadValue(repr, t).value.0
  {
    hide ReadValue, Legal, Show, Means;
  }

  lemma {:induction false} Regroup3(done: seq<Value>, v: Value, vs: seq<Value>)
    ensures done + [v] + vs == done + ([v] + vs) && done + ([v] + []) == done + [v]
  {
  }

  lemma {:induction false} NoElems(repr: Repr)
    ensures LegalElems([]) && ElemValues(repr, []) == []
  {
  }

  lemma {:induction false} ObjectTreeOf(repr: Repr, t: Text) returns (tree: Tree)
    requires ReadValue(repr, t).Some? && t[0] == OPEN_OBJ
    ensures Explains(repr, tree, t)
    decreases |t|, 0
  {
    ReadBracket(repr, t);
    hide ReadValue, ReadMembers, SkipSpace;
    var space := Skipped(t[1..]);
    var u := SkipSpace(t[1..]);
    assert t == [OPEN_OBJ] + (space + u);
    if u != [] && u[0] == CLOSE_OBJ {
      tree := ObjectTree(space, []);
      assert u == [CLOSE_OBJ] + u[1..];
      assert Legal(tree);
      assert Means(repr, tree) == Obj([]);
      assert t == Show(tree, u[1..]);
    } else {
      var entries := EntriesOf(repr, space, u, []);
      tree := ObjectTree([], entries);
      hide ShowEntries, LegalEntries, EntryValues, Collect;
      assert Legal(tree);
      assert Means(repr, tree) == ReadValue(repr, t).value.0;
      assert t == Show(tree, ReadValue(repr, t).value.1);
    }
  }

  lemma {:induction false} EntryOf(repr: Repr, space: Text, t: Text, after: Text, tail: Text) returns (e: Entry)
    requires ReadMember(repr, t).Some? && AllSpace(space) && AllSpace(after) && ReadMember(repr, t).value.1 == after + tail
    ensures LegalEntries([e]) && e.before == space && e.after == after
    ensures t == ShowEntry(e, after + tail) && FirstMember(repr, [e]) == ReadMember(repr, t).value.0
    decreases |t|, 0
  {
    var pieces := PiecesOf(t[1..]);
    var rest := ReadString(t[1..]).value.1;
    var beforeColon := Skipped(rest);
    var u := SkipSpace(rest);
    var afterColon := Skipped(u[1..]);
    var tree := TreeOf(repr, SkipSpace(u[1..]));
    e := Entry(space, pieces, beforeColon, afterColon, tree, after);
    assert t == [QUOTE] + t[1..] && u == [u[0]] + u[1..];
    assert [e][1..] == [];
    hide ReadValue, SkipSpace, Show, Means, Legal, LegalPieces, Meaning, ReadString, PiecesText;
  }

  lemma {:induction false} EntriesOf(repr: Repr, space: Text, t: Text, done: seq<Member>) returns (ms: seq<Entry>)
    requires ReadMembers(repr, t, done).Some? && AllSpace(space)
    ensures ms != [] && LegalEntries(ms)
    ensures space + t == ShowEntries(ms, ReadMembers(repr, t, done).value.1)
    ensures ReadMembers(repr, t, done).value.0 == Obj(Collect(done, EntryValues(repr, ms)))
    decreases |t|, 3
  {
    var (m, rest) := ReadMember(repr, t).value;
    var after := Skipped(rest);
    var u := SkipSpace(rest);
    assert u == [u[0]] + u[1..];
    var first := EntryOf(repr, space, t, after, u);
    hide ReadMember, SkipSpace, ShowEntry, Legal, LegalPieces, Meaning, Means;
    if u[0] == CLOSE_OBJ {
      ms := [first];
      hide FirstMember, SetMember;
      assert ms[1..] == [] && EntryValues(repr, []) == [];
      assert Collect(done, EntryValues(repr, ms)) == SetMember(done, m) by { CollectStep(repr, ms, done); }
    } else {
      var next := Skipped(u[1..]);
      var more := EntriesOf(repr, next, SkipSpace(u[1..]), SetMember(done, m));
      ms := [first] + more;
      assert ms[1..] == more;
      LegalCons(first, more);
      assert FirstMember(repr, ms) == FirstMember(repr, [first]);
      hide FirstMember, LegalEntries, EntryValues, Collect, SetMember;
      CollectStep(repr, ms, done);
    }
  }

  lemma {:induction false} LegalCons(e: Entry, ms: seq<Entry>)
    requires LegalEntries([e]) && LegalEntries(ms)
    ensures LegalEntries([e] + ms)
  {
    assert ([e] + ms)[1..] == ms;
  }

  // ---- whole texts ----

  /** `t` is the text of a legal tree, with white space around it, that means `v`. */
  ghost predicate Denotes(repr: Repr, t: Text, v: Value) {
    exists before, tree, after ::
      AllSpace(before) && Legal(tree) && AllSpace(after) && t == before + Show(tree, after) && v == Means(repr, tree)
  }

  /**
   The parser accepts exactly the texts of legal trees with white space around them, and returns what they mean. In
   particular nothing but white space may follow a value.
   */
  lemma {:induction false} LoadsExactly(repr: Repr, t: Text, v: Value)
    ensures Loads(repr, t) == Some(v) <==> Denotes(repr, t, v)
  {
    hide ReadValue, SkipSpace, Show, Means, Legal;
    if Loads(repr, t) == Some(v) {
      var before := Skipped(t);
      var tree := TreeOf(repr, SkipSpace(t));
      var rest := ReadValue(repr, SkipSpace(t)).value.1;
      var after := Skipped(rest);
      assert after + [] == after == rest;
      assert t == before + Show(tree, after);
    }
    if Denotes(repr, t, v) {
      var before, tree, after :|
        AllSpace(before) && Legal(tree) && AllSpace(after) && t == before + Show(tree, after) && v == Means(repr, tree);
      OnlySpace(after);
      ReadsTree(repr, tree, after);
      SkipsAll(before, Show(tree, after));
    }
  }

  lemma {:induction false} OnlySpace(space: Text)
    requires AllSpace(space)
    ensures EndsNumber(space) && SkipSpace(space) == []
  {
    SkipsAll(space, []);
    assert space + [] == space;
  }

  // ---- repeated keys ----

  /** No later entry has the key of entry `j`. */
  ghost predicate IsLast(entries: seq<Member>, j: nat) {
    j < |entries| && forall k | j < k < |entries| :: entries[k].key != entries[j].key
  }

  /** `key` occurs at `j`, and `other` neither there nor before. */
  ghost predicate IsBefore(entries: seq<Member>, j: nat, key: Text, other: Text) {
    j < |entries| && entries[j].key == key && forall k | 0 <= k <= j :: entries[k].key != other
  }

  ghost predicate HasKey(ms: seq<Member>, key: Text) {
    exists i | 0 <= i < |ms| :: ms[i].key == key
  }

  ghost predicate Covers(entries: seq<Member>, ms: seq<Member>) {
    forall j | 0 <= j < |entries| :: HasKey(ms, entries[j].key)
  }

  ghost predicate IsLastEntry(entries: seq<Member>, m: Member) {
    exists j: nat :: IsLast(entries, j) && entries[j] == m
  }

  ghost predicate LastWins(entries: seq<Member>, ms: seq<Member>) {
    forall i | 0 <= i < |ms| :: IsLastEntry(entries, ms[i])
  }

  ghost predicate ComesBefore(entries: seq<Member>, key: Text, other: Text) {
    exists j: nat :: IsBefore(entries, j, key, other)
  }

  ghost predicate InFirstOrder(entries: seq<Member>, ms: seq<Member>) {
    forall i1, i2 | 0 <= i1 < i2 < |ms| :: ComesBefore(entries, ms[i1].key, ms[i2].key)
  }

  /** Every key once, in the order of the first occurrences, with the value of the last one. */
  ghost predicate Gathers(entries: seq<Member>, ms: seq<Member>) {
    DistinctKeys(ms) && Covers(entries, ms) && LastWins(entries, ms) && InFirstOrder(entries, ms)
  }

  lemma {:induction false} SetMemberIs(ms: seq<Member>, m: Member) returns (p: nat)
    requires HasKey(ms, m.key)
    ensures p < |ms| && ms[p].key == m.key && SetMember(ms, m) == ms[p := m]
    decreases |ms|
  {
    if ms[0].key == m.key {
      p := 0;
    } else {
      var i :| 0 <= i < |ms| && ms[i].key == m.key;
      assert ms[1..][i - 1].key == m.key;
      var q := SetMemberIs(ms[1..], m);
      p := q + 1;
      assert ms[p := m] == [ms[0]] + ms[1..][q := m];
    }
  }

  lemma {:induction false} StillBefore(entries: seq<Member>, m: Member, key: Text, other: Text)
    requires ComesBefore(entries, key, other)
    ensures ComesBefore(entries + [m], key, other)
  {
    var j: nat :| IsBefore(entries, j, key, other);
    assert IsBefore(entries + [m], j, key, other);
  }

  lemma {:induction false} StillLast(entries: seq<Member>, m: Member, x: Member)
    requires IsLastEntry(entries, x) && x.key != m.key
    ensures IsLastEntry(entries + [m], x)
  {
    var j: nat :| IsLast(entries, j) && entries[j] == x;
    assert IsLast(entries + [m], j);
  }

  lemma {:induction false} NewIsLast(entries: seq<Member>, m: Member)
    ensures IsLastEntry(entries + [m], m)
  {
    assert IsLast(entries + [m], |entries|) && (entries + [m])[|entries|] == m;
  }

  lemma {:induction false} BeforeNew(entries: seq<Member>, ms: seq<Member>, m: Member, x: Member)
    requires Covers(entries, ms) && !HasKey(ms, m.key) && IsLastEntry(entries, x)
    ensures ComesBefore(entries + [m], x.key, m.key)
  {
    var j: nat :| IsLast(entries, j) && entries[j] == x;
    forall k | 0 <= k <= j ensures (entries + [m])[k].key != m.key { assert HasKey(ms, entries[k].key); }
    assert IsBefore(entries + [m], j, x.key, m.key);
  }

  lemma {:induction false} KeyAt(ms: seq<Member>, i: nat)
    requires i < |ms|
    ensures HasKey(ms, ms[i].key)
  {
  }

  lemma {:induction false} NewKeyGathers(entries: seq<Member>, ms: seq<Member>, m: Member)
    requires Gathers(entries, ms) && !HasKey(ms, m.key)
    ensures Gathers(entries + [m], ms + [m])
  {
    var all, next := entries + [m], ms + [m];
    KeyAt(next, |ms|);
    StillCovers(entries, ms, next, m);
    forall i | 0 <= i < |ms| ensures ms[i].key != m.key { KeyAt(ms, i); }
    hide HasKey, IsLastEntry, ComesBefore, Covers;
    forall i | 0 <= i < |next| ensures IsLastEntry(all, next[i]) {
      if i < |ms| { StillLast(entries, m, ms[i]); } else { NewIsLast(entries, m); }
    }
    forall i1, i2 | 0 <= i1 < i2 < |next| ensures ComesBefore(all, next[i1].key, next[i2].key) {
      if i2 < |ms| { StillBefore(entries, m, ms[i1].key, ms[i2].key); } else { BeforeNew(entries, ms, m, ms[i1]); }
    }
  }

  lemma {:induction false} StillCovers(entries: seq<Member>, ms: seq<Member>, next: seq<Member>, m: Member)
    requires Covers(entries, ms) && HasKey(next, m.key)
    requires |next| >= |ms| && forall i | 0 <= i < |ms| :: next[i].key == ms[i].key
    ensures Covers(entries + [m], next)
  {
    forall j | 0 <= j < |entries| ensures HasKey(next, entries[j].key) {
      assert HasKey(ms, entries[j].key);
      var i :| 0 <= i < |ms| && ms[i].key == entries[j].key;
      assert next[i].key == entries[j].key;
    }
  }

  lemma {:induction false} OldKeyGathers(entries: seq<Member>, ms: seq<Member>, m: Member, p: nat)
    requires Gathers(entries, ms) && p < |ms| && ms[p].key == m.key
    ensures Gathers(entries + [m], ms[p := m])
  {
    var all, next := entries + [m], ms[p := m];
    assert forall i | 0 <= i < |ms| :: next[i].key == ms[i].key;
    KeyAt(next, p);
    StillCovers(entries, ms, next, m);
    hide HasKey, IsLastEntry, ComesBefore, Covers;
    forall i | 0 <= i < |next| ensures IsLastEntry(all, next[i]) {
      if i != p { StillLast(entries, m, ms[i]); } else { NewIsLast(entries, m); }
    }
    forall i1, i2 | 0 <= i1 < i2 < |next| ensures ComesBefore(all, next[i1].key, next[i2].key) {
      StillBefore(entries, m, ms[i1].key, ms[i2].key);
    }
  }

  lemma {:induction false} SetGathers(entries: seq<Member>, ms: seq<Member>, m: Member)
    requires Gathers(entries, ms)
    ensures Gathers(entries + [m], SetMember(ms, m))
  {
    hide Gathers;
    if HasKey(ms, m.key) {
      var p := SetMemberIs(ms, m);
      OldKeyGathers(entries, ms, m, p);
    } else {
      forall i | 0 <= i < |ms| ensures ms[i].key != m.key { KeyAt(ms, i); }
      SetAbsentMember(ms, m);
      NewKeyGathers(entries, ms, m);
    }
  }

  lemma {:induction false} CollectGathers(done: seq<Member>, ms: seq<Member>, before: seq<Member>)
    requires Gathers(before, done)
    ensures Gathers(before + ms, Collect(done, ms))
    decreases |ms|
  {
    hide Gathers, SetMember;
    if ms == [] {
      assert before + ms == before;
    } else {
      SetGathers(before, done, ms[0]);
      CollectGathers(SetMember(done, ms[0]), ms[1..], before + [ms[0]]);
      assert before + [ms[0]] + ms[1..] == before + ms;
    }
  }

  /** A JSON object's repeated keys: each keeps the place of its first occurrence and the value of its last. */
  lemma {:induction false} LastValueFirstPlace(repr: Repr, space: Text, entries: seq<Entry>)
    requires Legal(ObjectTree(space, entries))
    ensures Means(repr, ObjectTree(space, entries)).Obj?
    ensures Gathers(EntryValues(repr, entries), Means(repr, ObjectTree(space, entries)).members)
  {
    var ms := EntryValues(repr, entries);
    assert Means(repr, ObjectTree(space, entries)) == Obj(Collect([], ms));
    hide *;
    NothingGathers();
    CollectGathers([], ms, []);
    assert [] + ms == ms;
  }

  lemma {:induction false} NothingGathers()
    ensures Gathers([], [])
  {
  }

  // ---- the printer ----

  /** No white space anywhere, and every string in its shortest form. */
  predicate Shortest(tree: Tree)
    decreases tree, 1
  {
    match tree
    case WordTree(_) => true
    case NumberTree(_) => true
    case StringTree(pieces) => AllCanonical(pieces)
    case ArrayTree(space, elems) => space == [] && ShortestElems(elems)
    case ObjectTree(space, entries) => space == [] && ShortestEntries(entries)
  }

  predicate ShortestElems(es: seq<Elem>)
    decreases es, 0
  {
    es == [] || (es[0].before == [] && es[0].after == [] && Shortest(es[0].tree) && ShortestElems(es[1..]))
  }

  predicate ShortestEntries(ms: seq<Entry>)
    decreases ms, 0
  {
    ms == [] ||
    (ms[0].before == ms[0].beforeColon == ms[0].afterColon == ms[0].after == [] && AllCanonical(ms[0].key)
     && Shortest(ms[0].tree) && ShortestEntries(ms[1..]))
  }

  /** How `v` stands in front of `rest`: as the text of a shortest legal tree that means it. */
  predicate Writes(repr: Repr, tree: Tree, v: Value, rest: Text) {
    Legal(tree) && Shortest(tree) && Print(v) + rest == Show(tree, rest) && Means(repr, tree) == v
  }

  lemma {:induction false} WritesTree(repr: Repr, v: Value, rest: Text) returns (tree: Tree)
    requires WellFormed(repr, v)
    ensures Writes(repr, tree, v, rest)
    decreases v, 1
  {
    hide Writes;
    match v
    case Literal(word) =>
      tree := WordTree(word);
      WritesAtom(repr, v, rest);
    case Number(lexeme) =>
      tree := NumberTree(lexeme);
      WritesAtom(repr, v, rest);
    case Str(s) => tree := WritesString(repr, s, rest);
    case Arr(es) =>
      if es == [] {
        tree := ArrayTree([], []);
        WritesEmpty(repr, rest);
      } else {
        var elems := WritesElems(repr, es, rest);
        tree := ArrayTree([], elems);
        WritesArray(repr, es, elems, rest);
      }
    case Obj(ms) =>
      if ms == [] {
        tree := ObjectTree([], []);
        WritesEmpty(repr, rest);
      } else {
        MembersWellFormed(repr, ms);
        var entries := WritesEntries(repr, ms, rest);
        tree := ObjectTree([], entries);
        WritesObject(repr, ms, entries, rest);
      }
  }

  lemma {:induction false} WritesAtom(repr: Repr, v: Value, rest: Text)
    requires WellFormed(repr, v)
    ensures v.Literal? ==> Writes(repr, WordTree(v.word), v, rest)
    ensures v.Number? ==> Writes(repr, NumberTree(v.lexeme), v, rest)
  {
    hide IsNumber, ReadNumber, WordText;
  }

  lemma {:induction false} WritesString(repr: Repr, s: Text, rest: Text) returns (tree: Tree)
    requires Paired(s)
    ensures Writes(repr, tree, Str(s), rest)
  {
    var pieces := WritesCanonically(s, [QUOTE] + rest);
    tree := StringTree(pieces);
    hide EscapeAll, PiecesText, Meaning, LegalPieces, Canonical;
    assert PrintString(s) + rest == [QUOTE] + (EscapeAll(s) + ([QUOTE] + rest));
  }

  lemma {:induction false} WritesEmpty(repr: Repr, rest: Text)
    ensures Writes(repr, ArrayTree([], []), Arr([]), rest) && Writes(repr, ObjectTree([], []), Obj([]), rest)
  {
    var a, o := ArrayTree([], []), ObjectTree([], []);
    assert Legal(a) && Shortest(a) && Legal(o) && Shortest(o);
    assert Print(Arr([])) + rest == Show(a, rest) && Print(Obj([])) + rest == Show(o, rest);
  }

  /** The elements of an array up to its closing bracket, likewise. */
  predicate WritesAs(repr: Repr, elems: seq<Elem>, es: seq<Value>, rest: Text) {
    && elems != [] && LegalElems(elems) && ShortestElems(elems) && ElemValues(repr, elems) == es
    && PrintElems(es) + ([CLOSE_ARR] + rest) == ShowElems(elems, rest)
  }

  lemma {:induction false} WritesArray(repr: Repr, es: seq<Value>, elems: seq<Elem>, rest: Text)
    requires es != [] && WritesAs(repr, elems, es, rest)
    ensures Writes(repr, ArrayTree([], elems), Arr(es), rest)
  {
    PrintBracketed(es, [], rest);
    hide Print, PrintElems, ShowElems, LegalElems, ShortestElems, ElemValues;
  }

  lemma {:induction false} WritesElems(repr: Repr, es: seq<Value>, rest: Text) returns (elems: seq<Elem>)
    requires es != [] && forall i | 0 <= i < |es| :: WellFormed(repr, es[i])
    ensures WritesAs(repr, elems, es, rest)
    decreases es, 0
  {
    hide Writes, WritesAs, WellFormed;
    if |es| == 1 {
      var tree := WritesTree(repr, es[0], [CLOSE_ARR] + rest);
      elems := [Elem([], tree, [])] + [];
      WritesLastElem(repr, es, tree, rest);
    } else {
      var more := WritesElems(repr, es[1..], rest);
      assert more != [] by { NotEmpty(repr, more, es[1..], rest); }
      var tree := WritesTree(repr, es[0], [COMMA] + ShowElems(more, rest));
      elems := [Elem([], tree, [])] + more;
      WritesOneElem(repr, es, tree, more, rest);
    }
  }

  lemma {:induction false} NotEmpty(repr: Repr, elems: seq<Elem>, es: seq<Value>, rest: Text)
    requires WritesAs(repr, elems, es, rest)
    ensures elems != []
  {
  }

  lemma {:induction false} FirstElem(repr: Repr, tree: Tree, more: seq<Elem>, rest: Text)
    requires Legal(tree) && Shortest(tree) && LegalElems(more) && ShortestElems(more)
    ensures var elems := [Elem([], tree, [])] + more;
            && LegalElems(elems) && ShortestElems(elems)
            && ElemValues(repr, elems) == [Means(repr, tree)] + ElemValues(repr, more)
            && ShowElems(elems, rest) ==
               Show(tree, if more == [] then [CLOSE_ARR] + rest else [COMMA] + ShowElems(more, rest))
  {
    ConsElem(repr, Elem([], tree, []), more, rest);
    assert ([Elem([], tree, [])] + more)[1..] == more;
    var tail := if more == [] then [CLOSE_ARR] + rest else [COMMA] + ShowElems(more, rest);
    assert [] + tail == tail && [] + Show(tree, tail) == Show(tree, tail);
    hide Show, ShowElems, Means, Legal, LegalElems, ElemValues, Shortest;
  }

  lemma {:induction false} WritesLastElem(repr: Repr, es: seq<Value>, tree: Tree, rest: Text)
    requires |es| == 1 && Writes(repr, tree, es[0], [CLOSE_ARR] + rest)
    ensures WritesAs(repr, [Elem([], tree, [])] + [], es, rest)
  {
    hide Print, PrintElems, Show, ShowElems, Means, Legal, LegalElems, Shortest, ElemValues;
    NoElems(repr);
    FirstElem(repr, tree, [], rest);
    PrintElemsThen(es, [CLOSE_ARR] + rest);
    assert es == [es[0]] + [];
  }

  lemma {:induction false} WritesOneElem(repr: Repr, es: seq<Value>, tree: Tree, more: seq<Elem>, rest: Text)
    requires |es| > 1 && WritesAs(repr, more, es[1..], rest)
    requires Writes(repr, tree, es[0], [COMMA] + ShowElems(more, rest))
    ensures WritesAs(repr, [Elem([], tree, [])] + more, es, rest)
  {
    hide Print, PrintElems, Show, ShowElems, Means, Legal, LegalElems, Shortest, ShortestElems, ElemValues;
    FirstElem(repr, tree, more, rest);
    PrintElemsThen(es, [CLOSE_ARR] + rest);
    assert es == [es[0]] + es[1..];
  }

  // ---- objects ----

  predicate WritesEntriesAs(repr: Repr, entries: seq<Entry>, ms: seq<Member>, rest: Text) {
    && entries != [] && LegalEntries(entries) && ShortestEntries(entries) && EntryValues(repr, entries) == ms
    && PrintMembers(ms) + ([CLOSE_OBJ] + rest) == ShowEntries(entries, rest)
  }

  predicate WritesEntryAs(repr: Repr, e: Entry, m: Member, rest: Text) {
    && LegalEntries([e]) && ShortestEntries([e]) && FirstMember(repr, [e]) == m
    && PrintMember(m) + rest == ShowEntry(e, rest)
  }

  /** Members with different keys stay as they are. */
  lemma {:induction false} CollectDistinct(done: seq<Member>, ms: seq<Member>)
    requires DistinctKeys(done + ms)
    ensures Collect(done, ms) == done + ms
    decreases |ms|
  {
    if ms == [] {
      assert done + ms == done;
    } else {
      SetFreshMember(done, ms);
      assert done + [ms[0]] + ms[1..] == done + ms;
      CollectDistinct(done + [ms[0]], ms[1..]);
    }
  }

  lemma {:induction false} WritesObject(repr: Repr, ms: seq<Member>, entries: seq<Entry>, rest: Text)
    requires ms != [] && DistinctKeys(ms) && WritesEntriesAs(repr, entries, ms, rest)
    ensures Writes(repr, ObjectTree([], entries), Obj(ms), rest)
  {
    PrintBracketed([], ms, rest);
    assert Collect([], ms) == ms by {
      assert [] + ms == ms;
      CollectDistinct([], ms);
    }
    hide Print, PrintMembers, ShowEntries, LegalEntries, ShortestEntries, EntryValues, Collect, DistinctKeys;
    var tree := ObjectTree([], entries);
    assert Legal(tree) && Shortest(tree);
    assert Means(repr, tree) == Obj(ms);
    assert Show(tree, rest) == [OPEN_OBJ] + ShowEntries(entries, rest);
  }

  lemma {:induction false} MemberText(m: Member, rest: Text)
    ensures PrintMember(m) + rest == [QUOTE] + (EscapeAll(m.key) + ([QUOTE] + ([COLON] + (Print(m.value) + rest))))
  {
    hide Print, EscapeAll;
    var shown := [COLON] + (Print(m.value) + rest);
    assert PrintMember(m) + rest == PrintString(m.key) + shown;
    assert PrintString(m.key) + shown == [QUOTE] + (EscapeAll(m.key) + ([QUOTE] + shown));
  }

  lemma {:induction false} EntryShown(key: seq<Piece>, tree: Tree, rest: Text)
    ensures ShowEntry(Entry([], key, [], [], tree, []), rest) ==
            [QUOTE] + PiecesText(key, [QUOTE] + ([COLON] + Show(tree, rest)))
  {
    hide Show, PiecesText;
    var shown := Show(tree, rest);
    assert [] + shown == shown && [] + ([COLON] + shown) == [COLON] + shown;
  }

  lemma {:induction false} WritesEntry(repr: Repr, m: Member, tree: Tree, rest: Text) returns (e: Entry)
    requires Paired(m.key) && Writes(repr, tree, m.value, rest)
    ensures WritesEntryAs(repr, e, m, rest)
  {
    hide Print, Show, Means, Legal, Shortest, EscapeAll, PiecesText, Meaning, LegalPieces, Canonical, PrintMember, ShowEntry,
      Paired;
    var key := WritesCanonically(m.key, [QUOTE] + ([COLON] + Show(tree, rest)));
    e := Entry([], key, [], [], tree, []);
    MemberText(m, rest);
    EntryShown(key, tree, rest);
    LegalAlone(e);
  }

  lemma {:induction false} LegalAlone(e: Entry)
    requires e.before == e.beforeColon == e.afterColon == e.after == [] && AllCanonical(e.key) && Legal(e.tree) && Shortest(e.tree)
    ensures LegalEntries([e]) && ShortestEntries([e])
  {
    hide Legal, LegalPieces, Shortest, Canonical;
    assert [e][1..] == [];
  }

  lemma {:induction false} WritesEntries(repr: Repr, ms: seq<Member>, rest: Text) returns (entries: seq<Entry>)
    requires ms != [] && forall i | 0 <= i < |ms| :: Paired(ms[i].key) && WellFormed(repr, ms[i].value)
    ensures WritesEntriesAs(repr, entries, ms, rest)
    decreases ms, 0
  {
    hide Writes, WritesEntriesAs, WritesEntryAs, WellFormed, Paired;
    if |ms| == 1 {
      var tree := WritesTree(repr, ms[0].value, [CLOSE_OBJ] + rest);
      var e := WritesEntry(repr, ms[0], tree, [CLOSE_OBJ] + rest);
      entries := [e] + [];
      WritesLastEntry(repr, ms, e, rest);
    } else {
      var more := WritesEntries(repr, ms[1..], rest);
      assert more != [] by { NoneMissing(repr, more, ms[1..], rest); }
      var tree := WritesTree(repr, ms[0].value, [COMMA] + ShowEntries(more, rest));
      var e := WritesEntry(repr, ms[0], tree, [COMMA] + ShowEntries(more, rest));
      entries := [e] + more;
      WritesOneEntry(repr, ms, e, more, rest);
    }
  }

  lemma {:induction false} NoneMissing(repr: Repr, entries: seq<Entry>, ms: seq<Member>, rest: Text)
    requires WritesEntriesAs(repr, entries, ms, rest)
    ensures entries != []
  {
  }

  lemma {:induction false} FirstEntry(repr: Repr, e: Entry, more: seq<Entry>, rest: Text)
    requires LegalEntries([e]) && ShortestEntries([e]) && LegalEntries(more) && ShortestEntries(more)
    ensures var entries := [e] + more;
            && LegalEntries(entries) && ShortestEntries(entries)
            && EntryValues(repr, entries) == [FirstMember(repr, [e])] + EntryValues(repr, more)
            && ShowEntries(entries, rest) ==
               ShowEntry(e, if more == [] then [CLOSE_OBJ] + rest else [COMMA] + ShowEntries(more, rest))
  {
    var entries := [e] + more;
    assert entries[0] == e && entries[1..] == more;
    LegalCons(e, more);
    var tail := if more == [] then [CLOSE_OBJ] + rest else [COMMA] + ShowEntries(more, rest);
    assert [] + tail == tail && [] + ShowEntry(e, tail) == ShowEntry(e, tail);
    hide ShowEntry, Means, Meaning, Legal, LegalPieces, Shortest, AllCanonical;
  }

  lemma {:induction false} WritesLastEntry(repr: Repr, ms: seq<Member>, e: Entry, rest: Text)
    requires |ms| == 1 && WritesEntryAs(repr, e, ms[0], [CLOSE_OBJ] + rest)
    ensures WritesEntriesAs(repr, [e] + [], ms, rest)
  {
    FirstEntry(repr, e, [], rest);
    PrintMembersThen(ms, [CLOSE_OBJ] + rest);
    assert EntryValues(repr, []) == [];
    assert ms == [ms[0]] + [];
    hide PrintMember, PrintMembers, ShowEntry, ShowEntries, FirstMember, LegalEntries, ShortestEntries, EntryValues;
  }

  lemma {:induction false} WritesOneEntry(repr: Repr, ms: seq<Member>, e: Entry, more: seq<Entry>, rest: Text)
    requires |ms| > 1 && WritesEntriesAs(repr, more, ms[1..], rest)
    requires WritesEntryAs(repr, e, ms[0], [COMMA] + ShowEntries(more, rest))
    ensures WritesEntriesAs(repr, [e] + more, ms, rest)
  {
    FirstEntry(repr, e, more, rest);
    PrintMembersThen(ms, [CLOSE_OBJ] + rest);
    assert [ms[0]] + ms[1..] == ms;
    hide PrintMember, PrintMembers, ShowEntry, ShowEntries, FirstMember, LegalEntries, ShortestEntries, EntryValues;
  }

  /** The printer writes every value the parser can produce as the text of a shortest tree that means it. */
  lemma {:induction false} PrintIsShortest(repr: Repr, v: Value) returns (tree: Tree)
    requires WellFormed(repr, v)
    ensures Legal(tree) && Shortest(tree) && Print(v) == Show(tree, []) && Means(repr, tree) == v
  {
    tree := WritesTree(repr, v, []);
    assert Print(v) + [] == Print(v);
  }

  /** So parsing printed text gives back the value, for every value the parser can produce. */
  lemma {:induction false} LoadsPrint(repr: Repr, v: Value)
    requires WellFormed(repr, v)
    ensures Loads(repr, Print(v)) == Some(v)
  {
    hide Print, Show, Means, Legal, Shortest, WellFormed, ReadValue, SkipSpace;
    var tree := PrintIsShortest(repr, v);
    var none: Text := [];
    assert AllSpace(none) && Print(v) == none + Show(tree, none);
    assert Denotes(repr, Print(v), v);
    LoadsExactly(repr, Print(v), v);
  }

  /** And one parse makes a text canonical: printing what was read and reading it again changes nothing. */
  lemma {:induction false} LoadsIsIdempotent(repr: Repr, t: Text)
    requires SurrogateFree(t) && Loads(repr, t).Some?
    ensures WellFormed(repr, Loads(repr, t).value)
    ensures Loads(repr, Print(Loads(repr, t).value)) == Loads(repr, t)
  {
    SkipSpaceKeeps(t);
    ReadValueWellFormed(repr, SkipSpace(t));
    LoadsPrint(repr, Loads(repr, t).value);
  }
}
