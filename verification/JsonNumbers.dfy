/**
 JSON numbers as `json.loads` scans them: the longest match of an integer part, an optional fraction and an
 optional exponent.
 */
module JsonNumbers {
  import opened Text

  predicate IsDigit(c: CodePoint) { 48 <= c <= 57 }

  /** Characters that can extend a number; anything else ends it. */
  predicate ExtendsNumber(c: CodePoint) {
    IsDigit(c) || c == 43 || c == 45 || c == 46 || c == 69 || c == 101
  }

  predicate AllExtendNumber(t: Text) {
    forall i | 0 <= i < |t| :: ExtendsNumber(t[i])
  }

  predicate EndsNumber(rest: Text) {
    rest != [] ==> !ExtendsNumber(rest[0])
  }

  function DigitRun(t: Text): (n: nat)
    ensures n <= |t|
    ensures forall i | 0 <= i < n :: IsDigit(t[i])
  {
    if t == [] || !IsDigit(t[0]) then 0 else 1 + DigitRun(t[1..])
  }

  function UnsignedLength(t: Text): (n: nat)
    ensures n <= |t|
  {
    if t == [] then 0 else if t[0] == 48 then 1 else DigitRun(t)
  }

  function IntegerLength(t: Text): (n: nat)
    ensures n <= |t|
  {
    if t != [] && t[0] == 45 then (if UnsignedLength(t[1..]) == 0 then 0 else 1 + UnsignedLength(t[1..]))
    else UnsignedLength(t)
  }

  function FractionLength(t: Text): (n: nat)
    ensures n <= |t|
  {
    if t != [] && t[0] == 46 && DigitRun(t[1..]) > 0 then 1 + DigitRun(t[1..]) else 0
  }

  /** Where an exponent's digits start: after the `e` and a sign, if there is one. */
  function DigitsStart(t: Text): (n: nat)
    requires t != []
    ensures 1 <= n <= |t|
  {
    if |t| > 1 && (t[1] == 43 || t[1] == 45) then 2 else 1
  }

  function ExponentLength(t: Text): (n: nat)
    ensures n <= |t|
  {
    if t == [] || (t[0] != 69 && t[0] != 101) || DigitRun(t[DigitsStart(t)..]) == 0 then 0
    else DigitsStart(t) + DigitRun(t[DigitsStart(t)..])
  }

  /** How much of `t` is a number; 0 when none starts here. */
  function NumberLength(t: Text): (n: nat)
    ensures n <= |t|
  {
    var i := IntegerLength(t);
    if i == 0 then 0
    else var f := FractionLength(t[i..]);
         i + f + ExponentLength(t[i + f..])
  }

  predicate IsNumber(lexeme: Text) {
    lexeme != [] && NumberLength(lexeme) == |lexeme|
  }

  // ---- a number is made of characters that can extend one ----

  lemma AppendExtends(t: Text, m: nat, n: nat)
    requires m <= n <= |t| && AllExtendNumber(t[..m]) && AllExtendNumber(t[m..][..n - m])
    ensures AllExtendNumber(t[..n])
  {
    assert t[..n] == t[..m] + t[m..][..n - m];
  }

  lemma DigitsExtend(t: Text)
    ensures AllExtendNumber(t[..DigitRun(t)])
  {
  }

  lemma IntegerExtends(t: Text)
    ensures AllExtendNumber(t[..IntegerLength(t)])
  {
    DigitsExtend(t);
    if t != [] && t[0] == 45 {
      DigitsExtend(t[1..]);
      if IntegerLength(t) > 0 { AppendExtends(t, 1, IntegerLength(t)); }
    }
  }

  lemma FractionExtends(t: Text)
    ensures AllExtendNumber(t[..FractionLength(t)])
  {
    if FractionLength(t) > 0 {
      DigitsExtend(t[1..]);
      AppendExtends(t, 1, FractionLength(t));
    }
  }

  lemma ExponentExtends(t: Text)
    ensures AllExtendNumber(t[..ExponentLength(t)])
  {
    if ExponentLength(t) > 0 {
      DigitsExtend(t[DigitsStart(t)..]);
      AppendExtends(t, DigitsStart(t), ExponentLength(t));
    }
  }

  lemma NumberExtends(t: Text)
    ensures AllExtendNumber(t[..NumberLength(t)])
  {
    if NumberLength(t) > 0 {
      var i := IntegerLength(t);
      var f := FractionLength(t[i..]);
      IntegerExtends(t);
      FractionExtends(t[i..]);
      ExponentExtends(t[i + f..]);
      hide IntegerLength, FractionLength, ExponentLength, AllExtendNumber;
      AppendExtends(t, i, i + f);
      AppendExtends(t, i + f, NumberLength(t));
    }
  }

  // ---- a number stays the number it is when something that cannot extend it follows ----

  lemma {:induction false} DigitRunStable(a: Text, rest: Text)
    requires EndsNumber(rest)
    ensures DigitRun(a + rest) == DigitRun(a)
  {
    if a == [] {
      assert a + rest == rest;
    } else {
      assert (a + rest)[1..] == a[1..] + rest;
      DigitRunStable(a[1..], rest);
    }
  }

  lemma UnsignedStable(a: Text, rest: Text)
    requires EndsNumber(rest)
    ensures UnsignedLength(a + rest) == UnsignedLength(a)
  {
    DigitRunStable(a, rest);
    if a == [] { assert a + rest == rest; }
  }

  lemma IntegerStable(a: Text, rest: Text)
    requires EndsNumber(rest)
    ensures IntegerLength(a + rest) == IntegerLength(a)
  {
    UnsignedStable(a, rest);
    if a == [] {
      assert a + rest == rest;
    } else {
      assert (a + rest)[1..] == a[1..] + rest;
      UnsignedStable(a[1..], rest);
    }
  }

  lemma FractionStable(a: Text, rest: Text)
    requires EndsNumber(rest)
    ensures FractionLength(a + rest) == FractionLength(a)
  {
    if a == [] {
      assert a + rest == rest;
    } else {
      assert (a + rest)[1..] == a[1..] + rest;
      DigitRunStable(a[1..], rest);
    }
  }

  lemma ExponentStable(a: Text, rest: Text)
    requires EndsNumber(rest)
    ensures ExponentLength(a + rest) == ExponentLength(a)
  {
    if a == [] {
      assert a + rest == rest;
    } else {
      assert DigitsStart(a + rest) == DigitsStart(a);
      assert (a + rest)[DigitsStart(a)..] == a[DigitsStart(a)..] + rest;
      DigitRunStable(a[DigitsStart(a)..], rest);
    }
  }

  lemma NumberStable(a: Text, rest: Text)
    requires IsNumber(a) && EndsNumber(rest)
    ensures NumberLength(a + rest) == |a|
  {
    hide IntegerLength, FractionLength, ExponentLength, EndsNumber;
    IntegerStable(a, rest);
    var i := IntegerLength(a);
    assert (a + rest)[i..] == a[i..] + rest;
    FractionStable(a[i..], rest);
    var f := FractionLength(a[i..]);
    assert (a + rest)[i + f..] == a[i + f..] + rest;
    ExponentStable(a[i + f..], rest);
  }

  // ---- what was matched is itself a number ----

  lemma {:induction false} DigitRunOfPrefix(t: Text, k: nat)
    requires k <= |t|
    ensures DigitRun(t[..k]) == if k < DigitRun(t) then k else DigitRun(t)
  {
    if k > 0 && IsDigit(t[0]) {
      assert t[..k][1..] == t[1..][..k - 1];
      DigitRunOfPrefix(t[1..], k - 1);
    }
  }

  lemma UnsignedOfPrefix(t: Text, k: nat)
    requires UnsignedLength(t) <= k <= |t|
    ensures UnsignedLength(t[..k]) == UnsignedLength(t)
  {
    DigitRunOfPrefix(t, k);
  }

  lemma IntegerOfPrefix(t: Text, k: nat)
    requires 0 < IntegerLength(t) <= k <= |t|
    ensures IntegerLength(t[..k]) == IntegerLength(t)
  {
    UnsignedOfPrefix(t, if t[0] == 45 then |t| else k);
    if t[0] == 45 {
      assert t[..k][1..] == t[1..][..k - 1];
      UnsignedOfPrefix(t[1..], k - 1);
    }
  }

  lemma FractionOfPrefix(t: Text, k: nat)
    requires FractionLength(t) <= k <= |t|
    requires FractionLength(t) == 0 ==> k == 0 || t[0] != 46
    ensures FractionLength(t[..k]) == FractionLength(t)
  {
    if k > 0 {
      assert t[..k][1..] == t[1..][..k - 1];
      DigitRunOfPrefix(t[1..], k - 1);
    }
  }

  lemma ExponentOfPrefix(t: Text)
    ensures ExponentLength(t[..ExponentLength(t)]) == ExponentLength(t)
  {
    var k := ExponentLength(t);
    if k > 0 {
      var start := DigitsStart(t);
      assert DigitsStart(t[..k]) == start;
      assert t[..k][start..] == t[start..][..k - start];
      DigitRunOfPrefix(t[start..], k - start);
    }
  }

  lemma PrefixThenSuffix(t: Text, n: nat, i: nat)
    requires i <= n <= |t|
    ensures t[..n][i..] == t[i..][..n - i]
  {
  }

  lemma FractionOfLexeme(t: Text, i: nat, n: nat)
    requires i <= n <= |t| && n == i + FractionLength(t[i..]) + ExponentLength(t[i + FractionLength(t[i..])..])
    ensures FractionLength(t[..n][i..]) == FractionLength(t[i..])
  {
    PrefixThenSuffix(t, n, i);
    var f := FractionLength(t[i..]);
    if f == 0 && n > i { assert t[i + f..][0] == t[i..][0]; }
    FractionOfPrefix(t[i..], n - i);
  }

  lemma ExponentOfLexeme(t: Text, k: nat, n: nat)
    requires k <= n <= |t| && n == k + ExponentLength(t[k..])
    ensures ExponentLength(t[..n][k..]) == n - k
  {
    PrefixThenSuffix(t, n, k);
    ExponentOfPrefix(t[k..]);
  }

  lemma MatchedIsNumber(t: Text)
    requires NumberLength(t) > 0
    ensures IsNumber(t[..NumberLength(t)])
  {
    var n, i := NumberLength(t), IntegerLength(t);
    IntegerOfPrefix(t, n);
    FractionOfLexeme(t, i, n);
    ExponentOfLexeme(t, i + FractionLength(t[i..]), n);
  }

  // ---- the grammar of numbers ----

  predicate Digits(t: Text) { t != [] && forall i | 0 <= i < |t| :: 48 <= t[i] <= 57 }

  predicate IsWhole(t: Text) { t == [48] || (Digits(t) && t[0] != 48) }

  predicate IsFraction(t: Text) { t == [] || (t[0] == 46 && Digits(t[1..])) }

  predicate IsExponent(t: Text) {
    t == [] || ((t[0] == 101 || t[0] == 69) && (Digits(t[1..]) || (|t| > 1 && (t[1] == 43 || t[1] == 45) && Digits(t[2..]))))
  }

  lemma {:induction false} AllDigits(t: Text)
    ensures DigitRun(t) == |t| <==> t == [] || Digits(t)
  {
    if t != [] {
      AllDigits(t[1..]);
      if Digits(t) { assert t[1..] == [] || Digits(t[1..]); }
      if t[1..] == [] && IsDigit(t[0]) { assert Digits(t); }
    }
  }

  lemma {:induction false} DigitsThen(digits: Text, rest: Text)
    requires Digits(digits) && (rest != [] ==> !IsDigit(rest[0]))
    ensures DigitRun(digits + rest) == |digits|
  {
    assert (digits + rest)[1..] == digits[1..] + rest;
    if |digits| > 1 { DigitsThen(digits[1..], rest); } else { assert digits[1..] + rest == rest; }
  }

  lemma RunIsDigits(t: Text)
    requires DigitRun(t) > 0
    ensures Digits(t[..DigitRun(t)])
  {
  }

  lemma WholeThen(whole: Text, rest: Text)
    requires IsWhole(whole) && (rest != [] ==> !IsDigit(rest[0]))
    ensures UnsignedLength(whole + rest) == |whole| && (whole + rest)[0] != 45
  {
    if whole != [48] { DigitsThen(whole, rest); }
  }

  lemma IntegerThen(sign: Text, whole: Text, rest: Text)
    requires (sign == [] || sign == [45]) && IsWhole(whole) && (rest != [] ==> !IsDigit(rest[0]))
    ensures IntegerLength(sign + whole + rest) == |sign + whole|
  {
    WholeThen(whole, rest);
    if sign == [] {
      assert sign + whole + rest == whole + rest;
    } else {
      assert (sign + whole + rest)[1..] == whole + rest;
    }
  }

  lemma FractionThen(fraction: Text, exponent: Text)
    requires IsFraction(fraction) && IsExponent(exponent)
    ensures FractionLength(fraction + exponent) == |fraction|
  {
    if fraction == [] {
      assert fraction + exponent == exponent;
    } else {
      assert (fraction + exponent)[1..] == fraction[1..] + exponent;
      DigitsThen(fraction[1..], exponent);
    }
  }

  lemma WholeExponent(exponent: Text)
    requires IsExponent(exponent)
    ensures ExponentLength(exponent) == |exponent|
  {
    if exponent != [] {
      AllDigits(exponent[DigitsStart(exponent)..]);
    }
  }

  lemma NumberOfParts(sign: Text, whole: Text, fraction: Text, exponent: Text)
    requires (sign == [] || sign == [45]) && IsWhole(whole) && IsFraction(fraction) && IsExponent(exponent)
    ensures IsNumber(sign + whole + fraction + exponent)
    ensures IntegerLength(sign + whole + fraction + exponent) == |sign + whole|
  {
    NotADigit(fraction, exponent);
    assert whole != [];
    hide *;
    IntegerThen(sign, whole, fraction + exponent);
    FractionThen(fraction, exponent);
    WholeExponent(exponent);
    Slices(sign + whole, fraction, exponent);
    LengthsAddUp(sign + whole + fraction + exponent, |sign + whole|, |fraction|);
  }

  lemma LengthsAddUp(t: Text, i: nat, f: nat)
    requires 0 < i <= i + f <= |t| && IntegerLength(t) == i && FractionLength(t[i..]) == f
    requires ExponentLength(t[i + f..]) == |t| - i - f
    ensures IsNumber(t)
  {
  }

  lemma NotADigit(fraction: Text, exponent: Text)
    requires IsFraction(fraction) && IsExponent(exponent)
    ensures fraction + exponent != [] ==> !IsDigit((fraction + exponent)[0])
  {
  }

  lemma Slices(a: Text, b: Text, c: Text)
    ensures (a + b + c)[|a|..] == b + c && (a + b + c)[|a| + |b|..] == c && a + b + c == a + (b + c)
  {
  }

  lemma UnsignedIsWhole(t: Text)
    requires UnsignedLength(t) > 0
    ensures IsWhole(t[..UnsignedLength(t)])
  {
    if t[0] != 48 { RunIsDigits(t); }
  }

  lemma PartsOfNumber(t: Text) returns (sign: Text, whole: Text, fraction: Text, exponent: Text)
    requires IsNumber(t)
    ensures (sign == [] || sign == [45]) && IsWhole(whole) && IsFraction(fraction) && IsExponent(exponent)
    ensures t == sign + whole + fraction + exponent
  {
    var i := IntegerLength(t);
    sign, whole := IntegerParts(t);
    var f := FractionLength(t[i..]);
    fraction, exponent := t[i..][..f], t[i + f..];
    FractionIs(t[i..]);
    ExponentIs(exponent);
    hide *;
    Cut(t, i, f);
  }

  lemma Cut(t: Text, i: nat, f: nat)
    requires i + f <= |t|
    ensures t == t[..i] + t[i..][..f] + t[i + f..]
  {
  }

  lemma IntegerParts(t: Text) returns (sign: Text, whole: Text)
    requires IntegerLength(t) > 0
    ensures (sign == [] || sign == [45]) && IsWhole(whole) && sign + whole == t[..IntegerLength(t)]
  {
    if t[0] == 45 {
      sign, whole := [45], t[1..][..IntegerLength(t) - 1];
      UnsignedIsWhole(t[1..]);
    } else {
      sign, whole := [], t[..IntegerLength(t)];
      UnsignedIsWhole(t);
    }
    hide *;
  }

  lemma FractionIs(t: Text)
    ensures IsFraction(t[..FractionLength(t)])
  {
    if FractionLength(t) > 0 {
      RunIsDigits(t[1..]);
      assert t[..FractionLength(t)][1..] == t[1..][..DigitRun(t[1..])];
    }
  }

  lemma ExponentIs(t: Text)
    requires ExponentLength(t) == |t|
    ensures IsExponent(t)
  {
    if t != [] { AllDigits(t[DigitsStart(t)..]); }
  }

  /** The numbers are those of the grammar: a sign, a whole part without leading zeros, a fraction and an exponent. */
  lemma NumbersExactly(t: Text)
    ensures IsNumber(t) <==>
            exists sign, whole, fraction, exponent ::
              && (sign == [] || sign == [45]) && IsWhole(whole) && IsFraction(fraction) && IsExponent(exponent)
              && t == sign + whole + fraction + exponent
  {
    if IsNumber(t) { var sign, whole, fraction, exponent := PartsOfNumber(t); }
    forall sign, whole, fraction, exponent
      | && (sign == [] || sign == [45]) && IsWhole(whole) && IsFraction(fraction) && IsExponent(exponent)
        && t == sign + whole + fraction + exponent
      ensures IsNumber(t)
    {
      NumberOfParts(sign, whole, fraction, exponent);
    }
  }
}
