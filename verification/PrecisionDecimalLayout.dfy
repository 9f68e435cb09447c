/** Which values the canonical printer writes in which layout (precision_decimal.go). */
module PrecisionDecimalLayout {
  import opened Powers
  import opened DecimalText
  import opened DecimalLayout
  import opened PrecisionDecimal
  import opened PrecisionDecimalCanonical

  // ----- the range, over the integers

  /** Between one millionth and one million, as a statement about the coefficient. */
  lemma RangeOfCoefficient(v: Value)
    requires v.Finite? && v.scale >= 0
    ensures InCanonicalRange(v) <==>
      Pow10(v.scale) <= v.coefficient * 1_000_000 && v.coefficient <= 1_000_000 * Pow10(v.scale)
  {
    hide TenTo, Pow10;
    Million();
    Unit(6);
    Unit(-6);
    ScaledUp(1, 6, v.scale);
    ScaledUp(v.coefficient, v.scale, 6);
    SameScaleOrder(Pow10(v.scale), v.coefficient * Pow10(6), v.scale + 6);
    ScaledUp(1, -6, v.scale + 6);
    Pow10Add(6, v.scale);
    SameScaleOrder(v.coefficient, Pow10(v.scale + 6), v.scale);
  }

  lemma Million()
    ensures Pow10(6) == 1_000_000
  {
    assert Pow10(3) == 1000;
    Pow10Add(3, 3);
  }

  lemma Unit(e: int)
    ensures Scaled(1, e) == TenTo(-e)
  {
  }

  // ----- the scientific shape

  /** An integer without a plus sign or a needless zero. */
  predicate PlainInteger(text: string, negative: bool) {
    Pointed(text, negative, 0) && (negative ==> text != "-0")
  }

  /** One digit other than zero, further digits behind a point if there are any, and an exponent. */
  ghost predicate ScientificAt(text: string, negative: bool, manyDigits: bool, mark: nat) {
    var start := Start(negative);
    && Signed(text, negative) && IsDigit(text[start]) && text[start] != '0'
    && start < mark < |text| - 1 && text[mark] == 'E'
    && PlainInteger(text[mark + 1..], text[mark + 1] == '-')
    && (if manyDigits then start + 2 < mark && text[start + 1] == '.' else mark == start + 1)
    && (forall i :: start + 1 < i < mark ==> IsDigit(text[i]))
  }

  ghost predicate Scientific(text: string, negative: bool, manyDigits: bool) {
    exists mark: nat :: ScientificAt(text, negative, manyDigits, mark)
  }

  lemma WholeIsPlain(negative: bool, n: nat)
    requires n > 0
    ensures PlainInteger(SignText(negative) + TextOf(n), negative)
  {
    TextHasNoLeadingZero(n);
    WholeIsPointed(SignText(negative), negative, TextOf(n));
    hide TextOf;
    assert (SignText(negative) + TextOf(n))[Start(negative)] == TextOf(n)[0];
    assert "-0"[1] == '0';
  }

  lemma ExponentIsPlain(e: int)
    ensures PlainInteger(IntText(e), e < 0) && (IntText(e)[0] == '-' <==> e < 0)
  {
    if e == 0 {
      assert IntText(0) == "0";
    } else {
      WholeIsPlain(e < 0, if e < 0 then -e else e);
      if e > 0 { assert "" + TextOf(e) == TextOf(e); }
    }
  }

  lemma ScientificShape(negative: bool, n: nat, e: int)
    requires n > 0
    ensures Scientific(SignText(negative) + ScientificText(TextOf(n), e), negative, |TextOf(n)| > 1)
  {
    TextHasNoLeadingZero(n);
    ExponentIsPlain(e);
    hide TextOf, IntText, PlainInteger, Scientific;
    ShapeOfParts(SignText(negative), negative, TextOf(n), IntText(e));
  }

  /** The point behind the first digit, if there are more. */
  function Mantissa(digits: string): string
    requires digits != ""
  {
    if |digits| == 1 then digits else digits[..1] + "." + digits[1..]
  }

  lemma ShapeOfParts(sign: string, negative: bool, digits: string, exponent: string)
    requires sign == SignText(negative) && digits != "" && AllDigits(digits) && digits[0] != '0'
    requires exponent != "" && PlainInteger(exponent, exponent[0] == '-')
    ensures Scientific(sign + (Mantissa(digits) + "E" + exponent), negative, |digits| > 1)
  {
    hide PlainInteger;
    var before := sign + Mantissa(digits);
    var text := sign + (Mantissa(digits) + "E" + exponent);
    MantissaAt(sign, Mantissa(digits), exponent);
    MantissaDigits(negative, digits);
    forall i | 0 <= i < |before|
      ensures text[i] == before[i]
    {
    }
    assert text[|before| + 1] == exponent[0];
    assert ScientificAt(text, negative, |digits| > 1, |before|);
  }

  lemma MantissaDigits(negative: bool, digits: string)
    requires digits != "" && AllDigits(digits)
    ensures var before, start := SignText(negative) + Mantissa(digits), Start(negative);
      && |before| == start + |digits| + (if |digits| > 1 then 1 else 0) && (negative ==> before[0] == '-')
      && before[start] == digits[0] && (|digits| > 1 ==> before[start + 1] == '.')
      && forall i :: start + 1 < i < |before| ==> IsDigit(before[i])
  {
    var before, start := SignText(negative) + Mantissa(digits), Start(negative);
    assert forall i :: start <= i < |before| ==> before[i] == Mantissa(digits)[i - start];
    assert forall i :: 1 < i < |Mantissa(digits)| ==> Mantissa(digits)[i] == digits[i - 1];
  }

  lemma MantissaAt(sign: string, mantissa: string, exponent: string)
    ensures var text, before := sign + (mantissa + "E" + exponent), sign + mantissa;
      && text == before + "E" + exponent
      && text[|before|] == 'E' && text[|before| + 1..] == exponent
  {
  }

  lemma ManyDigits(n: nat)
    ensures |TextOf(n)| > 1 <==> n >= 10
  {
  }

  // ----- the layout of every value

  /** Scientific exactly outside the range from one millionth to one million, or without a scale. */
  lemma LayoutExactly(v: Value)
    requires v.Finite? && v.coefficient > 0
    ensures var text := CanonicalText(v);
      && ('E' in text <==>
           !(&& 0 <= v.scale && Pow10(v.scale) <= v.coefficient * 1_000_000
             && v.coefficient <= 1_000_000 * Pow10(v.scale)))
      && ('E' !in text ==> v.scale >= 0 && Pointed(text, v.sign.Negative?, v.scale) && ('.' in text <==> v.scale > 0))
      && ('E' in text ==> Scientific(text, v.sign.Negative?, v.coefficient >= 10))
  {
    hide TenTo, Pow10, Magnitude, TextOf, ScientificText, Pointed, Scientific, InCanonicalRange;
    var text, negative := CanonicalText(v), v.sign.Negative?;
    if v.scale >= 0 {
      RangeOfCoefficient(v);
    }
    if v.scale >= 0 && InCanonicalRange(v) {
      TextHasNoLeadingZero(v.coefficient);
      if v.scale == 0 {
        WholeIsPointed(SignText(negative), negative, TextOf(v.coefficient));
      } else {
        FractionIsPointed(SignText(negative), negative, TextOf(v.coefficient), v.scale);
      }
      PointedCharacters(text, negative, v.scale);
    } else {
      ScientificShape(negative, v.coefficient, AdjustedExponent(v));
      ManyDigits(v.coefficient);
      MarkerStands(text, negative, v.coefficient >= 10);
    }
  }

  lemma MarkerStands(text: string, negative: bool, manyDigits: bool)
    requires Scientific(text, negative, manyDigits)
    ensures 'E' in text
  {
    var mark: nat :| ScientificAt(text, negative, manyDigits, mark);
    assert text[mark] == 'E';
  }

  /** Zeros and the special values have one text each, up to the sign of zero. */
  lemma FixedTexts(scale: int)
    ensures CanonicalText(Finite(0, scale, Positive)) == "0.0E0"
    ensures CanonicalText(Finite(0, scale, Negative)) == "-0.0E0"
    ensures CanonicalText(PositiveInfinity) == "INF" && CanonicalText(NegativeInfinity) == "-INF"
    ensures CanonicalText(NaN) == "NaN"
  {
  }
}
