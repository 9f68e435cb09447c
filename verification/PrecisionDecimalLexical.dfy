/** The precisionDecimal lexical mapping and its round trip with the printer (precision_decimal.go). */
module PrecisionDecimalLexical {
  import opened Wrappers
  import opened DecimalText
  import opened Powers
  import opened Lexical
  import opened PrecisionDecimal
  import opened PrecisionDecimalCanonical

  datatype Lexeme =
    | FiniteLexeme(sign: Sign, significand: string, fractionalDigitCount: nat, exponentDigits: string,
      exponentNegative: bool)
    | SpecialLexeme(value: Value)

  // ----- scanning and construction

  function SignStart(lexical: string): (nat, Sign)
    requires lexical != ""
  {
    if lexical[0] == '-' then (1, Negative)
    else if lexical[0] == '+' then (1, Positive)
    else (0, Positive)
  }

  /** The digits and the sign of an exponent. */
  function ScanExponent(exponent: string): Option<(string, bool)> {
    if exponent == "" then None
    else
      var start := if exponent[0] == '+' || exponent[0] == '-' then 1 else 0;
      if start == |exponent| || !AllASCIIDigits(exponent[start..]) then None
      else Some((exponent[start..], exponent[0] == '-'))
  }

  function ScanNumeral(sign: Sign, numeral: string): Option<Lexeme> {
    var exponentIndex := IndexAny(numeral, {'e', 'E'});
    var exponent := if exponentIndex == |numeral| then Some(("", false))
      else ScanExponent(numeral[exponentIndex + 1..]);
    if exponent.None? then None
    else
      var split := SplitDecimalDigits(numeral[..exponentIndex]);
      if split.None? then None
      else
        Some(FiniteLexeme(sign, split.value.integerDigits + split.value.fractionDigits, |split.value.fractionDigits|,
                          exponent.value.0, exponent.value.1))
  }

  function Scan(lexical: string): (lexeme: Option<Lexeme>)
    ensures lexeme.Some? && lexeme.value.FiniteLexeme? ==>
      AllDigits(lexeme.value.significand) && AllDigits(lexeme.value.exponentDigits)
    ensures lexeme.Some? && lexeme.value.SpecialLexeme? ==> !lexeme.value.value.Finite?
  {
    if lexical == "INF" || lexical == "+INF" then Some(SpecialLexeme(PositiveInfinity))
    else if lexical == "-INF" then Some(SpecialLexeme(NegativeInfinity))
    else if lexical == "NaN" then Some(SpecialLexeme(NaN))
    else if lexical == "" then None
    else
      var (start, sign) := SignStart(lexical);
      if start == |lexical| then None else
      ScanNumeralDigits(sign, lexical[start..]);
      ScanNumeral(sign, lexical[start..])
  }

  lemma ScanNumeralDigits(sign: Sign, numeral: string)
    ensures var lexeme := ScanNumeral(sign, numeral);
      lexeme.Some? ==>
        && lexeme.value.FiniteLexeme?
        && AllDigits(lexeme.value.significand) && AllDigits(lexeme.value.exponentDigits)
  {
    var i := IndexAny(numeral, {'e', 'E'});
    if SplitDecimalDigits(numeral[..i]).Some? {
      TextOfSplit(numeral[..i]);
    }
  }

  function Construct(lexeme: Lexeme): Value
    requires lexeme.FiniteLexeme? ==> AllDigits(lexeme.significand) && AllDigits(lexeme.exponentDigits)
  {
    match lexeme
    case SpecialLexeme(value) => value
    case FiniteLexeme(sign, significand, fractionalDigitCount, exponentDigits, exponentNegative) =>
      var trimmed := TrimLeadingZeros(significand);
      var coefficient := ValueOf(if trimmed == "" then "0" else trimmed);
      var exponent := if exponentDigits == "" then 0 else ValueOf(exponentDigits);
      Finite(coefficient, fractionalDigitCount - (if exponentNegative then -exponent else exponent), sign)
  }

  /** The whole lexical mapping: collapse, scan, construct. */
  function Parse(lexical: string): Option<Value> {
    var scanned := Scan(Collapse(lexical));
    if scanned.None? then None else Some(Construct(scanned.value))
  }

  // ----- the grammar, independently of the scanner

  datatype Exponent = NoExponent | Exponent(marker: char, sign: string, digits: string)

  datatype Numeral = Numeral(sign: string, split: Split, exponent: Exponent)

  predicate WellFormedSign(sign: string) {
    sign == "" || sign == "+" || sign == "-"
  }

  predicate WellFormedExponent(e: Exponent) {
    e.Exponent? ==> (e.marker == 'e' || e.marker == 'E') && WellFormedSign(e.sign) && AllASCIIDigits(e.digits)
  }

  predicate WellFormed(n: Numeral) {
    WellFormedSign(n.sign) && WellFormedSplit(n.split) && WellFormedExponent(n.exponent)
  }

  function ExponentText(e: Exponent): string {
    if e.NoExponent? then "" else [e.marker] + e.sign + e.digits
  }

  function Render(n: Numeral): string {
    n.sign + (DigitsText(n.split) + ExponentText(n.exponent))
  }

  function ExponentValue(e: Exponent): int
    requires WellFormedExponent(e)
  {
    if e.NoExponent? then 0 else if e.sign == "-" then 0 - ValueOf(e.digits) else ValueOf(e.digits)
  }

  /** What a well-formed numeral denotes. */
  function Denotation(n: Numeral): Value
    requires WellFormed(n)
  {
    Finite(ValueOf(n.split.integerDigits + n.split.fractionDigits),
           |n.split.fractionDigits| - ExponentValue(n.exponent),
           if n.sign == "-" then Negative else Positive)
  }

  predicate IsSpecial(lexical: string) {
    lexical == "INF" || lexical == "+INF" || lexical == "-INF" || lexical == "NaN"
  }

  ghost predicate InGrammar(lexical: string) {
    IsSpecial(lexical) || exists n: Numeral :: WellFormed(n) && Render(n) == lexical
  }

  lemma ExponentRoundTrip(e: Exponent)
    requires e.Exponent? && WellFormedExponent(e)
    ensures ScanExponent(e.sign + e.digits) == Some((e.digits, e.sign == "-"))
  {
    var text := e.sign + e.digits;
    if e.sign == "" {
      assert text == e.digits;
      assert IsDigit(text[0]);
    } else {
      assert text[1..] == e.digits;
    }
  }

  lemma ExponentFound(split: Split, e: Exponent)
    requires WellFormedSplit(split) && WellFormedExponent(e)
    ensures var numeral := DigitsText(split) + ExponentText(e);
      IndexAny(numeral, {'e', 'E'}) == |DigitsText(split)|
  {
    NoMarkerInDigits(split);
    hide DigitsText, WellFormedSplit, IndexAny;
    assert e.Exponent? ==> ExponentText(e)[0] == e.marker;
    FoundAfter(DigitsText(split), ExponentText(e), {'e', 'E'});
  }

  lemma NoMarkerInDigits(split: Split)
    requires WellFormedSplit(split)
    ensures forall c <- DigitsText(split) :: c !in {'e', 'E'}
  {
    assert forall c <- split.integerDigits :: IsDigit(c);
    assert forall c <- split.fractionDigits :: IsDigit(c);
  }

  lemma FoundAfter(before: string, after: string, wanted: set<char>)
    requires forall c <- before :: c !in wanted
    requires after == "" || after[0] in wanted
    ensures IndexAny(before + after, wanted) == |before|
  {
    var all := before + after;
    var i := IndexAny(all, wanted);
    assert forall k :: 0 <= k < |before| ==> all[k] == before[k];
    assert after != "" ==> all[|before|] == after[0];
  }

  lemma NumeralStartsWithDigitOrPoint(n: Numeral)
    requires WellFormed(n)
    ensures var numeral := DigitsText(n.split) + ExponentText(n.exponent);
      numeral != "" && (IsDigit(numeral[0]) || numeral[0] == '.')
  {
    var digits := DigitsText(n.split);
    assert digits != "";
    if n.split.integerDigits != "" {
      assert digits[0] == n.split.integerDigits[0];
    }
  }

  function LexemeOf(sign: Sign, n: Numeral): Lexeme {
    var e := n.exponent;
    FiniteLexeme(sign, n.split.integerDigits + n.split.fractionDigits, |n.split.fractionDigits|,
                 if e.NoExponent? then "" else e.digits, e.Exponent? && e.sign == "-")
  }

  lemma ScanOfNumeral(sign: Sign, n: Numeral)
    requires WellFormed(n)
    ensures ScanNumeral(sign, DigitsText(n.split) + ExponentText(n.exponent)) == Some(LexemeOf(sign, n))
  {
    hide IndexAny, SplitDecimalDigits, ScanExponent;
    var digits := DigitsText(n.split);
    var numeral := digits + ExponentText(n.exponent);
    ExponentFound(n.split, n.exponent);
    SplitOfText(n.split);
    hide DigitsText;
    assert numeral[..|digits|] == digits;
    if n.exponent.Exponent? {
      assert numeral[|digits| + 1..] == n.exponent.sign + n.exponent.digits;
      ExponentRoundTrip(n.exponent);
    }
  }

  lemma ConstructOfNumeral(sign: Sign, n: Numeral)
    requires WellFormed(n) && sign == if n.sign == "-" then Negative else Positive
    ensures Construct(LexemeOf(sign, n)) == Denotation(n)
  {
    hide ValueOf, TrimLeadingZeros;
    TrimKeepsValue(n.split.integerDigits + n.split.fractionDigits);
    ZeroTexts();
  }

  lemma ZeroTexts()
    ensures ValueOf("") == 0 && ValueOf("0") == 0 && ValueOf("0" + "0") == 0
  {
    assert Zeros(1) == "0" && Zeros(2) == "0" + "0";
    ValueOfZeros(1);
    ValueOfZeros(2);
  }

  /** Every well-formed numeral is accepted, with the value it denotes. */
  lemma ScanAcceptsNumeral(n: Numeral)
    requires WellFormed(n)
    ensures Scan(Render(n)).Some? && Construct(Scan(Render(n)).value) == Denotation(n)
  {
    var numeral := DigitsText(n.split) + ExponentText(n.exponent);
    NumeralStartsWithDigitOrPoint(n);
    var sign := if n.sign == "-" then Negative else Positive;
    ScanOfNumeral(sign, n);
    ConstructOfNumeral(sign, n);
    ScanAfterSign(n.sign, numeral, sign);
  }

  lemma ScanAfterSign(signText: string, numeral: string, sign: Sign)
    requires WellFormedSign(signText) && sign == if signText == "-" then Negative else Positive
    requires numeral != "" && (IsDigit(numeral[0]) || numeral[0] == '.')
    ensures Scan(signText + numeral) == ScanNumeral(sign, numeral)
  {
    hide ScanNumeral;
    var text := signText + numeral;
    assert text[|signText|..] == numeral && text[|signText|] == numeral[0];
    assert "INF"[0] == 'I' && "+INF"[1] == 'I' && "-INF"[1] == 'I' && "NaN"[0] == 'N';
  }

  lemma ExponentParts(text: string) returns (sign: string, digits: string)
    requires ScanExponent(text).Some?
    ensures WellFormedSign(sign) && AllASCIIDigits(digits) && text == sign + digits
  {
    if text[0] == '+' || text[0] == '-' {
      sign, digits := text[..1], text[1..];
    } else {
      sign, digits := "", text;
    }
  }

  lemma NumeralParts(sign: Sign, text: string) returns (split: Split, e: Exponent)
    requires ScanNumeral(sign, text).Some?
    ensures WellFormedSplit(split) && WellFormedExponent(e)
    ensures text == DigitsText(split) + ExponentText(e)
  {
    var i := IndexAny(text, {'e', 'E'});
    TextOfSplit(text[..i]);
    hide SplitDecimalDigits, ScanExponent, DigitsText, WellFormedSplit;
    split, e := SplitDecimalDigits(text[..i]).value, NoExponent;
    if i < |text| {
      var exponentSign, digits := ExponentParts(text[i + 1..]);
      e := Exponent(text[i], exponentSign, digits);
      TextAround(text, i, exponentSign, digits);
    }
  }

  lemma TextAround(text: string, i: nat, sign: string, digits: string)
    requires i < |text| && text[i + 1..] == sign + digits
    ensures text == text[..i] + ([text[i]] + sign + digits)
  {
    assert [text[i]] + sign + digits == text[i..];
  }

  /** The scanner accepts exactly the grammar. */
  lemma ScanAcceptsExactlyGrammar(lexical: string)
    ensures Scan(lexical).Some? <==> InGrammar(lexical)
  {
    if Scan(lexical).Some? && !IsSpecial(lexical) {
      var (start, sign) := SignStart(lexical);
      var split, e := NumeralParts(sign, lexical[start..]);
      var n := Numeral(lexical[..start], split, e);
      assert Render(n) == lexical[..start] + lexical[start..] == lexical;
      assert WellFormed(n);
    }
    if InGrammar(lexical) && !IsSpecial(lexical) {
      var n :| WellFormed(n) && Render(n) == lexical;
      ScanAcceptsNumeral(n);
    }
  }

  /** The number parsed is sign, digits and exponent read as an exact real. */
  lemma DenotationIsExact(n: Numeral)
    requires WellFormed(n)
    ensures Magnitude(Denotation(n))
         == ValueOf(n.split.integerDigits + n.split.fractionDigits) as real
            * TenTo(ExponentValue(n.exponent) - |n.split.fractionDigits|)
  {
    hide TenTo, ValueOf, WellFormedSplit;
    var v := Denotation(n);
    assert -v.scale == ExponentValue(n.exponent) - |n.split.fractionDigits|;
  }

  // ----- round trips

  /** The numeral that the canonical text of a finite value spells. */
  function CanonicalNumeral(v: Value): Numeral
    requires v.Finite?
  {
    var sign := SignText(v.sign.Negative?);
    var digits := TextOf(v.coefficient);
    if v.coefficient == 0 then
      Numeral(sign, Split("0", "0", true), Exponent('E', "", "0"))
    else if v.scale == 0 && InCanonicalRange(v) then
      Numeral(sign, Split(digits, "", false), NoExponent)
    else if v.scale > 0 && InCanonicalRange(v) then
      if v.scale < |digits| then
        Numeral(sign, Split(digits[..|digits| - v.scale], digits[|digits| - v.scale..], true), NoExponent)
      else
        Numeral(sign, Split("0", Zeros(v.scale - |digits|) + digits, true), NoExponent)
    else
      var e := AdjustedExponent(v);
      Numeral(sign,
              if |digits| == 1 then Split(digits, "", false) else Split(digits[..1], digits[1..], true),
              Exponent('E', SignText(e < 0), TextOf(if e < 0 then -e else e)))
  }

  /** What survives printing: zeros keep their sign but print with scale one. */
  function Printed(v: Value): Value {
    if v.Finite? && v.coefficient == 0 then Finite(0, 1, v.sign) else v
  }

  lemma CanonicalNumeralSpells(v: Value)
    requires v.Finite?
    ensures WellFormed(CanonicalNumeral(v))
    ensures Render(CanonicalNumeral(v)) == CanonicalText(v)
  {
    hide TenTo, Magnitude, DigitCount, TextOf, InCanonicalRange;
    var n := CanonicalNumeral(v);
    var digits := TextOf(v.coefficient);
    if v.coefficient == 0 {
      assert DigitsText(n.split) + ExponentText(n.exponent) == "0.0E0";
    } else if v.scale >= 0 && InCanonicalRange(v) {
      PlainNumeralSpells(digits, v.scale, n.split);
    } else {
      ScientificNumeralSpells(digits, AdjustedExponent(v), n.split, n.exponent);
    }
  }

  lemma PlainNumeralSpells(digits: string, scale: nat, split: Split)
    requires AllASCIIDigits(digits)
    requires split ==
      if scale == 0 then Split(digits, "", false)
      else if scale < |digits| then Split(digits[..|digits| - scale], digits[|digits| - scale..], true)
      else Split("0", Zeros(scale - |digits|) + digits, true)
    ensures WellFormedSplit(split)
    ensures DigitsText(split) + "" == if scale == 0 then digits else PointedText(digits, scale)
  {
    if scale >= |digits| {
      var padding := Zeros(scale - |digits|);
      assert "0" + "." + (padding + digits) == "0." + padding + digits;
    }
  }

  lemma ScientificNumeralSpells(digits: string, e: int, split: Split, exponent: Exponent)
    requires AllASCIIDigits(digits)
    requires split == if |digits| == 1 then Split(digits, "", false) else Split(digits[..1], digits[1..], true)
    requires exponent == Exponent('E', SignText(e < 0), TextOf(if e < 0 then -e else e))
    ensures WellFormedSplit(split) && WellFormedExponent(exponent)
    ensures DigitsText(split) + ExponentText(exponent) == ScientificText(digits, e)
  {
    hide TextOf;
    var mantissa := if |digits| == 1 then digits else digits[..1] + "." + digits[1..];
    assert DigitsText(split) == mantissa;
    RegroupTexts(mantissa, "E", SignText(e < 0), exponent.digits);
  }

  lemma RegroupTexts(a: string, b: string, c: string, d: string)
    ensures a + (b + c + d) == a + b + (c + d)
    ensures a + (b + c + d) == a + b + c + d
    ensures "" + d == d
  {
  }

  lemma CanonicalNumeralDenotes(v: Value)
    requires v.Finite?
    ensures WellFormed(CanonicalNumeral(v)) && Denotation(CanonicalNumeral(v)) == Printed(v)
  {
    hide TenTo, Magnitude, DigitCount, TextOf, ValueOf, InCanonicalRange, WellFormedSplit, Render;
    CanonicalNumeralSpells(v);
    var n := CanonicalNumeral(v);
    if v.coefficient == 0 {
      ZeroTexts();
    } else {
      var digits := TextOf(v.coefficient);
      ValueOfText(v.coefficient);
      if v.scale >= 0 && InCanonicalRange(v) {
        PlainNumeralDenotes(digits, v.scale, n.split);
      } else {
        TextLength(v.coefficient);
        ScientificNumeralDenotes(digits, AdjustedExponent(v), n.split, n.exponent);
      }
    }
  }

  lemma ScientificNumeralDenotes(digits: string, e: int, split: Split, exponent: Exponent)
    requires AllASCIIDigits(digits)
    requires split == if |digits| == 1 then Split(digits, "", false) else Split(digits[..1], digits[1..], true)
    requires exponent == Exponent('E', SignText(e < 0), TextOf(if e < 0 then -e else e))
    ensures split.integerDigits + split.fractionDigits == digits && |split.fractionDigits| == |digits| - 1
    ensures WellFormedExponent(exponent) && ExponentValue(exponent) == e
  {
    hide TextOf, ValueOf;
    ValueOfText(if e < 0 then -e else e);
  }

  lemma PlainNumeralDenotes(digits: string, scale: nat, split: Split)
    requires AllDigits(digits)
    requires split ==
      if scale == 0 then Split(digits, "", false)
      else if scale < |digits| then Split(digits[..|digits| - scale], digits[|digits| - scale..], true)
      else Split("0", Zeros(scale - |digits|) + digits, true)
    ensures |split.fractionDigits| == scale
    ensures AllDigits(split.integerDigits + split.fractionDigits)
    ensures ValueOf(split.integerDigits + split.fractionDigits) == ValueOf(digits)
  {
    hide ValueOf, AllDigits, Zeros;
    if scale < |digits| {
      assert split.integerDigits + split.fractionDigits == digits;
    } else if scale > 0 {
      ZerosDenoteNothing(digits, scale - |digits|);
    } else {
      assert digits + "" == digits;
    }
  }

  lemma ZerosDenoteNothing(digits: string, padding: nat)
    requires AllDigits(digits)
    ensures |Zeros(padding) + digits| == padding + |digits|
    ensures AllDigits("0" + (Zeros(padding) + digits))
    ensures ValueOf("0" + (Zeros(padding) + digits)) == ValueOf(digits)
  {
    ValueOfZeros(padding + 1);
    assert "0" + (Zeros(padding) + digits) == Zeros(padding + 1) + digits;
    ValueOfConcat(Zeros(padding + 1), digits);
  }

  lemma CanonicalTextHasNoWhitespace(v: Value)
    ensures NoWhitespace(CanonicalText(v))
  {
    if v.Finite? {
      CanonicalNumeralSpells(v);
      var n := CanonicalNumeral(v);
      RenderHasNoWhitespace(n);
    }
  }

  lemma RenderHasNoWhitespace(n: Numeral)
    requires WellFormed(n)
    ensures NoWhitespace(Render(n))
  {
    forall i | 0 <= i < |n.split.integerDigits| ensures !IsXMLWhitespace(n.split.integerDigits[i]) {}
    forall i | 0 <= i < |n.split.fractionDigits| ensures !IsXMLWhitespace(n.split.fractionDigits[i]) {}
    assert NoWhitespace(DigitsText(n.split));
    if n.exponent.Exponent? {
      forall i | 0 <= i < |n.exponent.digits| ensures !IsXMLWhitespace(n.exponent.digits[i]) {}
      assert NoWhitespace([n.exponent.marker] + n.exponent.sign);
    }
    assert NoWhitespace(ExponentText(n.exponent));
  }

  /** Parsing undoes printing: exactly on nonzero values, up to the scale on zeros. */
  lemma ParseOfCanonicalText(v: Value)
    ensures Parse(CanonicalText(v)) == Some(Printed(v))
  {
    CanonicalTextHasNoWhitespace(v);
    CollapseKeepsWord(CanonicalText(v));
    if v.Finite? {
      CanonicalNumeralSpells(v);
      ScanAcceptsNumeral(CanonicalNumeral(v));
      CanonicalNumeralDenotes(v);
    }
  }

  /** Print then parse is the identity exactly off the zeros of a scale other than one. */
  lemma RoundTripExactly(v: Value)
    ensures Parse(CanonicalText(v)) == Some(v) <==> !(v.Finite? && v.coefficient == 0 && v.scale != 1)
  {
    ParseOfCanonicalText(v);
    hide Parse, CanonicalText;
  }

  /** Two values print alike exactly when they are identical or zeros of one sign. */
  lemma CanonicalTextIsInjective(v: Value, w: Value)
    ensures CanonicalText(v) == CanonicalText(w) <==> Printed(v) == Printed(w)
  {
    ParseOfCanonicalText(v);
    ParseOfCanonicalText(w);
    assert CanonicalText(Printed(v)) == CanonicalText(v);
    assert CanonicalText(Printed(w)) == CanonicalText(w);
  }

  /** Canonical text is a fixed point of parsing and printing, and parsing it keeps the number. */
  lemma CanonicalTextIsFixedPoint(v: Value)
    ensures Parse(CanonicalText(v)).Some?
    ensures CanonicalText(Parse(CanonicalText(v)).value) == CanonicalText(v)
    ensures !v.NaN? ==> ExactOrder(Parse(CanonicalText(v)).value, v) == Equal
  {
    ParseOfCanonicalText(v);
    if v.Finite? && v.coefficient == 0 {
      MagnitudeSign(v);
      MagnitudeSign(Printed(v));
    }
  }
}
