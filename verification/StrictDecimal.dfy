/** xs:decimal values: normal form, comparison, canonical text and digit measures (datatype.go). */
module StrictDecimal {
  import opened Wrappers
  import opened DecimalText
  import DecimalLayout
  import opened Powers
  import opened Lexical

  datatype Version = XSD10 | XSD11 | UnknownVersion(name: string)

  datatype Decimal = Decimal(coefficient: nat, scale: nat, negative: bool)

  const ZERO := Decimal(0, 0, false)

  /** No trailing zero behind the point and one zero; every constructed decimal has this form. */
  predicate Normal(d: Decimal) {
    && (d.scale > 0 ==> d.coefficient % 10 != 0)
    && (d.coefficient == 0 ==> d == ZERO)
  }

  function SignedReal(magnitude: real, negative: bool): real {
    if negative then -magnitude else magnitude
  }

  function Number(d: Decimal): real {
    SignedReal(Scaled(d.coefficient, d.scale), d.negative)
  }

  // ----- normal form

  /** Drops trailing zeros behind the point. */
  function Reduced(c: nat, scale: nat, negative: bool): Decimal
    decreases scale
  {
    if c == 0 then ZERO
    else if scale > 0 && c % 10 == 0 then Reduced(c / 10, scale - 1, negative)
    else Decimal(c, scale, negative)
  }

  lemma {:induction false} ReducedIsNormal(c: nat, scale: nat, negative: bool)
    ensures Normal(Reduced(c, scale, negative))
    ensures Number(Reduced(c, scale, negative)) == SignedReal(Scaled(c, scale), negative)
    decreases scale
  {
    if c == 0 {
      ScaledZero(scale);
      ScaledZero(0);
    } else if scale > 0 && c % 10 == 0 {
      ReducedIsNormal(c / 10, scale - 1, negative);
      ScaledUp(c / 10, scale - 1, 1);
      assert c / 10 * Pow10(1) == c;
    }
  }

  lemma ScaledZero(scale: int)
    ensures Scaled(0, scale) == 0.0
  {
  }

  lemma ScaledPositive(c: nat, scale: int)
    requires c > 0
    ensures Scaled(c, scale) > 0.0
  {
    ScaledZero(scale);
    SameScaleOrder(0, c, scale);
  }

  /** A normal magnitude is written with the least scale; any other spelling pads it with zeros. */
  lemma LeastScale(d: Decimal, i: nat, n: nat)
    requires Normal(d) && Scaled(d.coefficient, d.scale) == Scaled(i, n)
    ensures d.scale <= n && i == d.coefficient * Pow10(n - d.scale)
  {
    hide Scaled;
    if n < d.scale {
      AlignedOrder(d.coefficient, i, n, d.scale - n);
      assert d.coefficient == i * Pow10(d.scale - n) == i * (10 * Pow10(d.scale - n - 1));
      MultipleOfTen(i, Pow10(d.scale - n - 1));
    } else {
      AlignedOrder(i, d.coefficient, d.scale, n - d.scale);
    }
  }

  lemma MultipleOfTen(i: nat, p: nat)
    ensures i * (10 * p) % 10 == 0
  {
    assert i * (10 * p) == 10 * (i * p);
  }

  /** Equal numbers have identical representations. */
  lemma NormalFormIsUnique(a: Decimal, b: Decimal)
    requires Normal(a) && Normal(b)
    ensures Number(a) == Number(b) <==> a == b
  {
    if Number(a) == Number(b) {
      if a.coefficient == 0 || b.coefficient == 0 {
        ScaledZero(a.scale);
        ScaledZero(b.scale);
        if a.coefficient > 0 { ScaledPositive(a.coefficient, a.scale); }
        if b.coefficient > 0 { ScaledPositive(b.coefficient, b.scale); }
      } else {
        ScaledPositive(a.coefficient, a.scale);
        ScaledPositive(b.coefficient, b.scale);
        LeastScale(a, b.coefficient, b.scale);
        LeastScale(b, a.coefficient, a.scale);
        assert Pow10(0) == 1;
      }
    }
  }

  // ----- lexical mapping

  datatype Lexeme = Lexeme(integerDigits: string, fractionDigits: string, negative: bool)

  function DecimalSign(lexical: string): (nat, bool)
    requires lexical != ""
  {
    if lexical[0] == '+' || lexical[0] == '-' then (1, lexical[0] == '-') else (0, false)
  }

  function ScanDecimalLexical(lexical: string, version: Version): (lexeme: Option<Lexeme>)
    ensures lexeme.Some? ==> AllDigits(lexeme.value.integerDigits) && AllDigits(lexeme.value.fractionDigits)
  {
    if lexical == "" then None
    else
      var (start, negative) := DecimalSign(lexical);
      if start == |lexical| then None
      else
        var split := SplitDecimalDigits(lexical[start..]);
        if split.None? then None
        else if split.value.hasPoint && version == XSD10 &&
          (split.value.integerDigits == "" || split.value.fractionDigits == "") then None
        else Some(Lexeme(split.value.integerDigits, split.value.fractionDigits, negative))
  }

  function DecimalOf(lexeme: Lexeme): Decimal
    requires AllDigits(lexeme.integerDigits) && AllDigits(lexeme.fractionDigits)
  {
    Reduced(ValueOf(lexeme.integerDigits + lexeme.fractionDigits), |lexeme.fractionDigits|, lexeme.negative)
  }

  method NewStrictDecimal(parsed: Lexeme) returns (d: Decimal)
    requires AllDigits(parsed.integerDigits) && AllDigits(parsed.fractionDigits)
    ensures d == DecimalOf(parsed)
  {
    hide ValueOf;
    var digits := parsed.integerDigits + parsed.fractionDigits;
    ghost var all := digits;
    var first := 0;
    while first < |digits| && digits[first] == '0'
      invariant first <= |digits|
      invariant ValueOf(digits[first..]) == ValueOf(digits)
    {
      LeadingZero(digits[first..]);
      assert digits[first..][1..] == digits[first + 1..];
      first := first + 1;
    }
    if first == |digits| {
      NoDigits();
      assert digits[first..] == "";
      return Decimal(0, 0, false);
    }
    digits := digits[first..];
    var scale: nat := |parsed.fractionDigits|;
    NonzeroStart(digits);
    while scale > 0 && digits != "" && digits[|digits| - 1] == '0'
      invariant scale >= 0 && AllDigits(digits) && digits != "" && ValueOf(digits) > 0
      invariant Reduced(ValueOf(digits), scale, parsed.negative) == DecimalOf(parsed)
    {
      TrailingDigit(digits);
      digits := digits[..|digits| - 1];
      scale := scale - 1;
    }
    TrailingDigit(digits);
    return Decimal(ValueOf(digits), scale, parsed.negative);
  }

  lemma NoDigits()
    ensures ValueOf("") == 0
  {
  }

  lemma LeadingZero(s: string)
    requires AllDigits(s) && s != "" && s[0] == '0'
    ensures ValueOf(s[1..]) == ValueOf(s)
  {
    hide ValueOf;
    ValueOfConcat(s[..1], s[1..]);
    assert s[..1] + s[1..] == s && s[..1] == Zeros(1);
    ValueOfZeros(1);
  }

  lemma NonzeroStart(s: string)
    requires AllDigits(s) && s != "" && s[0] != '0'
    ensures ValueOf(s) > 0
  {
    ValueBound(s);
  }

  lemma TrailingDigit(s: string)
    requires AllDigits(s) && s != ""
    ensures ValueOf(s) % 10 == 0 <==> s[|s| - 1] == '0'
    ensures ValueOf(s) / 10 == ValueOf(s[..|s| - 1])
    ensures ValueOf(s) > 0 && s[|s| - 1] == '0' ==> |s| > 1
  {
    assert ValueOf("") == 0;
  }

  function Parse(lexical: string, version: Version): Option<Decimal> {
    var scanned := ScanDecimalLexical(Collapse(lexical), version);
    if scanned.None? then None else Some(DecimalOf(scanned.value))
  }

  // ----- the grammar

  datatype Spelling = Spelling(sign: string, split: Split)

  predicate WellFormed(s: Spelling, version: Version) {
    && (s.sign == "" || s.sign == "+" || s.sign == "-")
    && WellFormedSplit(s.split)
    && (s.split.hasPoint && version == XSD10 ==> s.split.integerDigits != "" && s.split.fractionDigits != "")
  }

  function Render(s: Spelling): string {
    s.sign + DigitsText(s.split)
  }

  /** The exact number that a spelling denotes. */
  function Denotation(s: Spelling): real
    requires WellFormedSplit(s.split)
  {
    SignedReal(Scaled(ValueOf(s.split.integerDigits + s.split.fractionDigits), |s.split.fractionDigits|), s.sign == "-")
  }

  lemma ScanOfSpelling(s: Spelling, version: Version)
    requires WellFormed(s, version)
    ensures ScanDecimalLexical(Render(s), version) ==
      Some(Lexeme(s.split.integerDigits, s.split.fractionDigits, s.sign == "-"))
  {
    SplitOfText(s.split);
    UnsignedStart(s.split);
    SignFound(s.sign, DigitsText(s.split));
    hide SplitDecimalDigits, DigitsText, DecimalSign, WellFormedSplit;
  }

  lemma UnsignedStart(split: Split)
    requires WellFormedSplit(split)
    ensures var text := DigitsText(split);
      && text != "" && text[0] != '+' && text[0] != '-'
      && AllDigits(split.integerDigits) && AllDigits(split.fractionDigits)
  {
    if split.integerDigits != "" {
      assert DigitsText(split)[0] == split.integerDigits[0];
    }
  }

  lemma SignFound(sign: string, digits: string)
    requires sign == "" || sign == "+" || sign == "-"
    requires digits != "" && digits[0] != '+' && digits[0] != '-'
    ensures sign + digits != "" && DecimalSign(sign + digits) == (|sign|, sign == "-")
    ensures (sign + digits)[|sign|..] == digits && |sign| < |sign + digits|
  {
    assert (sign + digits)[0] == if sign == "" then digits[0] else sign[0];
  }

  /** The scanner accepts exactly the spellings of the version's grammar. */
  lemma ScanAcceptsExactlyGrammar(lexical: string, version: Version)
    ensures ScanDecimalLexical(lexical, version).Some? <==>
      exists s: Spelling :: WellFormed(s, version) && Render(s) == lexical
  {
    if ScanDecimalLexical(lexical, version).Some? {
      var (start, _) := DecimalSign(lexical);
      TextOfSplit(lexical[start..]);
      var s := Spelling(lexical[..start], SplitDecimalDigits(lexical[start..]).value);
      assert Render(s) == lexical[..start] + lexical[start..] == lexical;
      assert WellFormed(s, version);
    }
    if s: Spelling :| WellFormed(s, version) && Render(s) == lexical {
      ScanOfSpelling(s, version);
    }
  }

  /** Every point has a digit before it and a character behind it. */
  predicate PointsInside(lexical: string) {
    forall k :: 0 <= k < |lexical| && lexical[k] == '.' ==>
      0 < k < |lexical| - 1 && IsDigit(lexical[k - 1])
  }

  lemma PointOfSpelling(s: Spelling)
    requires WellFormed(s, XSD11)
    ensures PointsInside(Render(s)) <==>
      (s.split.hasPoint ==> s.split.integerDigits != "" && s.split.fractionDigits != "")
  {
    var text, sign, before, behind := Render(s), s.sign, s.split.integerDigits, s.split.fractionDigits;
    var point := |sign| + |before|;
    if s.split.hasPoint {
      assert text == sign + before + "." + behind;
      assert text[point] == '.';
      assert before != "" ==> text[point - 1] == before[|before| - 1];
      assert before == "" && sign != "" ==> text[point - 1] == sign[0];
      forall k | 0 <= k < |text| && k != point
        ensures text[k] != '.'
      {
        if k < |sign| {
          assert text[k] == sign[k];
        } else if k < point {
          assert text[k] == before[k - |sign|];
        } else {
          assert text[k] == behind[k - point - 1];
        }
      }
    } else {
      assert text == sign + before;
      forall k | 0 <= k < |text|
        ensures text[k] != '.'
      {
        assert text[k] == if k < |sign| then sign[k] else before[k - |sign|];
      }
    }
  }

  /** Version 1.0 accepts what version 1.1 accepts, unless the point lacks a digit on either side. */
  lemma VersionsDifferAtPoint(lexical: string)
    ensures ScanDecimalLexical(lexical, XSD10).Some? <==>
      ScanDecimalLexical(lexical, XSD11).Some? && PointsInside(lexical)
  {
    ScanAcceptsExactlyGrammar(lexical, XSD10);
    ScanAcceptsExactlyGrammar(lexical, XSD11);
    hide ScanDecimalLexical, Render, PointsInside, WellFormedSplit;
    if s: Spelling :| WellFormed(s, XSD11) && Render(s) == lexical {
      PointOfSpelling(s);
    }
    if s: Spelling :| WellFormed(s, XSD10) && Render(s) == lexical {
      assert WellFormed(s, XSD11);
      PointOfSpelling(s);
    }
  }

  lemma RenderHasNoWhitespace(s: Spelling, version: Version)
    requires WellFormed(s, version)
    ensures NoWhitespace(Render(s))
  {
    forall i | 0 <= i < |s.split.integerDigits| ensures !IsXMLWhitespace(s.split.integerDigits[i]) {}
    forall i | 0 <= i < |s.split.fractionDigits| ensures !IsXMLWhitespace(s.split.fractionDigits[i]) {}
    assert NoWhitespace(DigitsText(s.split));
  }

  /** Every spelling parses to the normal decimal of the number it denotes. */
  lemma ParseIsExact(s: Spelling, version: Version)
    requires WellFormed(s, version)
    ensures var d := Parse(Render(s), version);
      d.Some? && Normal(d.value) && Number(d.value) == Denotation(s)
  {
    RenderHasNoWhitespace(s, version);
    CollapseKeepsWord(Render(s));
    ScanOfSpelling(s, version);
    ReducedIsNormal(ValueOf(s.split.integerDigits + s.split.fractionDigits), |s.split.fractionDigits|, s.sign == "-");
  }

  /**
   * Two spellings denote the same number exactly when they parse to identical decimals, which is when these compare
   * equal.
   */
  lemma SameNumberSameDecimal(s: Spelling, t: Spelling, version: Version)
    requires WellFormed(s, version) && WellFormed(t, version)
    ensures Denotation(s) == Denotation(t) <==> Parse(Render(s), version) == Parse(Render(t), version)
    ensures var d, e := Parse(Render(s), version), Parse(Render(t), version);
      d.Some? && e.Some? && (Denotation(s) == Denotation(t) <==> Compare(d.value, e.value) == 0)
  {
    hide Parse, Normal, Number, Denotation, Compare;
    ParseIsExact(s, version);
    ParseIsExact(t, version);
    var d, e := Parse(Render(s), version).value, Parse(Render(t), version).value;
    NormalFormIsUnique(d, e);
    CompareIsExact(d, e);
  }

  // ----- comparison

  function Sign(d: Decimal): int {
    if d.coefficient == 0 then 0 else if d.negative then -1 else 1
  }

  function CompareInts(x: int, y: int): int {
    if x < y then -1 else if x > y then 1 else 0
  }

  function Max(x: nat, y: nat): nat {
    if x < y then y else x
  }

  /** Aligns both coefficients to the larger scale. */
  function CompareMagnitude(left: Decimal, right: Decimal): int {
    var scale := Max(left.scale, right.scale);
    CompareInts(left.coefficient * Pow10(scale - left.scale), right.coefficient * Pow10(scale - right.scale))
  }

  function Compare(left: Decimal, right: Decimal): int {
    if Sign(left) != Sign(right) then if Sign(left) < Sign(right) then -1 else 1
    else if Sign(left) == 0 then 0
    else if Sign(left) < 0 then -CompareMagnitude(left, right)
    else CompareMagnitude(left, right)
  }

  function CompareReals(x: real, y: real): int {
    if x < y then -1 else if x > y then 1 else 0
  }

  lemma MagnitudesCompareExactly(left: Decimal, right: Decimal)
    ensures CompareMagnitude(left, right) ==
      CompareReals(Scaled(left.coefficient, left.scale), Scaled(right.coefficient, right.scale))
  {
    hide Scaled, Pow10;
    var scale := Max(left.scale, right.scale);
    ScaledUp(left.coefficient, left.scale, scale - left.scale);
    ScaledUp(right.coefficient, right.scale, scale - right.scale);
    SameScaleOrder(left.coefficient * Pow10(scale - left.scale), right.coefficient * Pow10(scale - right.scale), scale);
  }

  /** Comparison is the order of the exact numbers. */
  lemma CompareIsExact(left: Decimal, right: Decimal)
    ensures Compare(left, right) == CompareReals(Number(left), Number(right))
  {
    MagnitudesCompareExactly(left, right);
    ScaledZero(left.scale);
    ScaledZero(right.scale);
    if left.coefficient > 0 { ScaledPositive(left.coefficient, left.scale); }
    if right.coefficient > 0 { ScaledPositive(right.coefficient, right.scale); }
    hide Scaled, CompareMagnitude;
  }

  // ----- canonical text

  function Signed(negative: bool, digits: string): string {
    if negative then "-" + digits else digits
  }

  function CanonicalXSD10(d: Decimal): string {
    if d.coefficient == 0 then "0.0"
    else
      var digits := TextOf(d.coefficient);
      if d.scale == 0 then Signed(d.negative, digits + ".0")
      else if |digits| > d.scale then
        Signed(d.negative, digits[..|digits| - d.scale] + "." + digits[|digits| - d.scale..])
      else
        Signed(d.negative, "0." + Zeros(d.scale - |digits|) + digits)
  }

  function CanonicalFor(d: Decimal, version: Version): Option<string> {
    if version.UnknownVersion? then None
    else if version == XSD11 && d.scale == 0 then Some(Signed(d.negative, TextOf(d.coefficient)))
    else Some(CanonicalXSD10(d))
  }

  function CanonicalSpelling(d: Decimal, version: Version): Spelling {
    var digits := TextOf(d.coefficient);
    Spelling(if d.negative then "-" else "",
      if d.scale == 0 then if version == XSD11 then Split(digits, "", false) else Split(digits, "0", true)
      else if |digits| > d.scale then Split(digits[..|digits| - d.scale], digits[|digits| - d.scale..], true)
      else Split("0", Zeros(d.scale - |digits|) + digits, true))
  }

  lemma CanonicalSpells(d: Decimal, version: Version)
    requires Normal(d) && !version.UnknownVersion?
    ensures WellFormed(CanonicalSpelling(d, version), XSD10)
    ensures CanonicalFor(d, version) == Some(Render(CanonicalSpelling(d, version)))
  {
    hide TextOf, Zeros, DigitsText, WellFormedSplit;
    var s := CanonicalSpelling(d, version);
    var digits := TextOf(d.coefficient);
    if d.coefficient == 0 {
      assert digits == "0" by { ZeroText(); }
      assert "0" + "." + "0" == "0.0";
    }
    if d.scale == 0 && version == XSD11 {
      WholeSpells(digits);
    } else {
      SplitSpells(digits, d.scale, s.split);
    }
    assert s.sign + DigitsText(s.split) == if d.negative then "-" + DigitsText(s.split) else DigitsText(s.split);
    assert WellFormed(s, XSD10);
    assert CanonicalFor(d, version).Some?;
    assert CanonicalFor(d, version).value == Render(s);
  }

  lemma WholeSpells(digits: string)
    requires AllDigits(digits) && digits != ""
    ensures WellFormedSplit(Split(digits, "", false)) && DigitsText(Split(digits, "", false)) == digits
  {
  }

  lemma SplitSpells(digits: string, scale: nat, split: Split)
    requires AllDigits(digits) && digits != ""
    requires split ==
      if scale == 0 then Split(digits, "0", true)
      else if |digits| > scale then Split(digits[..|digits| - scale], digits[|digits| - scale..], true)
      else Split("0", Zeros(scale - |digits|) + digits, true)
    ensures WellFormedSplit(split) && split.integerDigits != "" && split.fractionDigits != ""
    ensures DigitsText(split) ==
      if scale == 0 then digits + ".0"
      else if |digits| > scale then digits[..|digits| - scale] + "." + digits[|digits| - scale..]
      else "0." + Zeros(scale - |digits|) + digits
  {
    if scale >= |digits| {
      PointedZeros(Zeros(scale - |digits|), digits);
    }
  }

  lemma PointedZeros(zeros: string, digits: string)
    ensures "0" + "." + (zeros + digits) == "0." + zeros + digits
  {
  }

  lemma ZeroText()
    ensures TextOf(0) == "0"
  {
  }

  lemma CanonicalDenotes(d: Decimal, version: Version)
    requires Normal(d)
    ensures var s := CanonicalSpelling(d, version);
      WellFormedSplit(s.split) && Denotation(s) == Number(d)
  {
    hide TextOf, ValueOf, Scaled;
    var s := CanonicalSpelling(d, version);
    var digits := TextOf(d.coefficient);
    ValueOfText(d.coefficient);
    if d.scale == 0 {
      if version == XSD11 {
        assert digits + "" == digits;
      } else {
        ValueOfConcat(digits, "0");
        assert ValueOf("0") == 0 by { ValueOfZeros(1); assert Zeros(1) == "0"; }
        assert Pow10(1) == 10;
        ScaledUp(d.coefficient, 0, 1);
      }
    } else if |digits| > d.scale {
      assert s.split.integerDigits + s.split.fractionDigits == digits;
    } else {
      var padding := d.scale - |digits|;
      assert "0" + (Zeros(padding) + digits) == Zeros(padding + 1) + digits;
      ValueOfConcat(Zeros(padding + 1), digits);
      ValueOfZeros(padding + 1);
    }
  }

  /** Parsing the canonical text of either version, under either version's grammar, gives the value back. */
  lemma ParseOfCanonicalText(d: Decimal, printed: Version, read: Version)
    requires Normal(d) && !printed.UnknownVersion?
    ensures CanonicalFor(d, printed).Some? && Parse(CanonicalFor(d, printed).value, read) == Some(d)
  {
    var s := CanonicalSpelling(d, printed);
    CanonicalSpells(d, printed);
    CanonicalDenotes(d, printed);
    hide Parse, Normal, Number, Denotation, CanonicalSpelling, CanonicalFor;
    assert WellFormed(s, read);
    ParseIsExact(s, read);
    NormalFormIsUnique(d, Parse(Render(s), read).value);
  }

  // ----- the layout of canonical text

  lemma DigitsOfNumber(n: nat)
    ensures DecimalLayout.NumberDigits(TextOf(n))
    ensures TextOf(n)[|TextOf(n)| - 1] == DigitChar(n % 10)
  {
    if n > 0 {
      TextHasNoLeadingZero(n);
    }
  }

  /** How many digits stand behind the point; version 1.0 always writes one at least. */
  function PrintedScale(d: Decimal, version: Version): nat {
    if version == XSD10 && d.scale == 0 then 1 else d.scale
  }

  lemma PrintedIsPointed(d: Decimal, version: Version)
    requires Normal(d) && !version.UnknownVersion?
    ensures DecimalLayout.Pointed(CanonicalFor(d, version).value, d.negative, PrintedScale(d, version))
  {
    var digits := TextOf(d.coefficient);
    var sign := if d.negative then "-" else "";
    DigitsOfNumber(d.coefficient);
    ZeroText();
    hide TextOf, DecimalLayout.Pointed, DecimalLayout.NumberDigits;
    if d.coefficient == 0 {
      ZeroIsPointed();
    } else if d.scale > 0 {
      DecimalLayout.FractionIsPointed(sign, d.negative, digits, d.scale);
      SignedText(d.negative, if |digits| > d.scale
        then digits[..|digits| - d.scale] + "." + digits[|digits| - d.scale..]
        else "0." + Zeros(d.scale - |digits|) + digits);
    } else if version == XSD11 {
      DecimalLayout.WholeIsPointed(sign, d.negative, digits);
      SignedText(d.negative, digits);
    } else {
      WithZeroIsPointed(sign, d.negative, digits);
      SignedText(d.negative, digits + ".0");
    }
  }

  lemma SignedText(negative: bool, text: string)
    ensures Signed(negative, text) == (if negative then "-" else "") + text
  {
  }

  lemma ZeroIsPointed()
    ensures DecimalLayout.Pointed("0.0", false, 1) && DecimalLayout.Pointed("0", false, 0)
  {
  }

  lemma WithZeroIsPointed(sign: string, negative: bool, digits: string)
    requires sign == (if negative then "-" else "") && DecimalLayout.NumberDigits(digits)
    ensures DecimalLayout.Pointed(sign + (digits + ".0"), negative, 1)
  {
  }

  /** Behind the point a zero ends the text only as the one digit there. */
  lemma LastDigit(d: Decimal, version: Version)
    requires Normal(d) && !version.UnknownVersion? && d.scale > 0
    ensures var text := CanonicalFor(d, version).value; text != "" && text[|text| - 1] != '0'
  {
    DigitsOfNumber(d.coefficient);
    hide TextOf, Zeros;
    var digits, text := TextOf(d.coefficient), CanonicalFor(d, version).value;
    assert text[|text| - 1] == digits[|digits| - 1];
  }

  /**
   * Version 1.0 always writes a point, version 1.1 exactly for numbers that
   * are no integers. No sign but a minus, no needless zero at either end.
   */
  lemma CanonicalLayout(d: Decimal, version: Version)
    requires Normal(d) && !version.UnknownVersion?
    ensures var text := CanonicalFor(d, version).value;
      && ('.' in text <==> version == XSD10 || !FitsFractionDigits(d, 0))
      && DecimalLayout.Pointed(text, d.negative, PrintedScale(d, version))
      && ('-' in text <==> d.negative) && '+' !in text
      && ('.' in text && text[|text| - 1] == '0' ==> text[|text| - 2] == '.')
  {
    PrintedIsPointed(d, version);
    FractionDigitsIsLeast(d, 0);
    DecimalLayout.PointedCharacters(CanonicalFor(d, version).value, d.negative, PrintedScale(d, version));
    if d.scale > 0 {
      LastDigit(d, version);
    }
    hide CanonicalFor, FitsFractionDigits;
  }

  // ----- digit measures

  function FractionDigits(d: Decimal): nat {
    if d.coefficient == 0 then 0 else d.scale
  }

  function TotalDigits(d: Decimal): nat {
    var digits := |TextOf(d.coefficient)|;
    if FractionDigits(d) > digits then FractionDigits(d) else digits
  }

  /** Section 4.3.11 of XML Schema Part 2: an integer below 10^t over at most the t-th power of ten. */
  ghost predicate FitsTotalDigits(d: Decimal, t: nat) {
    exists i: nat, n: nat :: i < Pow10(t) && n <= t && Scaled(d.coefficient, d.scale) == Scaled(i, n)
  }

  ghost predicate FitsFractionDigits(d: Decimal, f: nat) {
    exists i: nat, n: nat :: n <= f && Scaled(d.coefficient, d.scale) == Scaled(i, n)
  }

  lemma TotalDigitsIsLeast(d: Decimal, t: nat)
    requires Normal(d) && t > 0
    ensures FitsTotalDigits(d, t) <==> TotalDigits(d) <= t
  {
    hide Scaled, TextOf, DigitCount, FitsTotalDigits, Pow10;
    TextLength(d.coefficient);
    OneDigit();
    if d.coefficient == 0 {
      FitsBy(d, t, 0, 0);
    } else {
      var digits := DigitCount(d.coefficient);
      DigitCountBounds(d.coefficient);
      if TotalDigits(d) <= t {
        Pow10Monotone(digits, t);
        FitsBy(d, t, d.coefficient, d.scale);
      }
      if FitsTotalDigits(d, t) {
        AtLeastTotalDigits(d, t);
      }
    }
  }

  lemma FitsBy(d: Decimal, t: nat, i: nat, n: nat)
    requires i < Pow10(t) && n <= t && Scaled(d.coefficient, d.scale) == Scaled(i, n)
    ensures FitsTotalDigits(d, t)
  {
    hide Scaled, Pow10;
  }

  lemma AtLeastTotalDigits(d: Decimal, t: nat)
    requires Normal(d) && d.coefficient > 0 && FitsTotalDigits(d, t)
    ensures TotalDigits(d) <= t
  {
    hide Scaled, TextOf, DigitCount, Pow10;
    var c, digits := d.coefficient, DigitCount(d.coefficient);
    TextLength(c);
    DigitCountBounds(c);
    var i: nat, n: nat :| i < Pow10(t) && n <= t && Scaled(c, d.scale) == Scaled(i, n);
    LeastScale(d, i, n);
    AtLeastFactor(c, Pow10(n - d.scale));
    if t < digits {
      Pow10Monotone(t, digits - 1);
    }
  }

  lemma OneDigit()
    ensures DigitCount(0) == 1
  {
  }

  lemma AtLeastFactor(c: nat, p: nat)
    requires p > 0
    ensures c <= c * p
  {
    assert c * p == c + c * (p - 1);
  }

  lemma FractionDigitsIsLeast(d: Decimal, f: nat)
    requires Normal(d)
    ensures FitsFractionDigits(d, f) <==> FractionDigits(d) <= f
  {
    hide Scaled;
    if FractionDigits(d) <= f {
      var i, n := d.coefficient, d.scale;
      assert n <= f && Scaled(d.coefficient, d.scale) == Scaled(i, n);
    }
    if FitsFractionDigits(d, f) {
      var i: nat, n: nat :| n <= f && Scaled(d.coefficient, d.scale) == Scaled(i, n);
      LeastScale(d, i, n);
    }
  }
}
