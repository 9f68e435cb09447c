/** The pointed layout that the canonical printers of both decimal types write. */
module DecimalLayout {
  import opened DecimalText

  /** Where the digits start, behind the sign if there is one. */
  function Start(negative: bool): nat {
    if negative then 1 else 0
  }

  predicate Signed(text: string, negative: bool) {
    |text| > Start(negative) && (negative ==> text[0] == '-')
  }

  /** Digits, with a point before the last `scale` of them if `scale` is positive, and no needless zero in front. */
  predicate Pointed(text: string, negative: bool, scale: nat) {
    var start := Start(negative);
    var point := if scale == 0 then |text| else |text| - scale - 1;
    && Signed(text, negative) && start < point && (scale > 0 ==> text[point] == '.')
    && (forall i :: start <= i < |text| && i != point ==> IsDigit(text[i]))
    && (text[start] == '0' ==> point == start + 1)
  }

  lemma PointedCharacters(text: string, negative: bool, scale: nat)
    requires Pointed(text, negative, scale)
    ensures 'E' !in text && '+' !in text && ('.' in text <==> scale > 0) && ('-' in text <==> negative)
  {
    if scale > 0 {
      assert text[|text| - scale - 1] == '.';
    }
    if negative {
      assert text[0] == '-';
    }
  }

  /** Digits that a number has: no zero in front of another digit. */
  predicate NumberDigits(digits: string) {
    digits != "" && AllDigits(digits) && (digits[0] == '0' ==> digits == "0")
  }

  lemma WholeIsPointed(sign: string, negative: bool, digits: string)
    requires sign == (if negative then "-" else "") && NumberDigits(digits)
    ensures Pointed(sign + digits, negative, 0)
  {
  }

  lemma FractionIsPointed(sign: string, negative: bool, digits: string, scale: nat)
    requires sign == (if negative then "-" else "") && NumberDigits(digits) && scale > 0
    ensures Pointed(
      sign + if scale < |digits| then digits[..|digits| - scale] + "." + digits[|digits| - scale..]
             else "0." + Zeros(scale - |digits|) + digits,
      negative, scale)
  {
    hide Zeros;
  }
}
