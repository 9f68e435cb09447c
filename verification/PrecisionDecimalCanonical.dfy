/** The budgeted canonical printer: plan the exact length, then write (precision_decimal.go). */
module PrecisionDecimalCanonical {
  import opened Wrappers
  import opened DecimalText
  import opened Powers
  import opened PrecisionDecimal

  /** The largest 64-bit signed integer, which bounds every string length. */
  const MAX_INT: uint64 := 0x7fff_ffff_ffff_ffff

  datatype Form =
    | ZeroForm | NoDecimalForm | DecimalForm | ScientificForm | PositiveInfinityForm | NegativeInfinityForm | NaNForm

  datatype Plan = Plan(form: Form, length: uint64, negative: bool, coefficient: nat, scale: nat, exponent: int)

  datatype CanonicalFailure = OutputLimit | InconsistentLength

  // ----- the unbudgeted canonical text

  function SignText(negative: bool): string {
    if negative then "-" else ""
  }

  function IntText(n: int): string {
    if n < 0 then "-" + TextOf(-n) else TextOf(n)
  }

  /** Digits with a point so that `scale` of them are fractional. */
  function PointedText(digits: string, scale: nat): string
    requires AllDigits(digits)
  {
    if scale < |digits| then digits[..|digits| - scale] + "." + digits[|digits| - scale..]
    else "0." + Zeros(scale - |digits|) + digits
  }

  function ScientificText(digits: string, exponent: int): string
    requires |digits| > 0
  {
    (if |digits| == 1 then digits else digits[..1] + "." + digits[1..]) + "E" + IntText(exponent)
  }

  /** Between one millionth and one million, both included. */
  predicate InCanonicalRange(v: Value)
    requires v.Finite?
  {
    TenTo(-6) <= Magnitude(v) <= TenTo(6)
  }

  function AdjustedExponent(v: Value): int
    requires v.Finite?
  {
    DigitCount(v.coefficient) - 1 - v.scale
  }

  function CanonicalText(v: Value): string {
    match v
    case PositiveInfinity => "INF"
    case NegativeInfinity => "-INF"
    case NaN => "NaN"
    case Finite(coefficient, scale, sign) =>
      SignText(sign.Negative?) +
      if coefficient == 0 then "0.0E0"
      else if scale == 0 && InCanonicalRange(v) then TextOf(coefficient)
      else if scale > 0 && InCanonicalRange(v) then PointedText(TextOf(coefficient), scale)
      else ScientificText(TextOf(coefficient), AdjustedExponent(v))
  }

  /** The text that the writer produces for a plan. */
  function PlannedText(plan: Plan): string {
    match plan.form
    case PositiveInfinityForm => "INF"
    case NegativeInfinityForm => "-INF"
    case NaNForm => "NaN"
    case ZeroForm => SignText(plan.negative) + "0.0E0"
    case NoDecimalForm => SignText(plan.negative) + TextOf(plan.coefficient)
    case DecimalForm => SignText(plan.negative) + PointedText(TextOf(plan.coefficient), plan.scale)
    case ScientificForm => SignText(plan.negative) + ScientificText(TextOf(plan.coefficient), plan.exponent)
  }

  // ----- planning

  function LengthLimit(budget: uint64): (limit: uint64)
    ensures limit <= budget && limit <= MAX_INT && (limit == budget || limit == MAX_INT)
  {
    if budget < MAX_INT then budget else MAX_INT
  }

  function AddLength(length: uint64, addition: uint64, limit: uint64): (sum: Option<uint64>)
    ensures sum.Some? <==> length as int + addition as int <= limit as int
    ensures sum.Some? ==> sum.value as int == length as int + addition as int
  {
    if length > limit || addition > limit - length then None else Some(length + addition)
  }

  method AddBigLength(length: uint64, addition: int, limit: uint64) returns (sum: Option<uint64>)
    requires addition >= 0
    ensures sum.Some? <==> length as int + addition <= limit as int
    ensures sum.Some? ==> sum.value as int == length as int + addition
  {
    if length > limit {
      return None;
    }
    var remaining := (limit - length) as int;
    if addition > remaining {
      return None;
    }
    var result := length;
    var count := addition;
    while count > 0
      invariant 0 <= count <= addition
      invariant result as int + count == length as int + addition
    {
      result := result + 1;
      count := count - 1;
    }
    return Some(result);
  }

  function SignLength(negative: bool): (length: uint64)
    ensures length as int == |SignText(negative)|
  {
    if negative then 1 else 0
  }

  method DecimalLength(negative: bool, scale: int, digits: uint64, limit: uint64, ghost text: string)
    returns (sum: Option<uint64>)
    requires scale > 0 && limit <= MAX_INT && digits <= limit
    requires AllDigits(text) && |text| == digits as int
    ensures sum.Some? <==> |SignText(negative) + PointedText(text, scale)| <= limit as int
    ensures sum.Some? ==> sum.value as int == |SignText(negative) + PointedText(text, scale)|
  {
    var length := SignLength(negative);
    if scale < digits as int {
      return AddLength(length, digits + 1, limit);
    }
    var prefix := AddLength(length, 2, limit);
    if prefix.None? {
      return None;
    }
    sum := AddBigLength(prefix.value, scale, limit);
  }

  method ScientificLength(negative: bool, exponent: int, digits: uint64, limit: uint64, ghost text: string)
    returns (sum: Option<uint64>)
    requires limit <= MAX_INT && 0 < digits <= limit
    requires |text| == digits as int
    ensures sum.Some? <==> |SignText(negative) + ScientificText(text, exponent)| <= limit as int
    ensures sum.Some? ==> sum.value as int == |SignText(negative) + ScientificText(text, exponent)|
  {
    TextLength(if exponent < 0 then -exponent else exponent);
    var mantissaLength := digits;
    if digits > 1 {
      mantissaLength := mantissaLength + 1;
    }
    sum := AddLength(SignLength(negative), mantissaLength, limit);
    if sum.None? {
      return;
    }
    sum := AddLength(sum.value, 1, limit);
    if sum.None? {
      return;
    }
    if exponent < 0 {
      sum := AddLength(sum.value, 1, limit);
      if sum.None? {
        return;
      }
    }
    var exponentDigits := if exponent < 0 then -exponent else exponent;
    if exponentDigits == 0 {
      return AddLength(sum.value, 1, limit);
    }
    var remaining := limit - sum.value;
    var digitCount, ok := DigitCountAtMost(exponentDigits, remaining);
    if !ok {
      return None;
    }
    return AddLength(sum.value, digitCount, limit);
  }

  lemma TenPowerDigits(c: nat)
    requires c > 0
    ensures IsTenPower(c) <==> c == Pow10(DigitCount(c) - 1)
  {
    if IsTenPower(c) {
      var k: nat :| c == Pow10(k);
      DigitCountUnique(c, k + 1);
    }
  }

  /** At adjusted exponent six only one million itself is in range. */
  lemma MillionIsTenPower(v: Value)
    requires v.Finite? && v.coefficient > 0 && AdjustedExponent(v) == 6
    ensures Magnitude(v) <= TenTo(6) <==> IsTenPower(v.coefficient)
  {
    hide TenTo, Pow10, DigitCount;
    var d := DigitCount(v.coefficient);
    TenPowerDigits(v.coefficient);
    TenToAdd(d - 1, -v.scale);
    TenToOfNat(d - 1);
    DigitCountBounds(v.coefficient);
    ScaleKeepsOrder(v.coefficient as real, TenTo(d - 1), TenTo(-v.scale));
  }

  method MagnitudeInCanonicalRange(adjustedExponent: int, v: Value) returns (inRange: bool)
    requires v.Finite? && v.coefficient > 0 && adjustedExponent == AdjustedExponent(v)
    ensures inRange <==> InCanonicalRange(v)
  {
    hide TenTo, Magnitude;
    MagnitudeBounds(v);
    if adjustedExponent < -6 {
      TenToMonotone(adjustedExponent + 1, -6);
      return false;
    }
    TenToMonotone(-6, adjustedExponent);
    if adjustedExponent < 6 {
      TenToMonotone(adjustedExponent + 1, 6);
      return true;
    }
    if adjustedExponent > 6 {
      TenToMonotone(7, adjustedExponent);
      TenToStep(6);
      return false;
    }
    MillionIsTenPower(v);
    inRange := IsPowerOfTen(v.coefficient);
  }

  /** A plan that will print exactly the canonical text of `v`. */
  ghost predicate Plans(plan: Option<Plan>, v: Value, limit: uint64) {
    && (plan.Some? <==> |CanonicalText(v)| <= limit as int)
    && (plan.Some? ==> PlannedText(plan.value) == CanonicalText(v) && plan.value.length as int == |CanonicalText(v)|)
  }

  function PlanFixed(form: Form, length: uint64, negative: bool, limit: uint64): Option<Plan> {
    if length > limit then None else Some(Plan(form, length, negative, 0, 0, 0))
  }

  method PlanFinite(v: Value, limit: uint64) returns (plan: Option<Plan>)
    requires v.Finite? && limit <= MAX_INT
    ensures Plans(plan, v, limit)
  {
    hide TenTo, Magnitude, DigitCount, TextOf, PointedText, InCanonicalRange;
    var negative := v.sign.Negative?;
    if v.coefficient == 0 {
      return PlanFixed(ZeroForm, if negative then 6 else 5, negative, limit);
    }
    ghost var digits := TextOf(v.coefficient);
    TextLength(v.coefficient);
    var digitCount, ok := DigitCountAtMost(v.coefficient, limit);
    if !ok {
      CanonicalTextLongerThanDigits(v);
      return None;
    }
    var adjustedExponent := digitCount as int - 1 - v.scale;
    var inRange := MagnitudeInCanonicalRange(adjustedExponent, v);
    var length: Option<uint64>;
    if v.scale == 0 && inRange {
      length := AddLength(SignLength(negative), digitCount, limit);
      if length.None? {
        return None;
      }
      return Some(Plan(NoDecimalForm, length.value, negative, v.coefficient, 0, 0));
    }
    if v.scale > 0 && inRange {
      length := DecimalLength(negative, v.scale, digitCount, limit, digits);
      if length.None? {
        return None;
      }
      return Some(Plan(DecimalForm, length.value, negative, v.coefficient, v.scale, 0));
    }
    length := ScientificLength(negative, adjustedExponent, digitCount, limit, digits);
    if length.None? {
      return None;
    }
    return Some(Plan(ScientificForm, length.value, negative, v.coefficient, 0, adjustedExponent));
  }

  lemma CanonicalTextLongerThanDigits(v: Value)
    requires v.Finite? && v.coefficient > 0
    ensures |CanonicalText(v)| >= DigitCount(v.coefficient)
  {
    hide TenTo, Magnitude, DigitCount, InCanonicalRange;
    TextLength(v.coefficient);
  }

  method PlanCanonical(v: Value, limit: uint64) returns (plan: Option<Plan>)
    requires limit <= MAX_INT
    ensures Plans(plan, v, limit)
  {
    match v
    case Finite(_, _, _) => plan := PlanFinite(v, limit);
    case PositiveInfinity => plan := PlanFixed(PositiveInfinityForm, 3, false, limit);
    case NegativeInfinity => plan := PlanFixed(NegativeInfinityForm, 4, false, limit);
    case NaN => plan := PlanFixed(NaNForm, 3, false, limit);
  }

  // ----- writing

  class CanonicalWriter {
    var builder: string

    constructor ()
      ensures builder == ""
    {
      builder := "";
    }

    method WriteByte(value: char)
      modifies this
      ensures builder == old(builder) + [value]
    {
      builder := builder + [value];
    }

    method WriteString(value: string)
      modifies this
      ensures builder == old(builder) + value
    {
      builder := builder + value;
    }

    method WriteZeroes(count: int)
      requires count >= 0
      modifies this
      ensures builder == old(builder) + Zeros(count)
    {
      var remaining := count;
      while remaining > 0
        invariant 0 <= remaining <= count
        invariant builder == old(builder) + Zeros(count - remaining)
      {
        WriteByte('0');
        remaining := remaining - 1;
        assert Zeros(count - remaining) == Zeros(count - remaining - 1) + "0";
      }
    }

    method WriteDecimal(scale: int, digits: string)
      requires scale >= 0 && AllDigits(digits)
      modifies this
      ensures builder == old(builder) + PointedText(digits, scale)
    {
      if scale < |digits| {
        var integerDigits := DecimalPointIndex(scale, |digits|);
        WriteString(digits[..integerDigits]);
        WriteByte('.');
        WriteString(digits[integerDigits..]);
        ThreeWrites(old(builder), digits[..integerDigits], ".", digits[integerDigits..]);
        return;
      }
      WriteString("0.");
      WriteZeroes(scale - |digits|);
      WriteString(digits);
      ThreeWrites(old(builder), "0.", Zeros(scale - |digits|), digits);
    }

    method WriteScientific(exponent: int, digits: string)
      requires |digits| > 0
      modifies this
      ensures builder == old(builder) + ScientificText(digits, exponent)
    {
      ghost var mantissa := if |digits| == 1 then digits else digits[..1] + "." + digits[1..];
      if |digits| == 1 {
        WriteString(digits);
      }
      if |digits| > 1 {
        WriteByte(digits[0]);
        WriteByte('.');
        WriteString(digits[1..]);
        assert digits[..1] == [digits[0]];
      }
      assert builder == old(builder) + mantissa;
      WriteExponent(exponent);
    }

    method WriteExponent(exponent: int)
      modifies this
      ensures builder == old(builder) + "E" + IntText(exponent)
    {
      hide TextOf;
      WriteByte('E');
      if exponent < 0 {
        WriteByte('-');
      }
      var text := TextOf(if exponent < 0 then -exponent else exponent);
      WriteString(text);
      ThreeWrites(old(builder), "E", SignText(exponent < 0), text);
    }
  }

  lemma ThreeWrites(before: string, a: string, b: string, c: string)
    ensures before + a + b + c == before + (a + b + c)
  {
  }

  method DecimalPointIndex(scale: int, digits: int) returns (index: int)
    requires 0 <= scale
    ensures index == digits - scale
  {
    index := digits;
    var remaining := scale;
    while remaining > 0
      invariant 0 <= remaining
      invariant index - remaining == digits - scale
    {
      index := index - 1;
      remaining := remaining - 1;
    }
  }

  /** Writes a plan; a plan of the wrong length is reported as an internal failure. */
  method Materialize(plan: Plan) returns (result: Result<string, CanonicalFailure>)
    ensures plan.form in {PositiveInfinityForm, NegativeInfinityForm, NaNForm, ZeroForm} ==>
      result == Ok(PlannedText(plan))
    ensures plan.form in {NoDecimalForm, DecimalForm, ScientificForm} ==>
      result == if |PlannedText(plan)| == plan.length as int then Ok(PlannedText(plan)) else Err(InconsistentLength)
  {
    match plan.form {
      case PositiveInfinityForm => return Ok("INF");
      case NegativeInfinityForm => return Ok("-INF");
      case NaNForm => return Ok("NaN");
      case ZeroForm =>
        assert "-" + "0.0E0" == "-0.0E0" && "" + "0.0E0" == "0.0E0";
        return Ok(if plan.negative then "-0.0E0" else "0.0E0");
      case _ =>
    }
    var writer := new CanonicalWriter();
    var digits := TextOf(plan.coefficient);
    if plan.negative {
      writer.WriteByte('-');
    }
    assert writer.builder == SignText(plan.negative);
    match plan.form {
      case NoDecimalForm => writer.WriteString(digits);
      case DecimalForm => writer.WriteDecimal(plan.scale, digits);
      case ScientificForm => writer.WriteScientific(plan.exponent, digits);
    }
    var text := writer.builder;
    if |text| != plan.length as int {
      return Err(InconsistentLength);
    }
    return Ok(text);
  }

  /**
   * The printer succeeds exactly when the canonical text fits the budget and a
   * string length, and then returns that text; a length inconsistency never occurs.
   */
  method Canonical(v: Value, budget: uint64) returns (result: Result<string, CanonicalFailure>)
    ensures result.Ok? <==> |CanonicalText(v)| <= budget as int && |CanonicalText(v)| <= MAX_INT as int
    ensures result == if result.Ok? then Ok(CanonicalText(v)) else Err(OutputLimit)
  {
    var limit := LengthLimit(budget);
    CanonicalTextNotEmpty(v);
    if limit == 0 {
      return Err(OutputLimit);
    }
    var plan := PlanCanonical(v, limit);
    if plan.None? {
      return Err(OutputLimit);
    }
    result := Materialize(plan.value);
  }

  lemma CanonicalTextNotEmpty(v: Value)
    ensures |CanonicalText(v)| > 0
  {
    if v.Finite? && v.coefficient > 0 {
      CanonicalTextLongerThanDigits(v);
    }
  }
}
