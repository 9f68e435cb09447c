/** precisionDecimal values, their exact order and the digit counters (precision_decimal.go). */
module PrecisionDecimal {
  import opened DecimalText
  import opened Powers

  newtype uint64 = x: int | 0 <= x < 0x1_0000_0000_0000_0000

  const CHUNK := 1_000_000_000

  datatype Sign = Positive | Negative

  datatype Value =
    | Finite(coefficient: nat, scale: int, sign: Sign)
    | PositiveInfinity
    | NegativeInfinity
    | NaN

  datatype Order = Less | Equal | Greater | Unordered

  // ----- the reference order, over the exact reals

  function Magnitude(v: Value): real
    requires v.Finite?
  {
    Scaled(v.coefficient, v.scale)
  }

  function Number(v: Value): real
    requires v.Finite?
  {
    if v.sign.Negative? then -Magnitude(v) else Magnitude(v)
  }

  function OrderOfReals(x: real, y: real): Order {
    if x < y then Less else if x > y then Greater else Equal
  }

  function OrderOfInts(x: int, y: int): Order {
    if x < y then Less else if x > y then Greater else Equal
  }

  function Reverse(order: Order): Order {
    match order
    case Less => Greater
    case Greater => Less
    case _ => order
  }

  /** Negative infinity lies below every finite value, positive infinity above. */
  function Level(v: Value): int {
    if v.NegativeInfinity? then -1 else if v.PositiveInfinity? then 1 else 0
  }

  /** The partial order of the value space: NaN is unordered, all else is ordered exactly. */
  function ExactOrder(left: Value, right: Value): Order {
    if left.NaN? || right.NaN? then Unordered
    else if left.Finite? && right.Finite? then OrderOfReals(Number(left), Number(right))
    else OrderOfInts(Level(left), Level(right))
  }

  // ----- magnitude lemmas

  lemma MagnitudeBounds(v: Value)
    requires v.Finite? && v.coefficient > 0
    ensures TenTo(DigitCount(v.coefficient) - 1 - v.scale) <= Magnitude(v) < TenTo(DigitCount(v.coefficient) - v.scale)
  {
    hide TenTo, Pow10, DigitCount;
    var d := DigitCount(v.coefficient);
    CoefficientBounds(v.coefficient);
    TenToAdd(d - 1, -v.scale);
    TenToAdd(d, -v.scale);
    ScaledBounds(TenTo(d - 1), v.coefficient as real, TenTo(d), TenTo(-v.scale));
  }

  lemma CoefficientBounds(c: nat)
    requires c > 0
    ensures DigitCount(c) > 0 && TenTo(DigitCount(c) - 1) <= c as real < TenTo(DigitCount(c))
  {
    DigitCountBounds(c);
    TenToOfNat(DigitCount(c) - 1);
    TenToOfNat(DigitCount(c));
  }

  lemma ScaledBounds(low: real, c: real, high: real, unit: real)
    requires low <= c < high && unit > 0.0
    ensures low * unit <= c * unit < high * unit
  {
    ScaleKeepsOrder(low, c, unit);
    ScaleKeepsOrder(c, high, unit);
  }

  lemma MagnitudeSign(v: Value)
    requires v.Finite?
    ensures v.coefficient == 0 ==> Magnitude(v) == 0.0
    ensures v.coefficient > 0 ==> Magnitude(v) > 0.0
  {
    if v.coefficient > 0 {
      MagnitudeBounds(v);
    }
  }

  // ----- powers of ten and digit counts

  /** Repeated squaring. */
  method PowerOfTen(power: nat) returns (result: nat)
    ensures result == Pow10(power)
  {
    hide Pow10;
    PowersOfTenUpToChunk();
    result := 1;
    var base := 10;
    var remaining := power;
    ghost var done, unit := 0, 1;
    while remaining > 0
      invariant result == Pow10(done) && base == Pow10(unit)
      invariant done + unit * remaining == power
    {
      HalveProduct(unit, remaining);
      if remaining % 2 == 1 {
        Pow10Add(done, unit);
        result := result * base;
        done := done + unit;
      }
      remaining := remaining / 2;
      if remaining == 0 {
        break;
      }
      Pow10Add(unit, unit);
      base := base * base;
      unit := 2 * unit;
    }
  }

  lemma HalveProduct(unit: nat, n: nat)
    ensures unit * n == 2 * unit * (n / 2) + (if n % 2 == 1 then unit else 0)
    ensures n == 0 ==> unit * n == 0
  {
    assert n == 2 * (n / 2) + n % 2;
  }

  lemma PowersOfTenUpToChunk()
    ensures Pow10(0) == 1 && Pow10(1) == 10 && Pow10(2) == 100 && Pow10(3) == 1_000
    ensures Pow10(4) == 10_000 && Pow10(5) == 100_000 && Pow10(6) == 1_000_000
    ensures Pow10(7) == 10_000_000 && Pow10(8) == 100_000_000 && Pow10(9) == CHUNK
  {
  }

  function BitLength(n: nat): nat {
    if n == 0 then 0 else 1 + BitLength(n / 2)
  }

  lemma {:induction false} BitLengthBound(n: nat, h: nat)
    requires BitLength(n) <= 3 * h
    ensures n < Pow10(h)
  {
    if n >= 8 {
      assert BitLength(n / 2) == 1 + BitLength(n / 2 / 2);
      assert BitLength(n / 2 / 2) == 1 + BitLength(n / 2 / 2 / 2);
      assert n / 2 / 2 / 2 == n / 8;
      BitLengthBound(n / 8, h - 1);
    } else if n > 0 {
      Pow10Monotone(1, h);
    }
  }

  /** Binary search for the digit count, bounded by a third of the bit length. */
  method DecimalDigitCount(coefficient: nat) returns (digits: nat)
    requires coefficient > 0
    ensures digits == DigitCount(coefficient)
  {
    var bitLength := BitLength(coefficient);
    var high := bitLength / 3;
    if bitLength % 3 != 0 {
      high := high + 1;
    }
    BitLengthBound(coefficient, high);
    var low := 0;
    while high - low > 1
      invariant Pow10(low) <= coefficient < Pow10(high)
      invariant low < high
    {
      var middle := low + (high - low) / 2;
      var power := PowerOfTen(middle);
      if power <= coefficient {
        low := middle;
      } else {
        high := middle;
      }
    }
    DigitCountUnique(coefficient, low + 1);
    return low + 1;
  }

  function SmallDigitCount(value: uint64): (digits: uint64)
    requires value < 1_000_000_000
    ensures digits as int == DigitCount(value as int)
  {
    var digits: uint64 :=
      if value >= 100_000_000 then 9
      else if value >= 10_000_000 then 8
      else if value >= 1_000_000 then 7
      else if value >= 100_000 then 6
      else if value >= 10_000 then 5
      else if value >= 1_000 then 4
      else if value >= 100 then 3
      else if value >= 10 then 2
      else 1;
    if value == 0 then digits
    else
      PowersOfTenUpToChunk();
      DigitCountUnique(value as int, digits as int);
      digits
  }

  /** Splitting off one chunk of nine digits. */
  lemma ChunkDigits(n: nat)
    requires n >= CHUNK
    ensures n / CHUNK > 0
    ensures DigitCount(n) == 9 + DigitCount(n / CHUNK) >= 10
  {
    PowersOfTenUpToChunk();
    DigitCountShift(n, 9);
  }

  /** Counts digits in chunks of nine and gives up exactly when they exceed `limit`. */
  method DigitCountAtMost(value: nat, limit: uint64) returns (count: uint64, ok: bool)
    requires value > 0
    ensures ok <==> DigitCount(value) <= limit as int
    ensures ok ==> count as int == DigitCount(value)
  {
    if limit == 0 {
      return 0, false;
    }
    var quotient := value;
    var chunks: uint64 := 0;
    while quotient >= CHUNK
      invariant quotient > 0
      invariant DigitCount(value) == 9 * chunks as int + DigitCount(quotient)
      invariant 9 * chunks as int < limit as int
    {
      ChunkDigits(quotient);
      if limit < 10 || chunks > (limit - 10) / 9 {
        return 0, false;
      }
      quotient := quotient / CHUNK;
      chunks := chunks + 1;
    }
    var tail := SmallDigitCount(quotient as uint64);
    if tail > limit {
      return 0, false;
    }
    if chunks > (limit - tail) / 9 {
      return 0, false;
    }
    return chunks * 9 + tail, true;
  }

  ghost predicate IsTenPower(n: nat) {
    exists k: nat :: n == Pow10(k)
  }

  lemma ChunkOfTenPower(n: nat)
    requires n >= CHUNK
    ensures IsTenPower(n) <==> n % CHUNK == 0 && IsTenPower(n / CHUNK)
  {
    PowersOfTenUpToChunk();
    if IsTenPower(n) {
      var k: nat :| n == Pow10(k);
      if k < 9 {
        Pow10Increases(k, 9);
      }
      Pow10Add(k - 9, 9);
      assert n / CHUNK == Pow10(k - 9);
    }
    if n % CHUNK == 0 && IsTenPower(n / CHUNK) {
      var k: nat :| n / CHUNK == Pow10(k);
      Pow10Add(k, 9);
      assert n == Pow10(k + 9);
    }
  }

  lemma TenthOfTenPower(n: nat)
    requires n > 0
    ensures n % 10 == 0 ==> (IsTenPower(n) <==> IsTenPower(n / 10))
    ensures n % 10 != 0 ==> (IsTenPower(n) <==> n == 1)
  {
    assert Pow10(0) == 1;
    if IsTenPower(n) {
      var k: nat :| n == Pow10(k);
      if k > 0 {
        assert n / 10 == Pow10(k - 1);
      }
    }
    if n % 10 == 0 && IsTenPower(n / 10) {
      var k: nat :| n / 10 == Pow10(k);
      assert n == Pow10(k + 1);
    }
  }

  method IsPowerOfTen(value: nat) returns (power: bool)
    ensures power <==> IsTenPower(value)
  {
    if value <= 0 {
      return false;
    }
    var quotient := value;
    while quotient >= CHUNK
      invariant quotient > 0
      invariant IsTenPower(value) <==> IsTenPower(quotient)
    {
      ChunkOfTenPower(quotient);
      var remainder := quotient % CHUNK;
      quotient := quotient / CHUNK;
      if remainder != 0 {
        return false;
      }
    }
    var small := quotient;
    if small == 0 {
      return false;
    }
    while small % 10 == 0
      invariant small > 0
      decreases small
      invariant IsTenPower(value) <==> IsTenPower(small)
    {
      TenthOfTenPower(small);
      small := small / 10;
    }
    TenthOfTenPower(small);
    return small == 1;
  }

  // ----- comparison

  /** Compares adjusted exponents first and aligns by the digit-count difference only. */
  method CompareMagnitude(left: Value, right: Value) returns (order: Order)
    requires left.Finite? && right.Finite?
    requires left.coefficient > 0 && right.coefficient > 0
    ensures order == OrderOfReals(Magnitude(left), Magnitude(right))
  {
    hide Pow10, TenTo, Scaled, DigitCount;
    var leftDigits := DecimalDigitCount(left.coefficient);
    var rightDigits := DecimalDigitCount(right.coefficient);
    var leftOrder := leftDigits - 1 - left.scale;
    var rightOrder := rightDigits - 1 - right.scale;
    if leftOrder != rightOrder {
      LeadingOrderDecides(left, right);
      return OrderOfInts(leftOrder, rightOrder);
    }
    var digitDifference := leftDigits - rightDigits;
    if digitDifference > 0 {
      var power := PowerOfTen(digitDifference);
      AlignedOrder(left.coefficient, right.coefficient, right.scale, digitDifference);
      return OrderOfInts(left.coefficient, right.coefficient * power);
    }
    if digitDifference < 0 {
      var power := PowerOfTen(-digitDifference);
      AlignedOrder(right.coefficient, left.coefficient, left.scale, -digitDifference);
      return OrderOfInts(left.coefficient * power, right.coefficient);
    }
    SameScaleOrder(left.coefficient, right.coefficient, left.scale);
    return OrderOfInts(left.coefficient, right.coefficient);
  }

  lemma LeadingOrderDecides(left: Value, right: Value)
    requires left.Finite? && right.Finite?
    requires left.coefficient > 0 && right.coefficient > 0
    requires DigitCount(left.coefficient) - left.scale != DigitCount(right.coefficient) - right.scale
    ensures OrderOfInts(DigitCount(left.coefficient) - 1 - left.scale, DigitCount(right.coefficient) - 1 - right.scale)
         == OrderOfReals(Magnitude(left), Magnitude(right))
  {
    hide TenTo, Magnitude, DigitCount;
    MagnitudeBounds(left);
    MagnitudeBounds(right);
    var leftOrder := DigitCount(left.coefficient) - 1 - left.scale;
    var rightOrder := DigitCount(right.coefficient) - 1 - right.scale;
    if leftOrder < rightOrder {
      TenToMonotone(leftOrder + 1, rightOrder);
    } else {
      TenToMonotone(rightOrder + 1, leftOrder);
    }
  }

  method CompareFinite(left: Value, right: Value) returns (order: Order)
    requires left.Finite? && right.Finite?
    ensures order == ExactOrder(left, right)
  {
    hide TenTo, Magnitude;
    MagnitudeSign(left);
    MagnitudeSign(right);
    var leftZero := left.coefficient == 0;
    var rightZero := right.coefficient == 0;
    if leftZero && rightZero {
      return Equal;
    }
    if leftZero {
      return if right.sign.Negative? then Greater else Less;
    }
    if rightZero {
      return if left.sign.Negative? then Less else Greater;
    }
    if left.sign != right.sign {
      return if left.sign.Negative? then Less else Greater;
    }
    order := CompareMagnitude(left, right);
    if left.sign.Negative? {
      order := Reverse(order);
    }
  }

  /** The comparison of any two values is the exact partial order. */
  method Compare(left: Value, right: Value) returns (order: Order)
    ensures order == ExactOrder(left, right)
  {
    if left.NaN? || right.NaN? {
      return Unordered;
    }
    match left
    case Finite(_, _, _) =>
      match right {
        case Finite(_, _, _) => order := CompareFinite(left, right);
        case PositiveInfinity => order := Less;
        case NegativeInfinity => order := Greater;
      }
    case PositiveInfinity =>
      order := if right.PositiveInfinity? then Equal else Greater;
    case NegativeInfinity =>
      order := if right.NegativeInfinity? then Equal else Less;
  }

  // ----- laws of the order

  lemma OrderIsDual(left: Value, right: Value)
    ensures ExactOrder(right, left) == Reverse(ExactOrder(left, right))
    ensures ExactOrder(left, right) == Unordered <==> left.NaN? || right.NaN?
  {
  }

  /** Less and Equal compose as a total preorder does; NaN never takes part. */
  lemma OrderIsTransitive(a: Value, b: Value, c: Value)
    requires ExactOrder(a, b) in {Less, Equal} && ExactOrder(b, c) in {Less, Equal}
    ensures ExactOrder(a, c) == (if ExactOrder(a, b) == Equal then ExactOrder(b, c) else Less)
  {
  }
}
