/** When a restriction of precisionDecimal facets is accepted (precision_decimal_value_facets.go). */
module PrecisionDecimalAcceptance {
  import opened Wrappers
  import opened DecimalText
  import opened Powers
  import opened PrecisionDecimal
  import opened PrecisionDecimalFacets

  // ----- there is a value between any two

  lemma AtScale(v: Value, scale: int) returns (a: int)
    requires v.Finite? && v.scale <= scale
    ensures Number(v) == SignedScaled(a, scale)
  {
    hide Scaled, Pow10;
    var c := v.coefficient * Pow10(scale - v.scale);
    ScaledUp(v.coefficient, v.scale, scale - v.scale);
    NothingScaled(scale);
    a := if v.sign.Negative? then -c else c;
  }

  function ValueAt(a: int, scale: int): (v: Value)
    ensures v.Finite? && Number(v) == SignedScaled(a, scale)
  {
    if a < 0 then Finite(-a, scale, Negative) else Finite(a, scale, Positive)
  }

  lemma BetweenFinite(low: Value, high: Value) returns (v: Value)
    requires low.Finite? && high.Finite? && Number(low) < Number(high)
    ensures v.Finite? && Number(low) < Number(v) < Number(high)
  {
    hide Number, SignedScaled;
    var scale := if low.scale < high.scale then high.scale else low.scale;
    var a := AtScale(low, scale);
    var b := AtScale(high, scale);
    SignedOrder(a, b, scale);
    TimesTen(a, scale);
    TimesTen(b, scale);
    v := ValueAt(5 * (a + b), scale + 1);
    SignedOrder(10 * a, 5 * (a + b), scale + 1);
    SignedOrder(5 * (a + b), 10 * b, scale + 1);
  }

  lemma BeyondFinite(v: Value) returns (below: Value, above: Value)
    requires v.Finite?
    ensures below.Finite? && above.Finite? && Number(below) < Number(v) < Number(above)
  {
    hide Number, SignedScaled;
    var a := AtScale(v, v.scale);
    below, above := ValueAt(a - 1, v.scale), ValueAt(a + 1, v.scale);
    SignedOrder(a - 1, a, v.scale);
    SignedOrder(a, a + 1, v.scale);
  }

  /** Between any two values of the order lies a third, the infinities included. */
  lemma Between(low: Value, high: Value) returns (v: Value)
    requires ExactOrder(low, high) == Less
    ensures ExactOrder(low, v) == Less && ExactOrder(v, high) == Less
  {
    hide Number;
    if low.Finite? && high.Finite? {
      v := BetweenFinite(low, high);
    } else if low.Finite? {
      var _, above := BeyondFinite(low);
      v := above;
    } else if high.Finite? {
      var below, _ := BeyondFinite(high);
      v := below;
    } else {
      v := Finite(0, 0, Positive);
    }
  }

  // ----- bounds

  /** Whatever the one bound admits, the other admits. */
  ghost predicate BoundImplies(one: Bound, kind: BoundKind, other: Bound, otherKind: BoundKind) {
    forall v :: BoundHolds(v, kind, Some(one)) ==> BoundHolds(v, otherKind, Some(other))
  }

  /** A value that the local bound admits and the base bound does not, if the local one lies before it. */
  lemma Escapes(local: Bound, kind: BoundKind, base: Bound, baseKind: BoundKind) returns (v: Value)
    requires kind.Lower() == baseKind.Lower()
    requires var order := ExactOrder(local.value, base.value);
      || order == (if kind.Lower() then Less else Greater)
      || (order == Equal && kind.Inclusive() && !baseKind.Inclusive())
    ensures BoundHolds(v, kind, Some(local)) && !BoundHolds(v, baseKind, Some(base))
  {
    OrderIsDual(local.value, base.value);
    OrderIsReflexive(local.value);
    hide ExactOrder;
    if kind.Inclusive() {
      v := local.value;
    } else if kind.Lower() {
      v := Between(local.value, base.value);
      OrderIsDual(local.value, v);
    } else {
      v := Between(base.value, local.value);
      OrderIsDual(base.value, v);
    }
  }

  /** A bound has to keep a fixed value, and must not admit what the base bound shuts out. */
  lemma BoundRestrictionMeans(local: Bound, kind: BoundKind, base: Bound, baseKind: BoundKind)
    requires kind.Lower() == baseKind.Lower() && !base.value.NaN?
    ensures BoundRestrictionHolds(local, kind, base, baseKind) <==>
      && (base.fixed && kind == baseKind ==> EqualOrIdentical(local.value, base.value))
      && forall v :: BoundHolds(v, kind, Some(local)) ==> BoundHolds(v, baseKind, Some(base))
  {
    hide ExactOrder, BoundHolds;
    if BoundRestrictionHolds(local, kind, base, baseKind) {
      forall v | BoundHolds(v, kind, Some(local))
        ensures BoundHolds(v, baseKind, Some(base))
      {
        TighterBound(v, local, kind, base, baseKind);
      }
    }
    var order := ExactOrder(local.value, base.value);
    if
      || order == (if kind.Lower() then Less else Greater)
      || (order == Equal && kind.Inclusive() && !baseKind.Inclusive())
    {
      var v := Escapes(local, kind, base, baseKind);
    }
  }

  /** Against a NaN bound only fixedness is checked. */
  lemma NaNRestrictionMeans(local: Bound, kind: BoundKind, base: Bound, baseKind: BoundKind)
    requires base.value.NaN?
    ensures BoundRestrictionHolds(local, kind, base, baseKind) <==>
      (base.fixed && kind == baseKind ==> local.value.NaN?)
  {
  }

  /** What need not be a member repeats a base bound that shuts out its own value; an inclusive one is fixed. */
  lemma MembershipExceptionMeans(base: Facets, kind: BoundKind, v: Value)
    ensures MembershipException(base, kind, v) <==>
      && base.bounds.Get(kind).Some? && EqualOrIdentical(v, base.bounds.Get(kind).value.value)
      && !BoundHolds(v, kind, base.bounds.Get(kind))
      && (kind.Inclusive() ==> base.bounds.Get(kind).value.fixed)
  {
    if base.bounds.Get(kind).Some? {
      OrderIsDual(v, base.bounds.Get(kind).value.value);
    }
    hide ExactOrder;
  }

  // ----- digits and scales

  /** A number with exactly so many digits. */
  lemma WithDigits(n: nat) returns (v: Value)
    requires n > 0
    ensures v.Finite? && v.coefficient > 0 && DigitCount(v.coefficient) == n
  {
    v := Finite(Pow10(n - 1), 0, Positive);
    assert Pow10(n) == 10 * Pow10(n - 1);
    DigitCountUnique(Pow10(n - 1), n);
  }

  lemma TotalDigitsRestrictionMeans(local: DigitFacet, base: DigitFacet)
    requires local.value > 0
    ensures DigitRestriction(Some(local), Some(base), true, AT_MOST).Pass? <==>
      && (base.fixed ==> local.value == base.value)
      && forall v :: TotalDigitsHold(v, Some(local)) ==> TotalDigitsHold(v, Some(base))
  {
    hide DigitCount;
    var v := WithDigits(local.value);
    assert TotalDigitsHold(v, Some(local));
  }

  lemma MinScaleRestrictionMeans(local: DigitFacet, base: DigitFacet)
    ensures DigitRestriction(Some(local), Some(base), true, AT_LEAST).Pass? <==>
      && (base.fixed ==> local.value == base.value)
      && forall v :: ScaleHolds(v, Some(local), None) ==> ScaleHolds(v, Some(base), None)
  {
    assert ScaleHolds(Finite(0, local.value, Positive), Some(local), None);
  }

  lemma MaxScaleRestrictionMeans(local: DigitFacet, base: DigitFacet)
    ensures DigitRestriction(Some(local), Some(base), true, AT_MOST).Pass? <==>
      && (base.fixed ==> local.value == base.value)
      && forall v :: ScaleHolds(v, None, Some(local)) ==> ScaleHolds(v, None, Some(base))
  {
    assert ScaleHolds(Finite(0, local.value, Positive), None, Some(local));
  }

  /** The scales of a set agree exactly when some number has one between them. */
  lemma ScaleBoundsMean(minScale: Option<DigitFacet>, maxScale: Option<DigitFacet>)
    ensures ScaleBoundsHold(minScale, maxScale) <==> exists v: Value :: v.Finite? && ScaleHolds(v, minScale, maxScale)
  {
    var scale := if minScale.Some? then minScale.value.value else if maxScale.Some? then maxScale.value.value else 0;
    var v := Finite(0, scale, Positive);
    if ScaleBoundsHold(minScale, maxScale) {
      assert v.Finite? && ScaleHolds(v, minScale, maxScale);
    }
  }

  // ----- the bounds of a set

  function LowerOf(bounds: Bounds): Option<Bound> {
    if bounds.minInclusive.Some? then bounds.minInclusive else bounds.minExclusive
  }

  function UpperOf(bounds: Bounds): Option<Bound> {
    if bounds.maxInclusive.Some? then bounds.maxInclusive else bounds.maxExclusive
  }

  /** Two exclusive bounds at one point, which the program allows although they admit nothing. */
  predicate AtExclusivePoint(bounds: Bounds) {
    && bounds.minExclusive.Some? && bounds.maxExclusive.Some?
    && ExactOrder(bounds.minExclusive.value.value, bounds.maxExclusive.value.value) == Equal
  }

  predicate NaNEndpoint(bounds: Bounds) {
    || (LowerOf(bounds).Some? && LowerOf(bounds).value.value.NaN?)
    || (UpperOf(bounds).Some? && UpperOf(bounds).value.value.NaN?)
  }

  lemma WithinSides(bounds: Bounds, v: Value)
    requires OneKindPerSide(bounds)
    ensures BoundsHold(v, bounds) <==>
      && BoundHolds(v, if bounds.minInclusive.Some? then MinInclusive else MinExclusive, LowerOf(bounds))
      && BoundHolds(v, if bounds.maxInclusive.Some? then MaxInclusive else MaxExclusive, UpperOf(bounds))
  {
    hide ExactOrder;
  }

  /** A value within two bounds, if there is one. */
  lemma Inside(bounds: Bounds) returns (v: Value)
    requires OneKindPerSide(bounds) && LowerOf(bounds).Some? && UpperOf(bounds).Some?
    requires var order := ExactOrder(LowerOf(bounds).value.value, UpperOf(bounds).value.value);
      order == Less || (order == Equal && bounds.minInclusive.Some? && bounds.maxInclusive.Some?)
    ensures BoundsHold(v, bounds)
  {
    var low, high := LowerOf(bounds).value.value, UpperOf(bounds).value.value;
    OrderIsDual(low, high);
    OrderIsReflexive(low);
    OrderIsReflexive(high);
    if ExactOrder(low, high) == Equal {
      v := low;
    } else {
      v := Between(low, high);
      OrderIsDual(low, v);
    }
    hide ExactOrder;
    WithinSides(bounds, v);
  }

  lemma NothingInside(bounds: Bounds, v: Value)
    requires OneKindPerSide(bounds) && LowerOf(bounds).Some? && UpperOf(bounds).Some? && BoundsHold(v, bounds)
    ensures var order := ExactOrder(LowerOf(bounds).value.value, UpperOf(bounds).value.value);
      order == Less || (order == Equal && bounds.minInclusive.Some? && bounds.maxInclusive.Some?)
  {
    var low, high := LowerOf(bounds).value.value, UpperOf(bounds).value.value;
    WithinSides(bounds, v);
    OrderIsDual(v, low);
    OrdersCompose(low, v, high);
    hide ExactOrder;
  }

  /** Bounds are consistent exactly when they admit a value, involve NaN, or are exclusive at one point. */
  lemma BoundStateMeans(bounds: Bounds)
    requires LowerOf(bounds).Some? && UpperOf(bounds).Some?
    ensures BoundStateHolds(bounds) <==>
      OneKindPerSide(bounds) && (NaNEndpoint(bounds) || AtExclusivePoint(bounds) || exists v :: BoundsHold(v, bounds))
  {
    hide ExactOrder, BoundsHold;
    if OneKindPerSide(bounds) {
      var low, high := LowerOf(bounds).value.value, UpperOf(bounds).value.value;
      OrderIsDual(low, high);
      var order := ExactOrder(low, high);
      if order == Less || (order == Equal && bounds.minInclusive.Some? && bounds.maxInclusive.Some?) {
        var v := Inside(bounds);
      }
      if v :| BoundsHold(v, bounds) {
        NothingInside(bounds, v);
      }
    }
  }

  // ----- the state checks

  /** The interval of the bounds is consistent: no side has two kinds, and the sides leave room. */
  ghost predicate BoundsConsistent(bounds: Bounds) {
    && !(bounds.minInclusive.Some? && bounds.minExclusive.Some?)
    && !(bounds.maxInclusive.Some? && bounds.maxExclusive.Some?)
    && (LowerOf(bounds).Some? && UpperOf(bounds).Some? ==>
          NaNEndpoint(bounds) || AtExclusivePoint(bounds) || exists v :: BoundsHold(v, bounds))
  }

  lemma BoundStateIsConsistency(bounds: Bounds)
    ensures BoundStateHolds(bounds) <==> BoundsConsistent(bounds)
  {
    if LowerOf(bounds).Some? && UpperOf(bounds).Some? {
      BoundStateMeans(bounds);
    }
    hide BoundsHold, NaNEndpoint, AtExclusivePoint, IntervalHolds;
  }

  ghost predicate AllCompile(engine: Engine, patterns: seq<string>) {
    forall pattern <- patterns :: engine.compile(pattern).Compiles?
  }

  lemma PatternStateMeans(engine: Engine, patterns: seq<string>)
    ensures PatternState(engine, patterns).Pass? <==> AllCompile(engine, patterns)
  {
    var verdicts := seq(|patterns|, i requires 0 <= i < |patterns| =>
      match engine.compile(patterns[i])
      case Compiles => Pass
      case CompileLimit => Fail(Invalid(PatternLimit))
      case CompileError => Fail(Internal(InvalidPattern)));
    assert forall i :: 0 <= i < |patterns| ==> (verdicts[i].Pass? <==> engine.compile(patterns[i]).Compiles?);
    if First(verdicts).Pass? {
      forall pattern | pattern in patterns
        ensures engine.compile(pattern).Compiles?
      {
        var i :| 0 <= i < |patterns| && patterns[i] == pattern;
        assert verdicts[i].Pass?;
      }
    }
  }

  /** A complete set: sensible facets, patterns that compile, and room for a value. */
  ghost predicate SetValid(engine: Engine, facets: Facets) {
    && (facets.totalDigits.Some? ==> facets.totalDigits.value.value >= 1)
    && (forall group <- facets.patterns :: group != [] && AllCompile(engine, group))
    && (facets.enumeration.Some? ==> facets.enumeration.value != [])
    && BoundsConsistent(facets.bounds)
    && (facets.whiteSpace.Some? ==> facets.whiteSpace.value == WhiteSpace("collapse", true))
    && exists v: Value :: v.Finite? && ScaleHolds(v, facets.minScale, facets.maxScale)
  }

  lemma GroupsStateMeans(engine: Engine, groups: seq<seq<string>>)
    ensures PatternGroupsState(engine, groups).Pass? <==>
      forall group <- groups :: group != [] && AllCompile(engine, group)
  {
    hide PatternState, AllCompile;
    var verdicts := seq(|groups|, i requires 0 <= i < |groups| =>
      Both(Unless(groups[i] != [], Internal(InvalidPattern)), PatternState(engine, groups[i])));
    forall i | 0 <= i < |groups|
      ensures groups[i] in groups
      ensures verdicts[i].Pass? <==> groups[i] != [] && AllCompile(engine, groups[i])
    {
      PatternStateMeans(engine, groups[i]);
    }
    if First(verdicts).Pass? {
      forall group | group in groups
        ensures group != [] && AllCompile(engine, group)
      {
        var i :| 0 <= i < |groups| && groups[i] == group;
        assert verdicts[i].Pass?;
      }
    }
    assert PatternGroupsState(engine, groups) == First(verdicts);
  }

  lemma ValidateMeans(engine: Engine, facets: Facets)
    ensures Validate(engine, facets).Pass? <==> SetValid(engine, facets)
  {
    GroupsStateMeans(engine, facets.patterns);
    BoundStateIsConsistency(facets.bounds);
    ScaleBoundsMean(facets.minScale, facets.maxScale);
    hide BoundStateHolds, BoundsConsistent, ScaleBoundsHold, PatternGroupsState, AllCompile, ScaleHolds;
  }

  /** Declarations of one step: the same of what they hold, and every declared value with its lexical form. */
  ghost predicate DeclarationsValid(engine: Engine, local: Declarations) {
    && (local.totalDigits.Some? ==> local.totalDigits.value.value >= 1)
    && (local.patterns.Some? ==> local.patterns.value != [] && AllCompile(engine, local.patterns.value))
    && (local.enumeration.Some? ==>
          local.enumeration.value != [] && forall m <- local.enumeration.value :: m.lexical != "")
    && (forall kind: BoundKind :: local.bounds.Get(kind).Some? ==> local.bounds.Get(kind).value.lexical != "")
    && BoundsConsistent(local.bounds)
    && (local.whiteSpace.Some? ==> local.whiteSpace.value.value == "collapse")
  }

  lemma KindsAreAll()
    ensures forall kind: BoundKind :: kind in KINDS
  {
    forall kind: BoundKind
      ensures kind in KINDS
    {
      match kind
      case MinInclusive => assert KINDS[0] == kind;
      case MinExclusive => assert KINDS[1] == kind;
      case MaxInclusive => assert KINDS[2] == kind;
      case MaxExclusive => assert KINDS[3] == kind;
    }
  }

  lemma ValidateLocalMeans(engine: Engine, local: Declarations)
    ensures ValidateLocal(engine, local).Pass? <==> DeclarationsValid(engine, local)
  {
    KindsAreAll();
    PatternStateMeans(engine, if local.patterns.Some? then local.patterns.value else []);
    BoundStateIsConsistency(local.bounds);
    assert BoundsConsistent(local.bounds) ==> OneKindPerSide(local.bounds);
    hide BoundStateHolds, BoundsConsistent, PatternState, AllCompile;
  }

  // ----- when a step is accepted

  /** The value repeats a base bound of its kind, which shuts it out; an inclusive one has to be fixed. */
  ghost predicate RepeatsBound(base: Facets, kind: BoundKind, v: Value) {
    && base.bounds.Get(kind).Some? && EqualOrIdentical(v, base.bounds.Get(kind).value.value)
    && !BoundHolds(v, kind, base.bounds.Get(kind))
    && (kind.Inclusive() ==> base.bounds.Get(kind).value.fixed)
  }

  /** A declared bound is a value of the base or repeats its bound, and keeps a fixed one. */
  ghost predicate BoundAccepted(engine: Engine, base: Facets, local: Declarations, kind: BoundKind) {
    var bound, parent := local.bounds.Get(kind), base.bounds.Get(kind);
    bound.Some? ==>
      && (RepeatsBound(base, kind, bound.value.value) || Accepts(engine, base, bound.value.lexical, bound.value.value))
      && (parent.Some? && parent.value.fixed ==> EqualOrIdentical(bound.value.value, parent.value.value))
  }

  lemma NaNBoundShutsOut(bounds: Bounds, v: Value)
    requires HasNaNBound(bounds)
    ensures !BoundsHold(v, bounds)
  {
    var kind :| kind in KINDS && bounds.Get(kind).Some? && bounds.Get(kind).value.value.NaN?;
    OrderIsDual(v, bounds.Get(kind).value.value);
    hide ExactOrder;
    assert !BoundHolds(v, kind, bounds.Get(kind));
  }

  lemma BoundVerdictMeans(engine: Engine, base: Facets, local: Declarations, kind: BoundKind)
    ensures BoundVerdict(engine, base, local, kind).Pass? <==>
      (local.bounds.Get(kind).Some? ==> var bound := local.bounds.Get(kind).value;
        RepeatsBound(base, kind, bound.value) || Accepts(engine, base, bound.lexical, bound.value))
  {
    if local.bounds.Get(kind).Some? {
      var bound := local.bounds.Get(kind).value;
      MembershipExceptionMeans(base, kind, bound.value);
      AcceptsMeans(engine, base, bound.lexical, bound.value);
      if HasNaNBound(base.bounds) {
        NaNBoundShutsOut(base.bounds, bound.value);
      }
    }
    hide MembershipException, HasNaNBound, ValidateInput, RepeatsBound, BoundsHold;
  }

  lemma AcceptedBoundRestricts(engine: Engine, base: Facets, local: Declarations, kind: BoundKind, baseKind: BoundKind)
    requires OneKindPerSide(base.bounds) && BoundAccepted(engine, base, local, kind)
    requires baseKind == kind || baseKind == kind.Opposite()
    requires local.bounds.Get(kind).Some? && base.bounds.Get(baseKind).Some?
    ensures BoundRestrictionHolds(local.bounds.Get(kind).value, kind, base.bounds.Get(baseKind).value, baseKind)
  {
    var bound, parent := local.bounds.Get(kind).value, base.bounds.Get(baseKind).value;
    OrderIsDual(bound.value, parent.value);
    hide ExactOrder, Validate, PatternsVerdict, TotalDigitsHold, ScaleHolds, EnumerationHolds;
    if !RepeatsBound(base, kind, bound.value) {
      AcceptsMeans(engine, base, bound.lexical, bound.value);
      assert BoundHolds(bound.value, baseKind, base.bounds.Get(baseKind));
    }
  }

  lemma BoundChecksMean(engine: Engine, base: Facets, local: Declarations, kind: BoundKind)
    requires OneKindPerSide(base.bounds)
    ensures BoundVerdict(engine, base, local, kind).Pass? && BoundRestriction(local, base, true, kind).Pass? <==>
      BoundAccepted(engine, base, local, kind)
  {
    BoundVerdictMeans(engine, base, local, kind);
    if BoundAccepted(engine, base, local, kind) && local.bounds.Get(kind).Some? {
      if base.bounds.Get(kind).Some? {
        AcceptedBoundRestricts(engine, base, local, kind, kind);
      }
      if base.bounds.Get(kind.Opposite()).Some? {
        AcceptedBoundRestricts(engine, base, local, kind, kind.Opposite());
      }
    }
    hide BoundVerdict, RepeatsBound, Accepts, ExactOrder;
  }

  /** A declared facet keeps a fixed value, and admits nothing that the base facet shuts out. */
  ghost predicate DigitsAccepted(base: Facets, local: Declarations) {
    && (local.totalDigits.Some? && base.totalDigits.Some? ==>
          && (base.totalDigits.value.fixed ==> local.totalDigits.value.value == base.totalDigits.value.value)
          && forall v :: TotalDigitsHold(v, local.totalDigits) ==> TotalDigitsHold(v, base.totalDigits))
    && (local.minScale.Some? && base.minScale.Some? ==>
          && (base.minScale.value.fixed ==> local.minScale.value.value == base.minScale.value.value)
          && forall v :: ScaleHolds(v, local.minScale, None) ==> ScaleHolds(v, base.minScale, None))
    && (local.maxScale.Some? && base.maxScale.Some? ==>
          && (base.maxScale.value.fixed ==> local.maxScale.value.value == base.maxScale.value.value)
          && forall v :: ScaleHolds(v, None, local.maxScale) ==> ScaleHolds(v, None, base.maxScale))
  }

  lemma DigitRestrictionsMean(base: Facets, local: Declarations)
    requires local.totalDigits.Some? ==> local.totalDigits.value.value >= 1
    ensures DigitRestrictions(base, local, true).Pass? <==> DigitsAccepted(base, local)
  {
    hide TotalDigitsHold, ScaleHolds, DigitRestriction;
    NoRestriction(local.totalDigits, base.totalDigits, AT_MOST);
    NoRestriction(local.minScale, base.minScale, AT_LEAST);
    NoRestriction(local.maxScale, base.maxScale, AT_MOST);
    if local.totalDigits.Some? && base.totalDigits.Some? {
      TotalDigitsRestrictionMeans(local.totalDigits.value, base.totalDigits.value);
    }
    if local.minScale.Some? && base.minScale.Some? {
      MinScaleRestrictionMeans(local.minScale.value, base.minScale.value);
    }
    if local.maxScale.Some? && base.maxScale.Some? {
      MaxScaleRestrictionMeans(local.maxScale.value, base.maxScale.value);
    }
  }

  lemma NoRestriction(local: Option<DigitFacet>, base: Option<DigitFacet>, tightens: (int, int) -> bool)
    ensures local.None? || base.None? ==> DigitRestriction(local, base, true, tightens).Pass?
  {
  }

  /** The effective scales leave room exactly when some number fits the base and the declarations. */
  lemma EffectiveScales(base: Facets, local: Declarations)
    requires DigitsAccepted(base, local)
    ensures ScaleBoundsHold(Overlay(base, local).minScale, Overlay(base, local).maxScale) <==>
      exists v: Value :: v.Finite? && ScaleHolds(v, base.minScale, base.maxScale) &&
        ScaleHolds(v, local.minScale, local.maxScale)
  {
    var low, high := Overlay(base, local).minScale, Overlay(base, local).maxScale;
    ScaleBoundsMean(low, high);
    hide TotalDigitsHold, OverlayBounds;
    forall v: Value
      ensures v.Finite? ==>
        (ScaleHolds(v, low, high) <==>
          ScaleHolds(v, base.minScale, base.maxScale) && ScaleHolds(v, local.minScale, local.maxScale))
    {
      EffectiveScale(base, local, v);
    }
  }

  lemma EffectiveScale(base: Facets, local: Declarations, v: Value)
    requires DigitsAccepted(base, local)
    ensures ScaleHolds(v, Overlay(base, local).minScale, Overlay(base, local).maxScale) <==>
      ScaleHolds(v, base.minScale, base.maxScale) && ScaleHolds(v, local.minScale, local.maxScale)
  {
    hide TotalDigitsHold, OverlayBounds;
    if local.minScale.Some? && base.minScale.Some? {
      assert ScaleHolds(v, local.minScale, None) ==> ScaleHolds(v, base.minScale, None);
    }
    if local.maxScale.Some? && base.maxScale.Some? {
      assert ScaleHolds(v, None, local.maxScale) ==> ScaleHolds(v, None, base.maxScale);
    }
  }

  lemma BoundsAccepted(engine: Engine, base: Facets, local: Declarations)
    requires OneKindPerSide(base.bounds)
    ensures LocalMembers(engine, base, local).Pass? && BoundRestrictions(base, local, true).Pass? <==>
      && (local.enumeration.Some? ==>
            forall m <- local.enumeration.value :: Accepts(engine, base, m.lexical, m.value))
      && forall kind: BoundKind :: BoundAccepted(engine, base, local, kind)
  {
    var members := if local.enumeration.Some? then local.enumeration.value else [];
    MembersAreAccepted(engine, base, members);
    hide MemberVerdicts, BoundVerdict, BoundRestriction, BoundAccepted, Accepts;
    EachMember(engine, base, members);
    forall kind: BoundKind
      ensures BoundVerdict(engine, base, local, kind).Pass? && BoundRestriction(local, base, true, kind).Pass? <==>
        BoundAccepted(engine, base, local, kind)
    {
      BoundChecksMean(engine, base, local, kind);
    }
    EachKind(engine, base, local);
  }

  lemma EachKind(engine: Engine, base: Facets, local: Declarations)
    ensures (forall kind: BoundKind :: BoundAccepted(engine, base, local, kind)) <==>
      && BoundAccepted(engine, base, local, MinInclusive) && BoundAccepted(engine, base, local, MinExclusive)
      && BoundAccepted(engine, base, local, MaxInclusive) && BoundAccepted(engine, base, local, MaxExclusive)
  {
    hide BoundAccepted;
    if
      && BoundAccepted(engine, base, local, MinInclusive) && BoundAccepted(engine, base, local, MinExclusive)
      && BoundAccepted(engine, base, local, MaxInclusive) && BoundAccepted(engine, base, local, MaxExclusive)
    {
      forall kind: BoundKind
        ensures BoundAccepted(engine, base, local, kind)
      {
        match kind
        case MinInclusive =>
        case MinExclusive =>
        case MaxInclusive =>
        case MaxExclusive =>
      }
    }
  }

  lemma EachMember(engine: Engine, base: Facets, members: seq<Member>)
    ensures (forall m <- members :: Accepts(engine, base, m.lexical, m.value)) <==>
      forall i :: 0 <= i < |members| ==> Accepts(engine, base, members[i].lexical, members[i].value)
  {
    hide Accepts;
    if forall m <- members :: Accepts(engine, base, m.lexical, m.value) {
      forall i | 0 <= i < |members|
        ensures Accepts(engine, base, members[i].lexical, members[i].value)
      {
        assert members[i] in members;
      }
    }
  }

  /**
   * A restriction is accepted exactly when base and declarations are sensible
   * on their own, every declared member and bound is a value of the base or
   * repeats its bound, fixed values are kept, no declared facet admits what
   * its base facet shuts out, some number fits all scales, and the effective
   * bounds are consistent.
   */
  lemma RestrictionIsAcceptedExactly(engine: Engine, base: Facets, local: Declarations)
    ensures Restrict(engine, base, local).Ok? <==>
      && SetValid(engine, base) && DeclarationsValid(engine, local)
      && (local.enumeration.Some? ==>
            forall m <- local.enumeration.value :: Accepts(engine, base, m.lexical, m.value))
      && (forall kind: BoundKind :: BoundAccepted(engine, base, local, kind))
      && DigitsAccepted(base, local)
      && (exists v: Value :: v.Finite? && ScaleHolds(v, base.minScale, base.maxScale) &&
            ScaleHolds(v, local.minScale, local.maxScale))
      && BoundsConsistent(OverlayBounds(base.bounds, local.bounds))
  {
    ValidateMeans(engine, base);
    ValidateLocalMeans(engine, local);
    FailuresAreFoundBefore(engine, base, local, true);
    if SetValid(engine, base) && DeclarationsValid(engine, local) {
      assert OneKindPerSide(base.bounds);
      BoundsAccepted(engine, base, local);
      DigitRestrictionsMean(base, local);
      if DigitsAccepted(base, local) {
        EffectiveScales(base, local);
      }
      BoundStateIsConsistency(OverlayBounds(base.bounds, local.bounds));
      WhiteSpaceKept(engine, base, local);
    }
    hide SetValid, DeclarationsValid, Accepts, BoundAccepted, DigitsAccepted, ScaleHolds, BoundsConsistent,
      OverlayBounds, Validate, ValidateLocal, LocalMembers, DigitRestrictions, BoundRestrictions,
      WhiteSpaceRestriction, ScaleBoundsHold, BoundStateHolds, OverlayDigit;
  }

  lemma WhiteSpaceKept(engine: Engine, base: Facets, local: Declarations)
    requires SetValid(engine, base) && DeclarationsValid(engine, local)
    ensures WhiteSpaceRestriction(local.whiteSpace, base.whiteSpace, true).Pass?
  {
    hide BoundsConsistent, AllCompile, ScaleHolds;
  }

  // ----- what an accepted step leaves

  /** The effective facet is the declared one, fixed if it or its base is, or else that of the base. */
  predicate Inherits(derived: Option<DigitFacet>, base: Option<DigitFacet>, local: Option<DigitFacet>) {
    if local.None? then derived == base
    else
      && derived.Some? && derived.value.value == local.value.value
      && (derived.value.fixed <==> local.value.fixed || (base.Some? && base.value.fixed))
  }

  /** The effective bound is the declared one, fixed if it or its base is; declaring the other kind drops it. */
  predicate InheritsBound(derived: Bounds, base: Bounds, local: Bounds, kind: BoundKind) {
    var after, parent, bound := derived.Get(kind), base.Get(kind), local.Get(kind);
    if bound.Some? then
      && after.Some? && after.value.value == bound.value.value
      && (after.value.fixed <==> bound.value.fixed || (parent.Some? && parent.value.fixed))
    else if local.Get(kind.Opposite()).Some? then after == None
    else
      && (after.Some? <==> parent.Some?)
      && (after.Some? ==> after.value.value == parent.value.value && after.value.fixed == parent.value.fixed)
  }

  lemma DerivedFacets(engine: Engine, base: Facets, local: Declarations, derived: Facets)
    requires Restrict(engine, base, local) == Ok(derived)
    ensures Inherits(derived.totalDigits, base.totalDigits, local.totalDigits)
    ensures Inherits(derived.minScale, base.minScale, local.minScale)
    ensures Inherits(derived.maxScale, base.maxScale, local.maxScale)
    ensures forall kind: BoundKind :: InheritsBound(derived.bounds, base.bounds, local.bounds, kind)
    ensures derived.whiteSpace == Some(WhiteSpace("collapse", true))
  {
    StepFacts(engine, base, local, derived);
    forall kind: BoundKind
      ensures InheritsBound(derived.bounds, base.bounds, local.bounds, kind)
    {
      StepBounds(engine, base, local, derived, kind);
    }
    ValidateMeans(engine, derived);
    hide Restrict, Validate, ValidateLocal, LocalMembers, DigitRestrictions, BoundRestrictions, OverlayBounds,
      InheritsBound, BoundsConsistent, AllCompile, ScaleHolds;
  }

  // ----- how membership failures are reported

  /** Values outside the base are reported as invalid declarations of their kind, not as values. */
  lemma MembershipIsReported(engine: Engine, base: Facets, local: Declarations)
    ensures LocalMembers(engine, base, local) != Fail(Invalid(ValueViolation))
  {
    hide ValidateInput, MembershipException, HasNaNBound;
    var members := if local.enumeration.Some? then local.enumeration.value else [];
    FirstIsOneOf(seq(|members|, i requires 0 <= i < |members| =>
      Wrapped(ValidateInput(engine, members[i].lexical, members[i].value, base), InvalidEnumeration)));
  }

  lemma {:induction false} FirstIsOneOf<E>(checks: seq<Outcome<E>>)
    ensures First(checks).Fail? ==> First(checks) in checks
  {
    if checks != [] && checks[0].Pass? {
      FirstIsOneOf(checks[1..]);
    }
  }
}
