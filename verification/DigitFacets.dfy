/** The totalDigits and fractionDigits facets of decimal and integer types (datatype_facets.go). */
module DigitFacets {
  import opened Wrappers
  import opened DecimalText
  import opened Powers
  import opened StrictDecimal

  datatype Kind = DecimalKind | IntegerKind | UnknownKind

  datatype DigitFacet = DigitFacet(value: int, fixed: bool, version: Version)

  /** Effective facets. */
  datatype Facets = Facets(kind: Kind, version: Version, total: Option<DigitFacet>, fraction: Option<DigitFacet>)

  datatype Declarations = Declarations(total: Option<DigitFacet>, fraction: Option<DigitFacet>)

  datatype DigitError =
    | InvalidState | InvalidVersion | InvalidRestriction | InvalidCombination | ValueViolation

  type Verdict = Outcome<DigitError>

  // ----- the checks

  predicate KnownVersion(version: Version) {
    version == XSD10 || version == XSD11
  }

  predicate TotalHolds(facet: Option<DigitFacet>, version: Version) {
    facet.Some? ==> facet.value.version == version && facet.value.value > 0
  }

  predicate FractionHolds(facet: Option<DigitFacet>, version: Version) {
    facet.Some? ==> facet.value.version == version && facet.value.value >= 0
  }

  predicate Combines(total: Option<DigitFacet>, fraction: Option<DigitFacet>) {
    total.Some? && fraction.Some? ==> fraction.value.value <= total.value.value
  }

  function ValidateForConstruction(facets: Facets): Verdict {
    Unless(!facets.kind.UnknownKind? && KnownVersion(facets.version)
           && TotalHolds(facets.total, facets.version) && FractionHolds(facets.fraction, facets.version), InvalidState)
  }

  function Validate(facets: Facets): Verdict {
    Both(ValidateForConstruction(facets),
    Both(Unless(!(facets.kind.IntegerKind? && facets.fraction.None?), InvalidState),
         Unless(Combines(facets.total, facets.fraction), InvalidCombination)))
  }

  function LocalVersions(local: Declarations, version: Version): Verdict {
    Unless((local.total.Some? ==> local.total.value.version == version)
           && (local.fraction.Some? ==> local.fraction.value.version == version), InvalidVersion)
  }

  /** A restriction keeps a fixed value and never raises a limit. */
  function FacetRestriction(local: DigitFacet, base: DigitFacet): Verdict {
    Unless((base.fixed ==> local.value == base.value) && local.value <= base.value, InvalidRestriction)
  }

  function TotalCheck(base: Facets, local: DigitFacet, derived: bool): Verdict {
    Both(Unless(TotalHolds(Some(local), base.version), InvalidState),
         if derived && base.total.Some? then FacetRestriction(local, base.total.value) else Pass)
  }

  function FractionCheck(base: Facets, local: DigitFacet, derived: bool): Verdict {
    Both(Unless(FractionHolds(Some(local), base.version), InvalidState),
    Both(Unless(!(base.kind.IntegerKind? && local.value != 0), InvalidRestriction),
         if derived && base.fraction.Some? then FacetRestriction(local, base.fraction.value) else Pass))
  }

  // ----- the effective set

  const INTEGER_FRACTION: Version -> DigitFacet := version => DigitFacet(0, true, version)

  function Inherited(base: Facets): Facets {
    if base.kind.IntegerKind? && base.fraction.None? then base.(fraction := Some(INTEGER_FRACTION(base.version)))
      else base
  }

  function Overlay(base: Facets, local: Declarations): Facets {
    Facets(base.kind, base.version,
      if local.total.Some? then
        Some(local.total.value.(fixed := local.total.value.fixed || (base.total.Some? && base.total.value.fixed)))
      else base.total,
      if local.fraction.Some? then
        Some(local.fraction.value.(fixed := local.fraction.value.fixed || base.kind.IntegerKind?
                                            || (base.fraction.Some? && base.fraction.value.fixed)))
      else Inherited(base).fraction)
  }

  function Complete(base: Facets, local: Declarations, derived: bool): Result<Facets, DigitError> {
    var effective := Overlay(base, local);
    match Both(ValidateForConstruction(base),
          Both(LocalVersions(local, base.version),
          Both(if local.total.Some? then TotalCheck(base, local.total.value, derived) else Pass,
          Both(if local.fraction.Some? then FractionCheck(base, local.fraction.value, derived) else Pass,
          Both(Unless(Combines(effective.total, effective.fraction), InvalidCombination),
               Validate(effective))))))
    case Fail(error) => Err(error)
    case Pass => Ok(effective)
  }

  /** A restriction checks its whole base first. */
  function Restrict(base: Facets, local: Declarations): Result<Facets, DigitError> {
    match Validate(base)
    case Fail(error) => Err(error)
    case Pass => Complete(base, local, true)
  }

  /** The effective facets while they are completed in place. */
  class EffectiveFacets {
    const kind: Kind
    const version: Version
    var total: Option<DigitFacet>
    var fraction: Option<DigitFacet>

    function Value(): Facets
      reads this
    {
      Facets(kind, version, total, fraction)
    }

    constructor (base: Facets)
      ensures Value() == Inherited(base)
    {
      kind, version, total := base.kind, base.version, base.total;
      fraction := if base.kind.IntegerKind? && base.fraction.None? then Some(INTEGER_FRACTION(base.version))
        else base.fraction;
    }

    method ApplyLocalTotalDigits(base: Facets, local: DigitFacet, derived: bool) returns (verdict: Verdict)
      modifies this`total
      ensures verdict == TotalCheck(base, local, derived)
      ensures total == if verdict.Pass? then Overlay(base, Declarations(Some(local), None)).total else old(total)
    {
      if !TotalHolds(Some(local), base.version) {
        return Fail(InvalidState);
      }
      if derived && base.total.Some? {
        verdict := FacetRestriction(local, base.total.value);
        if verdict.Fail? {
          return;
        }
      }
      total := Some(local);
      if base.total.Some? && base.total.value.fixed {
        total := Some(local.(fixed := true));
      }
      verdict := Pass;
    }

    method ApplyLocalFractionDigits(base: Facets, local: DigitFacet, derived: bool) returns (verdict: Verdict)
      requires kind == base.kind
      modifies this`fraction
      ensures verdict == FractionCheck(base, local, derived)
      ensures fraction == if verdict.Pass? then Overlay(base, Declarations(None, Some(local))).fraction
        else old(fraction)
    {
      if !FractionHolds(Some(local), base.version) {
        return Fail(InvalidState);
      }
      if kind.IntegerKind? && local.value != 0 {
        return Fail(InvalidRestriction);
      }
      if derived && base.fraction.Some? {
        verdict := FacetRestriction(local, base.fraction.value);
        if verdict.Fail? {
          return;
        }
      }
      fraction := Some(local);
      if kind.IntegerKind? {
        fraction := Some(local.(fixed := true));
      }
      if base.fraction.Some? && base.fraction.value.fixed {
        fraction := Some(local.(fixed := true));
      }
      verdict := Pass;
    }
  }

  method CompleteDigitFacets(base: Facets, local: Declarations, derived: bool)
    returns (result: Result<Facets, DigitError>)
    ensures result == Complete(base, local, derived)
  {
    if ValidateForConstruction(base).Fail? {
      return Err(InvalidState);
    }
    if LocalVersions(local, base.version).Fail? {
      return Err(InvalidVersion);
    }
    var effective := new EffectiveFacets(base);
    if local.total.Some? {
      var verdict := effective.ApplyLocalTotalDigits(base, local.total.value, derived);
      if verdict.Fail? {
        return Err(verdict.error);
      }
    }
    if local.fraction.Some? {
      var verdict := effective.ApplyLocalFractionDigits(base, local.fraction.value, derived);
      if verdict.Fail? {
        return Err(verdict.error);
      }
    }
    if !Combines(effective.total, effective.fraction) {
      return Err(InvalidCombination);
    }
    var verdict := Validate(effective.Value());
    if verdict.Fail? {
      return Err(verdict.error);
    }
    return Ok(effective.Value());
  }

  method RestrictDigitFacets(base: Facets, local: Declarations) returns (result: Result<Facets, DigitError>)
    ensures result == Restrict(base, local)
  {
    var verdict := Validate(base);
    if verdict.Fail? {
      return Err(verdict.error);
    }
    result := CompleteDigitFacets(base, local, true);
  }

  // ----- validating values

  function ValidateCounts(facets: Facets, totalDigits: int, fractionDigits: int): Verdict {
    Both(Validate(facets),
    Both(Unless(facets.total.Some? ==> totalDigits <= facets.total.value.value, ValueViolation),
         Unless(facets.fraction.Some? ==> fractionDigits <= facets.fraction.value.value, ValueViolation)))
  }

  function ValidateDecimal(facets: Facets, d: Decimal): Verdict {
    ValidateCounts(facets, TotalDigits(d), FractionDigits(d))
  }

  /** The number of decimal digits of an integer, by dividing until nothing is left. */
  method IntegerDigitCount(value: int) returns (count: nat)
    ensures count == DigitCount(if value < 0 then -value else value)
  {
    var magnitude: nat := if value < 0 then -value else value;
    if magnitude == 0 {
      return 1;
    }
    count := 0;
    ghost var whole := magnitude;
    while magnitude > 0
      invariant DigitCount(whole) == count + if magnitude == 0 then 0 else DigitCount(magnitude)
      decreases magnitude
    {
      magnitude, count := magnitude / 10, count + 1;
    }
  }

  // ----- restriction narrows

  predicate Within(local: Declarations, totalDigits: int, fractionDigits: int) {
    && (local.total.Some? ==> totalDigits <= local.total.value.value)
    && (local.fraction.Some? ==> fractionDigits <= local.fraction.value.value)
  }

  lemma StepFacts(base: Facets, local: Declarations, derived: Facets)
    requires Restrict(base, local) == Ok(derived)
    ensures derived == Overlay(base, local) && Validate(derived).Pass? && Validate(base).Pass?
    ensures local.total.Some? && base.total.Some? ==> FacetRestriction(local.total.value, base.total.value).Pass?
    ensures local.fraction.Some? && base.fraction.Some? ==>
      FacetRestriction(local.fraction.value, base.fraction.value).Pass?
    ensures local.fraction.Some? && base.kind.IntegerKind? ==> local.fraction.value.value == 0
  {
  }

  /** An accepted restriction admits exactly what the base and the local declarations admit. */
  lemma RestrictionIsIntersection(base: Facets, local: Declarations, derived: Facets, d: Decimal)
    requires Restrict(base, local) == Ok(derived)
    ensures ValidateDecimal(derived, d).Pass? <==>
      ValidateDecimal(base, d).Pass? && Within(local, TotalDigits(d), FractionDigits(d))
  {
    StepFacts(base, local, derived);
    hide Restrict, ValidateForConstruction, FacetRestriction;
    if local.total.Some? && base.total.Some? { RestrictionBelow(local.total.value, base.total.value); }
    if local.fraction.Some? && base.fraction.Some? { RestrictionBelow(local.fraction.value, base.fraction.value); }
  }

  lemma RestrictionBelow(local: DigitFacet, base: DigitFacet)
    requires FacetRestriction(local, base).Pass?
    ensures local.value <= base.value && (base.fixed ==> local.value == base.value)
  {
  }

  /** Successive restrictions from a first set. */
  function Chain(base: Facets, steps: seq<Declarations>): Result<Facets, DigitError> {
    if steps == [] then Ok(base)
    else
      var before := Chain(base, steps[..|steps| - 1]);
      if before.Err? then before else Restrict(before.value, steps[|steps| - 1])
  }

  /** Along any chain: nothing new is admitted, and every local declaration of it still holds. */
  lemma {:induction false} ChainNarrows(base: Facets, steps: seq<Declarations>, d: Decimal)
    requires Chain(base, steps).Ok?
    ensures steps != [] ==> Validate(base).Pass? && Validate(Chain(base, steps).value).Pass?
    ensures ValidateDecimal(Chain(base, steps).value, d).Pass? <==>
      && ValidateDecimal(base, d).Pass?
      && forall i :: 0 <= i < |steps| ==> Within(steps[i], TotalDigits(d), FractionDigits(d))
  {
    if steps != [] {
      var before := steps[..|steps| - 1];
      ChainNarrows(base, before, d);
      var last := Chain(base, before).value;
      StepFacts(last, steps[|before|], Chain(base, steps).value);
      RestrictionIsIntersection(last, steps[|before|], Chain(base, steps).value, d);
      hide Restrict, ValidateDecimal, Validate, Within;
      assert forall i :: 0 <= i < |before| ==> steps[i] == before[i];
    }
  }

  /** A fixed limit keeps its value and stays fixed along any chain. */
  lemma {:induction false} FixedForEver(base: Facets, steps: seq<Declarations>)
    requires Chain(base, steps).Ok?
    ensures var last := Chain(base, steps).value;
      && (base.total.Some? && base.total.value.fixed ==>
            last.total.Some? && last.total.value.fixed && last.total.value.value == base.total.value.value)
      && (base.fraction.Some? && base.fraction.value.fixed ==>
            last.fraction.Some? && last.fraction.value.fixed && last.fraction.value.value == base.fraction.value.value)
  {
    if steps != [] {
      var before := steps[..|steps| - 1];
      FixedForEver(base, before);
      StepFacts(Chain(base, before).value, steps[|before|], Chain(base, steps).value);
      hide Restrict;
    }
  }

  /** Every completed integer type fixes fractionDigits at zero, whatever was declared, and admits integers only. */
  lemma IntegersHaveNoFraction(base: Facets, local: Declarations, derived: bool, effective: Facets, d: Decimal)
    requires base.kind.IntegerKind? &&
      (base.fraction.Some? ==> base.fraction.value.value == 0 && base.fraction.value.fixed)
    requires Complete(base, local, derived) == Ok(effective)
    ensures effective.fraction.Some? && effective.fraction.value.value == 0 && effective.fraction.value.fixed
    ensures Normal(d) && ValidateDecimal(effective, d).Pass? ==> FitsFractionDigits(d, 0)
  {
    if Normal(d) {
      FractionDigitsIsLeast(d, 0);
    }
  }

  /** Admitted decimals are exactly those whose numbers fit the limits. */
  lemma AdmittedNumbersFit(facets: Facets, d: Decimal)
    requires Normal(d) && Validate(facets).Pass?
    ensures ValidateDecimal(facets, d).Pass? <==>
      && (facets.total.Some? ==> FitsTotalDigits(d, facets.total.value.value))
      && (facets.fraction.Some? ==> FitsFractionDigits(d, facets.fraction.value.value))
  {
    hide TotalDigits, FractionDigits, FitsTotalDigits, FitsFractionDigits;
    if facets.total.Some? { TotalDigitsIsLeast(d, facets.total.value.value); }
    if facets.fraction.Some? { FractionDigitsIsLeast(d, facets.fraction.value.value); }
  }

  // ----- when a restriction is accepted

  /** A totalDigits check asks that a fixed limit be kept and no number with more digits be let in. */
  lemma TotalRestrictionMeans(local: DigitFacet, base: DigitFacet)
    requires local.value >= 1
    ensures FacetRestriction(local, base).Pass? <==>
      && (base.fixed ==> local.value == base.value)
      && forall d: Decimal :: Normal(d) && TotalDigits(d) <= local.value ==> TotalDigits(d) <= base.value
  {
    hide TextOf;
    var d := WithTotalDigits(local.value);
    assert Normal(d) && TotalDigits(d) <= local.value;
  }

  lemma WithTotalDigits(n: nat) returns (d: Decimal)
    requires n >= 1
    ensures Normal(d) && TotalDigits(d) == n
  {
    d := Decimal(Pow10(n - 1), 0, false);
    assert Pow10(n) == 10 * Pow10(n - 1);
    DigitCountUnique(Pow10(n - 1), n);
    TextLength(Pow10(n - 1));
  }

  /** The same of fractionDigits. */
  lemma FractionRestrictionMeans(local: DigitFacet, base: DigitFacet)
    requires local.value >= 0
    ensures FacetRestriction(local, base).Pass? <==>
      && (base.fixed ==> local.value == base.value)
      && forall d: Decimal :: Normal(d) && FractionDigits(d) <= local.value ==> FractionDigits(d) <= base.value
  {
    var d := Decimal(1, local.value, false);
    assert Normal(d) && FractionDigits(d) == local.value;
  }

  /** Facets of a known type and version, sensible alone and together. */
  predicate FacetsValid(facets: Facets) {
    && (facets.kind.DecimalKind? || facets.kind.IntegerKind?) && facets.version in {XSD10, XSD11}
    && (facets.total.Some? ==> facets.total.value.version == facets.version && facets.total.value.value >= 1)
    && (facets.fraction.Some? ==> facets.fraction.value.version == facets.version && facets.fraction.value.value >= 0)
    && (facets.kind.IntegerKind? ==> facets.fraction.Some?)
    && (facets.total.Some? && facets.fraction.Some? ==> facets.fraction.value.value <= facets.total.value.value)
  }

  function Limit(local: Option<DigitFacet>, base: Option<DigitFacet>): Option<int> {
    if local.Some? then Some(local.value.value) else if base.Some? then Some(base.value.value) else None
  }

  /**
   * A restriction is accepted exactly when its base is sensible, declared
   * limits are of its version and sensible, an integer type declares no
   * fraction digits but zero, fixed limits are kept, no number is let in that
   * the base shuts out, and the resulting limits fit together.
   */
  lemma RestrictionIsAcceptedExactly(base: Facets, local: Declarations)
    ensures Restrict(base, local).Ok? <==>
      && FacetsValid(base)
      && (local.total.Some? ==> local.total.value.version == base.version && local.total.value.value >= 1)
      && (local.fraction.Some? ==> local.fraction.value.version == base.version && local.fraction.value.value >= 0)
      && (local.fraction.Some? && base.kind.IntegerKind? ==> local.fraction.value.value == 0)
      && (local.total.Some? && base.total.Some? ==>
            && (base.total.value.fixed ==> local.total.value.value == base.total.value.value)
            && forall d: Decimal :: Normal(d) && TotalDigits(d) <= local.total.value.value ==>
              TotalDigits(d) <= base.total.value.value)
      && (local.fraction.Some? && base.fraction.Some? ==>
            && (base.fraction.value.fixed ==> local.fraction.value.value == base.fraction.value.value)
            && forall d: Decimal :: Normal(d) && FractionDigits(d) <= local.fraction.value.value ==>
              FractionDigits(d) <= base.fraction.value.value)
      && (Limit(local.total, base.total).Some? && Limit(local.fraction, base.fraction).Some? ==>
            Limit(local.fraction, base.fraction).value <= Limit(local.total, base.total).value)
  {
    if local.total.Some? && base.total.Some? && local.total.value.value >= 1 {
      TotalRestrictionMeans(local.total.value, base.total.value);
    }
    if local.fraction.Some? && base.fraction.Some? && local.fraction.value.value >= 0 {
      FractionRestrictionMeans(local.fraction.value, base.fraction.value);
    }
    hide TotalDigits, FractionDigits, Normal, FacetRestriction;
  }

  // ----- what an accepted restriction leaves

  /** An effective limit is the declared one, fixed if it or its base is, or else that of the base. */
  lemma DerivedLimits(base: Facets, local: Declarations, derived: Facets)
    requires Restrict(base, local) == Ok(derived)
    ensures derived.kind == base.kind && derived.version == base.version
    ensures if local.total.None? then derived.total == base.total
      else
        && derived.total.Some? && derived.total.value.value == local.total.value.value
        && (derived.total.value.fixed <==> local.total.value.fixed || (base.total.Some? && base.total.value.fixed))
    ensures if local.fraction.None? then derived.fraction == base.fraction
      else
        && derived.fraction.Some? && derived.fraction.value.value == local.fraction.value.value
        && (derived.fraction.value.fixed <==>
              || local.fraction.value.fixed || base.kind.IntegerKind?
              || (base.fraction.Some? && base.fraction.value.fixed))
  {
  }
}
