/** Ordered bounds on xs:decimal and their restriction (datatype_bounds.go). */
module DecimalBounds {
  import opened Wrappers
  import opened Powers
  import opened StrictDecimal

  datatype BoundKind = MinInclusive | MinExclusive | MaxInclusive | MaxExclusive | UnknownKind {
    predicate IsLower() {
      MinInclusive? || MinExclusive?
    }

    predicate IsUpper() {
      MaxInclusive? || MaxExclusive?
    }

    predicate Inclusive() {
      MinInclusive? || MaxInclusive?
    }

    function Opposite(): BoundKind {
      match this
      case MinInclusive => MinExclusive
      case MinExclusive => MinInclusive
      case MaxInclusive => MaxExclusive
      case MaxExclusive => MaxInclusive
      case UnknownKind => UnknownKind
    }
  }

  /** One declared bound. */
  datatype BoundFacet = BoundFacet(kind: BoundKind, value: Decimal, fixed: bool, version: Version)

  /** One effective endpoint. */
  datatype Endpoint = Endpoint(value: Decimal, fixed: bool, inclusive: bool)

  datatype BoundFacets = BoundFacets(version: Version, lower: Option<Endpoint>, upper: Option<Endpoint>)

  datatype BoundError =
    | InvalidVersion | VersionMismatch | InvalidKind | InvalidCombination | InvalidRestriction | ValueViolation

  type Verdict = Outcome<BoundError>

  // ----- the admitted values

  predicate WithinLower(v: Decimal, lower: Option<Endpoint>) {
    lower.Some? ==>
      var comparison := Compare(v, lower.value.value);
      !(comparison < 0 || (comparison == 0 && !lower.value.inclusive))
  }

  predicate WithinUpper(v: Decimal, upper: Option<Endpoint>) {
    upper.Some? ==>
      var comparison := Compare(v, upper.value.value);
      !(comparison > 0 || (comparison == 0 && !upper.value.inclusive))
  }

  predicate Admits(facets: BoundFacets, v: Decimal) {
    WithinLower(v, facets.lower) && WithinUpper(v, facets.upper)
  }

  function EndpointOf(bound: BoundFacet): Endpoint {
    Endpoint(bound.value, bound.fixed, bound.kind.Inclusive())
  }

  /** What one declaration demands on its own. */
  predicate Demands(bound: BoundFacet, v: Decimal) {
    if bound.kind.IsLower() then WithinLower(v, Some(EndpointOf(bound))) else WithinUpper(v, Some(EndpointOf(bound)))
  }

  // ----- checks

  function ValidateVersion(version: Version): Verdict {
    Unless(version == XSD10 || version == XSD11, InvalidVersion)
  }

  predicate IntervalHolds(lower: Option<Endpoint>, upper: Option<Endpoint>) {
    lower.Some? && upper.Some? ==>
      var comparison := Compare(lower.value.value, upper.value.value);
      comparison < 0 || (comparison == 0 && lower.value.inclusive == upper.value.inclusive)
  }

  function Validate(facets: BoundFacets): Verdict {
    Both(ValidateVersion(facets.version), Unless(IntervalHolds(facets.lower, facets.upper), InvalidCombination))
  }

  function ValidateDecimal(facets: BoundFacets, v: Decimal): Verdict {
    Both(Validate(facets), Unless(Admits(facets, v), ValueViolation))
  }

  /** One declaration after the earlier ones of its step. */
  function DeclarationVerdict(bounds: seq<BoundFacet>, i: nat, version: Version): Verdict
    requires i < |bounds|
  {
    var kind := bounds[i].kind;
    Both(Unless(bounds[i].version == version, VersionMismatch),
    Both(Unless(!kind.UnknownKind?, InvalidKind),
         Unless(forall j :: 0 <= j < i ==>
           bounds[j].kind != kind && bounds[j].kind != kind.Opposite(), InvalidCombination)))
  }

  function DeclarationVerdicts(bounds: seq<BoundFacet>, version: Version): seq<Verdict> {
    seq(|bounds|, i requires 0 <= i < |bounds| => DeclarationVerdict(bounds, i, version))
  }

  method ValidateBoundDeclarations(bounds: seq<BoundFacet>, version: Version) returns (verdict: Verdict)
    ensures verdict == First(DeclarationVerdicts(bounds, version))
  {
    var seen: set<BoundKind> := {};
    ghost var verdicts := DeclarationVerdicts(bounds, version);
    for index := 0 to |bounds|
      invariant seen == set j | 0 <= j < index :: bounds[j].kind
      invariant forall j :: 0 <= j < index ==> verdicts[j].Pass?
    {
      if verdicts[index].Fail? {
        FirstIsEarliest(verdicts, index);
      }
      var bound := bounds[index];
      if bound.version != version {
        return Fail(VersionMismatch);
      }
      if bound.kind.UnknownKind? {
        return Fail(InvalidKind);
      }
      if bound.kind in seen {
        return Fail(InvalidCombination);
      }
      if bound.kind.Opposite() in seen {
        return Fail(InvalidCombination);
      }
      seen := seen + {bound.kind};
    }
    return Pass;
  }

  function BaseEndpoint(base: BoundFacets, kind: BoundKind): Option<Endpoint> {
    if kind.IsLower() then base.lower else if kind.IsUpper() then base.upper else None
  }

  predicate FixedHolds(parent: Endpoint, child: BoundFacet) {
    !parent.fixed || parent.inclusive != child.kind.Inclusive() || Compare(child.value, parent.value) == 0
  }

  predicate MonotonicHolds(parent: Endpoint, child: BoundFacet) {
    var comparison := Compare(child.value, parent.value);
    var atParent := comparison == 0 && (parent.inclusive || !child.kind.Inclusive());
    && (child.kind.IsLower() ==> comparison > 0 || atParent)
    && (child.kind.IsUpper() ==> comparison < 0 || atParent)
  }

  /** An exclusive bound may repeat an exclusive base bound although that is no member of the base. */
  predicate MembershipException(parent: Option<Endpoint>, child: BoundFacet) {
    parent.Some? && !parent.value.inclusive && !child.kind.Inclusive() && Compare(child.value, parent.value.value) == 0
  }

  function LocalRestriction(base: BoundFacets, bound: BoundFacet): Verdict {
    var parent := BaseEndpoint(base, bound.kind);
    Both(Unless(parent.Some? ==> FixedHolds(parent.value, bound), InvalidRestriction),
    Both(Unless(MembershipException(parent, bound) || Admits(base, bound.value), InvalidRestriction),
         Unless(parent.Some? ==> MonotonicHolds(parent.value, bound), InvalidRestriction)))
  }

  function LocalRestrictions(base: BoundFacets, local: seq<BoundFacet>): seq<Verdict> {
    seq(|local|, i requires 0 <= i < |local| => LocalRestriction(base, local[i]))
  }

  // ----- the overlay

  function OverlayEndpoint(current: Option<Endpoint>, local: Endpoint, lower: bool): Endpoint {
    if current.None? then local
    else if current.value.inclusive == local.inclusive then local.(fixed := current.value.fixed || local.fixed)
    else
      var comparison := Compare(local.value, current.value.value);
      if comparison == 0 then if local.inclusive then current.value else local
      else if lower then if comparison > 0 then local else current.value
      else if comparison < 0 then local else current.value
  }

  function ApplyBound(effective: BoundFacets, bound: BoundFacet): BoundFacets {
    if bound.kind.IsLower() then effective.(lower := Some(OverlayEndpoint(effective.lower, EndpointOf(bound), true)))
    else effective.(upper := Some(OverlayEndpoint(effective.upper, EndpointOf(bound), false)))
  }

  function ApplyBounds(effective: BoundFacets, local: seq<BoundFacet>): BoundFacets {
    if local == [] then effective else ApplyBound(ApplyBounds(effective, local[..|local| - 1]), local[|local| - 1])
  }

  class EffectiveBounds {
    const version: Version
    var lower: Option<Endpoint>
    var upper: Option<Endpoint>

    function Value(): BoundFacets
      reads this
    {
      BoundFacets(version, lower, upper)
    }

    constructor (base: BoundFacets)
      ensures Value() == base
    {
      version, lower, upper := base.version, base.lower, base.upper;
    }

    method Apply(bound: BoundFacet)
      modifies this
      ensures Value() == ApplyBound(old(Value()), bound)
    {
      var endpoint := Endpoint(bound.value, bound.fixed, bound.kind.Inclusive());
      if bound.kind.IsLower() {
        lower := Some(OverlayEndpoint(lower, endpoint, true));
        return;
      }
      upper := Some(OverlayEndpoint(upper, endpoint, false));
    }
  }

  /** The outcome of one derivation step over the bounds. */
  function Completed(base: BoundFacets, local: seq<BoundFacet>, derived: bool): Result<BoundFacets, BoundError> {
    var effective := ApplyBounds(base, local);
    match Both(ValidateVersion(base.version),
          Both(First(DeclarationVerdicts(local, base.version)),
          Both(if derived then First(LocalRestrictions(base, local)) else Pass,
               Validate(effective))))
    case Fail(error) => Err(error)
    case Pass => Ok(effective)
  }

  method CompleteDecimalBoundFacets(base: BoundFacets, local: seq<BoundFacet>, derived: bool)
    returns (result: Result<BoundFacets, BoundError>)
    ensures result == Completed(base, local, derived)
  {
    hide Validate, ApplyBound, LocalRestriction, DeclarationVerdict;
    var verdict := ValidateVersion(base.version);
    if verdict.Fail? {
      return Err(verdict.error);
    }
    verdict := ValidateBoundDeclarations(local, base.version);
    if verdict.Fail? {
      return Err(verdict.error);
    }
    if derived {
      ghost var verdicts := LocalRestrictions(base, local);
      for index := 0 to |local|
        invariant forall j :: 0 <= j < index ==> verdicts[j].Pass?
      {
        verdict := LocalRestriction(base, local[index]);
        if verdict.Fail? {
          FirstIsEarliest(verdicts, index);
          return Err(verdict.error);
        }
      }
    }
    var effective := new EffectiveBounds(base);
    for index := 0 to |local|
      invariant effective.Value() == ApplyBounds(base, local[..index])
    {
      assert local[..index + 1][..index] == local[..index];
      effective.Apply(local[index]);
    }
    assert local[..|local|] == local;
    verdict := Validate(effective.Value());
    if verdict.Fail? {
      return Err(verdict.error);
    }
    return Ok(effective.Value());
  }

  method RestrictDecimalBoundFacets(base: BoundFacets, local: seq<BoundFacet>)
    returns (result: Result<BoundFacets, BoundError>)
    ensures result == Restrict(base, local)
  {
    var verdict := Validate(base);
    if verdict.Fail? {
      return Err(verdict.error);
    }
    result := CompleteDecimalBoundFacets(base, local, true);
  }

  /** A restriction validates the whole base first. */
  function Restrict(base: BoundFacets, local: seq<BoundFacet>): Result<BoundFacets, BoundError> {
    match Validate(base)
    case Fail(error) => Err(error)
    case Pass => Completed(base, local, true)
  }

  // ----- a restriction step is intersection

  lemma WithinMeans(v: Decimal, e: Endpoint)
    ensures WithinLower(v, Some(e)) <==> Number(v) > Number(e.value) || (e.inclusive && Number(v) == Number(e.value))
    ensures WithinUpper(v, Some(e)) <==> Number(v) < Number(e.value) || (e.inclusive && Number(v) == Number(e.value))
  {
    CompareIsExact(v, e.value);
    hide Compare, Number;
  }

  /** A lower bound overlaid on a base it restricts is both together. */
  lemma LowerOverlay(v: Decimal, current: Option<Endpoint>, bound: BoundFacet)
    requires bound.kind.IsLower()
    requires current.Some? ==> MonotonicHolds(current.value, bound)
    ensures WithinLower(v, Some(OverlayEndpoint(current, EndpointOf(bound), true))) <==>
      WithinLower(v, current) && WithinLower(v, Some(EndpointOf(bound)))
  {
    WithinMeans(v, EndpointOf(bound));
    WithinMeans(v, OverlayEndpoint(current, EndpointOf(bound), true));
    if current.Some? {
      WithinMeans(v, current.value);
      CompareIsExact(bound.value, current.value.value);
    }
    hide Compare, Number, WithinLower;
  }

  lemma UpperOverlay(v: Decimal, current: Option<Endpoint>, bound: BoundFacet)
    requires bound.kind.IsUpper()
    requires current.Some? ==> MonotonicHolds(current.value, bound)
    ensures WithinUpper(v, Some(OverlayEndpoint(current, EndpointOf(bound), false))) <==>
      WithinUpper(v, current) && WithinUpper(v, Some(EndpointOf(bound)))
  {
    WithinMeans(v, EndpointOf(bound));
    WithinMeans(v, OverlayEndpoint(current, EndpointOf(bound), false));
    if current.Some? {
      WithinMeans(v, current.value);
      CompareIsExact(bound.value, current.value.value);
    }
    hide Compare, Number, WithinUpper;
  }

  /** At most one declaration a side, each restricting its base endpoint. */
  ghost predicate Restricts(base: BoundFacets, local: seq<BoundFacet>) {
    && (forall i :: 0 <= i < |local| ==> !local[i].kind.UnknownKind?)
    && (forall i, j :: 0 <= i < j < |local| ==> local[i].kind.IsLower() != local[j].kind.IsLower())
    && (forall i :: 0 <= i < |local| ==>
          var parent := BaseEndpoint(base, local[i].kind);
          parent.Some? ==> MonotonicHolds(parent.value, local[i]))
  }

  lemma {:induction false} OverlaysIntersect(base: BoundFacets, local: seq<BoundFacet>, v: Decimal)
    requires Restricts(base, local)
    ensures Admits(ApplyBounds(base, local), v) <==> Admits(base, v) && forall i :: 0 <= i < |local| ==>
      Demands(local[i], v)
    ensures (forall i :: 0 <= i < |local| ==> !local[i].kind.IsLower()) ==> ApplyBounds(base, local).lower == base.lower
    ensures (forall i :: 0 <= i < |local| ==> !local[i].kind.IsUpper()) ==> ApplyBounds(base, local).upper == base.upper
  {
    hide Compare, MonotonicHolds, WithinLower, WithinUpper, OverlayEndpoint;
    if local != [] {
      var n := |local| - 1;
      var front, bound := local[..n], local[n];
      assert Restricts(base, front);
      OverlaysIntersect(base, front, v);
      if bound.kind.IsLower() {
        assert ApplyBounds(base, front).lower == base.lower;
        LowerOverlay(v, base.lower, bound);
      } else {
        assert ApplyBounds(base, front).upper == base.upper;
        UpperOverlay(v, base.upper, bound);
      }
    }
  }

  lemma DeclarationsDistinct(bounds: seq<BoundFacet>, version: Version)
    requires First(DeclarationVerdicts(bounds, version)).Pass?
    ensures forall i :: 0 <= i < |bounds| ==> !bounds[i].kind.UnknownKind?
    ensures forall i, j :: 0 <= i < j < |bounds| ==> bounds[i].kind.IsLower() != bounds[j].kind.IsLower()
  {
    var verdicts := DeclarationVerdicts(bounds, version);
    forall i | 0 <= i < |bounds|
      ensures !bounds[i].kind.UnknownKind?
      ensures forall j :: 0 <= j < i ==> bounds[j].kind != bounds[i].kind && bounds[j].kind != bounds[i].kind.Opposite()
    {
      assert verdicts[i].Pass? && verdicts[i] == DeclarationVerdict(bounds, i, version);
    }
  }

  lemma CompletedRestricts(base: BoundFacets, local: seq<BoundFacet>, derived: bool, effective: BoundFacets)
    requires Completed(base, local, derived) == Ok(effective)
    requires derived || (base.lower.None? && base.upper.None?)
    ensures Restricts(base, local) && effective == ApplyBounds(base, local) && Validate(effective).Pass?
  {
    hide Compare, Validate, MonotonicHolds, DeclarationVerdict, DeclarationVerdicts, ApplyBounds;
    DeclarationsDistinct(local, base.version);
    if derived {
      var verdicts := LocalRestrictions(base, local);
      forall i | 0 <= i < |local|
        ensures LocalRestriction(base, local[i]).Pass?
      {
        assert verdicts[i].Pass?;
      }
    }
  }

  /** A successful step admits exactly the values that the base and every declaration admit. */
  lemma RestrictionIsIntersection(base: BoundFacets, local: seq<BoundFacet>, derived: bool, effective: BoundFacets,
    v: Decimal)
    requires Completed(base, local, derived) == Ok(effective)
    requires derived || (base.lower.None? && base.upper.None?)
    ensures Admits(effective, v) <==> Admits(base, v) && forall i :: 0 <= i < |local| ==> Demands(local[i], v)
  {
    hide Completed, Admits, Demands, Restricts;
    CompletedRestricts(base, local, derived, effective);
    OverlaysIntersect(base, local, v);
  }

  // ----- chains of restrictions

  function Chain(base: BoundFacets, steps: seq<seq<BoundFacet>>): Result<BoundFacets, BoundError> {
    if steps == [] then Ok(base)
    else
      var before := Chain(base, steps[..|steps| - 1]);
      if before.Err? then before else Restrict(before.value, steps[|steps| - 1])
  }

  predicate AllDemand(bounds: seq<BoundFacet>, v: Decimal) {
    forall i :: 0 <= i < |bounds| ==> Demands(bounds[i], v)
  }

  /** Along any chain: nothing new is admitted, and every declaration of it still holds. */
  lemma {:induction false} ChainNarrows(base: BoundFacets, steps: seq<seq<BoundFacet>>, v: Decimal)
    requires Chain(base, steps).Ok?
    ensures Admits(Chain(base, steps).value, v) <==>
      Admits(base, v) && forall k :: 0 <= k < |steps| ==> AllDemand(steps[k], v)
    ensures steps != [] ==> Validate(base).Pass? && Validate(Chain(base, steps).value).Pass?
  {
    hide Validate, Admits, Demands, Completed;
    if steps != [] {
      var before, last := steps[..|steps| - 1], steps[|steps| - 1];
      ChainNarrows(base, before, v);
      var from, to := Chain(base, before).value, Chain(base, steps).value;
      CompletedRestricts(from, last, true, to);
      RestrictionIsIntersection(from, last, true, to, v);
      assert forall k :: 0 <= k < |before| ==> steps[k] == before[k];
    }
  }

  function Side(facets: BoundFacets, lower: bool): Option<Endpoint> {
    if lower then facets.lower else facets.upper
  }

  lemma {:induction false} SideOverlaid(base: BoundFacets, local: seq<BoundFacet>, lower: bool)
    requires Restricts(base, local)
    ensures (forall i :: 0 <= i < |local| ==> local[i].kind.IsLower() != lower) ==>
      Side(ApplyBounds(base, local), lower) == Side(base, lower)
    ensures forall i :: 0 <= i < |local| && local[i].kind.IsLower() == lower ==>
      Side(ApplyBounds(base, local), lower) == Some(OverlayEndpoint(Side(base, lower), EndpointOf(local[i]), lower))
  {
    hide MonotonicHolds, OverlayEndpoint;
    if local != [] {
      var n := |local| - 1;
      assert Restricts(base, local[..n]);
      SideOverlaid(base, local[..n], lower);
      assert forall i :: 0 <= i < n ==> local[..n][i] == local[i];
    }
  }

  predicate KeepsKind(local: seq<BoundFacet>, e: Endpoint, lower: bool) {
    forall i :: 0 <= i < |local| && local[i].kind.IsLower() == lower ==> local[i].kind.Inclusive() == e.inclusive
  }

  /** A fixed endpoint survives with its value exactly when its side is not declared with the other kind. */
  lemma FixedEndpointSurvivesUnlessSwitched(base: BoundFacets, local: seq<BoundFacet>, derived: BoundFacets,
    lower: bool)
    requires Restrict(base, local) == Ok(derived)
    requires Side(base, lower).Some? && Side(base, lower).value.fixed
    ensures var e := Side(base, lower).value;
      KeepsKind(local, e, lower) <==>
        var after := Side(derived, lower);
        && after.Some? && after.value.fixed && after.value.inclusive == e.inclusive
        && Compare(after.value.value, e.value) == 0
  {
    hide Compare, Validate, ApplyBounds, DeclarationVerdict, DeclarationVerdicts;
    var e := Side(base, lower).value;
    CompareWithItself(e.value);
    CompletedRestricts(base, local, true, derived);
    SideOverlaid(base, local, lower);
    var verdicts := LocalRestrictions(base, local);
    forall i | 0 <= i < |local| && local[i].kind.IsLower() == lower
      ensures FixedHolds(e, local[i]) && MonotonicHolds(e, local[i])
    {
      assert verdicts[i].Pass? && verdicts[i] == LocalRestriction(base, local[i]);
    }
  }

  lemma CompareWithItself(d: Decimal)
    ensures Compare(d, d) == 0
  {
    CompareIsExact(d, d);
  }

  // ----- fixed endpoints along a chain

  /** The endpoint is still there, of its kind and fixed. */
  predicate Survives(after: Option<Endpoint>, e: Endpoint) {
    after.Some? && after.value.fixed && after.value.inclusive == e.inclusive && Compare(after.value.value, e.value) == 0
  }

  /** The endpoint lies beyond the other, or shuts out the number that both stand at. */
  predicate Past(after: Option<Endpoint>, e: Endpoint, lower: bool) {
    && after.Some?
    && var x, y := Number(after.value.value), Number(e.value);
       (if lower then x > y else x < y) || (x == y && !after.value.inclusive && e.inclusive)
  }

  lemma PastIsLost(after: Option<Endpoint>, e: Endpoint, lower: bool)
    requires Past(after, e, lower)
    ensures !Survives(after, e)
  {
    CompareIsExact(after.value.value, e.value);
    hide Compare, Number;
  }

  /** No step moves an endpoint back, and a declaration of the other kind changes its kind. */
  lemma StepMoves(base: BoundFacets, local: seq<BoundFacet>, derived: BoundFacets, lower: bool)
    requires Restrict(base, local) == Ok(derived) && Side(base, lower).Some?
    ensures Side(derived, lower).Some?
    ensures var e, after := Side(base, lower).value, Side(derived, lower).value;
      var x, y := Number(after.value), Number(e.value);
      && ((if lower then x > y else x < y) || (x == y && (after.inclusive ==> e.inclusive)))
      && (!KeepsKind(local, e, lower) ==> after.inclusive != e.inclusive)
  {
    hide Compare, Number, Validate, ApplyBounds, DeclarationVerdict, DeclarationVerdicts;
    var e := Side(base, lower).value;
    CompletedRestricts(base, local, true, derived);
    SideOverlaid(base, local, lower);
    if i :| 0 <= i < |local| && local[i].kind.IsLower() == lower {
      CompareIsExact(local[i].value, e.value);
    }
  }

  lemma StaysPast(base: BoundFacets, local: seq<BoundFacet>, derived: BoundFacets, e: Endpoint, lower: bool)
    requires Restrict(base, local) == Ok(derived) && Past(Side(base, lower), e, lower)
    ensures Past(Side(derived, lower), e, lower)
  {
    StepMoves(base, local, derived, lower);
    hide Restrict, Number, KeepsKind;
  }

  lemma SwitchMovesPast(base: BoundFacets, local: seq<BoundFacet>, derived: BoundFacets, e: Endpoint, lower: bool)
    requires Restrict(base, local) == Ok(derived) && Survives(Side(base, lower), e)
    ensures KeepsKind(local, e, lower) ==> Survives(Side(derived, lower), e)
    ensures !KeepsKind(local, e, lower) ==> Past(Side(derived, lower), e, lower)
  {
    var current := Side(base, lower).value;
    CompareIsExact(current.value, e.value);
    FixedEndpointSurvivesUnlessSwitched(base, local, derived, lower);
    StepMoves(base, local, derived, lower);
    var after := Side(derived, lower).value;
    CompareIsExact(after.value, current.value);
    CompareIsExact(after.value, e.value);
    hide Restrict, Compare, Number;
  }

  predicate NeverSwitched(steps: seq<seq<BoundFacet>>, e: Endpoint, lower: bool) {
    forall k :: 0 <= k < |steps| ==> KeepsKind(steps[k], e, lower)
  }

  /** A fixed endpoint survives a chain exactly when no step of it declares the other kind on the same side. */
  lemma {:induction false} FixedEndpointSurvivesChain(base: BoundFacets, steps: seq<seq<BoundFacet>>, lower: bool)
    requires Chain(base, steps).Ok? && Side(base, lower).Some? && Side(base, lower).value.fixed
    ensures var e, last := Side(base, lower).value, Side(Chain(base, steps).value, lower);
      && (NeverSwitched(steps, e, lower) <==> Survives(last, e))
      && (!NeverSwitched(steps, e, lower) ==> Past(last, e, lower))
  {
    hide Restrict, Past, Survives, KeepsKind, Compare;
    var e := Side(base, lower).value;
    if steps == [] {
      SurvivesItself(e);
    } else {
      var before, local := steps[..|steps| - 1], steps[|steps| - 1];
      FixedEndpointSurvivesChain(base, before, lower);
      assert steps == before + [local];
      var from, to := Chain(base, before).value, Chain(base, steps).value;
      if !NeverSwitched(before, e, lower) {
        StaysPast(from, local, to, e, lower);
      } else {
        SwitchMovesPast(from, local, to, e, lower);
      }
      if Past(Side(to, lower), e, lower) {
        PastIsLost(Side(to, lower), e, lower);
      }
    }
  }

  lemma SurvivesItself(e: Endpoint)
    requires e.fixed
    ensures Survives(Some(e), e)
  {
    CompareWithItself(e.value);
  }

  /** The switch does happen: a fixed inclusive endpoint replaced by an exclusive one. */
  lemma FixedEndpointCanBeSwitchedAway()
    ensures var zero, one := Decimal(0, 0, false), Decimal(1, 0, false);
      var base := BoundFacets(XSD10, Some(Endpoint(zero, true, true)), None);
      Restrict(base, [BoundFacet(MinExclusive, one, false, XSD10)])
        == Ok(BoundFacets(XSD10, Some(Endpoint(one, false, false)), None))
  {
    var zero, one := Decimal(0, 0, false), Decimal(1, 0, false);
    var base := BoundFacets(XSD10, Some(Endpoint(zero, true, true)), None);
    var bound := BoundFacet(MinExclusive, one, false, XSD10);
    assert Compare(one, zero) > 0;
    hide Compare;
    assert [bound][..0] == [];
    assert ApplyBounds(base, []) == base;
    assert DeclarationVerdicts([bound], XSD10) == [DeclarationVerdict([bound], 0, XSD10)];
    assert LocalRestrictions(base, [bound]) == [LocalRestriction(base, bound)];
    OneVerdict(DeclarationVerdict([bound], 0, XSD10));
    OneVerdict(LocalRestriction(base, bound));
  }

  lemma OneVerdict(verdict: Verdict)
    ensures First([verdict]) == verdict
  {
    assert [verdict][1..] == [];
  }

  // ----- the order of declarations does not matter

  lemma SwapDeclarations(base: BoundFacets, a: BoundFacet, b: BoundFacet, derived: bool)
    ensures Completed(base, [a, b], derived).Ok? <==> Completed(base, [b, a], derived).Ok?
    ensures Completed(base, [a, b], derived).Ok? ==>
      Completed(base, [a, b], derived) == Completed(base, [b, a], derived)
  {
    hide Validate, LocalRestriction, OverlayEndpoint;
    PairDeclarations(a, b, base.version);
    PairDeclarations(b, a, base.version);
    ApplyPair(base, a, b);
    ApplyPair(base, b, a);
    assert First(LocalRestrictions(base, [a, b])).Pass? <==>
      LocalRestriction(base, a).Pass? && LocalRestriction(base, b).Pass? by {
      PairRestrictions(base, a, b);
    }
    assert First(LocalRestrictions(base, [b, a])).Pass? <==>
      LocalRestriction(base, a).Pass? && LocalRestriction(base, b).Pass? by {
      PairRestrictions(base, b, a);
    }
    hide DeclarationVerdicts, LocalRestrictions, ApplyBounds;
  }

  lemma PairDeclarations(a: BoundFacet, b: BoundFacet, version: Version)
    ensures First(DeclarationVerdicts([a, b], version)).Pass? <==>
      && a.version == version == b.version
      && !a.kind.UnknownKind? && !b.kind.UnknownKind?
      && a.kind.IsLower() != b.kind.IsLower()
  {
    var verdicts := DeclarationVerdicts([a, b], version);
    assert verdicts[0] == DeclarationVerdict([a, b], 0, version) &&
      verdicts[1] == DeclarationVerdict([a, b], 1, version);
    if verdicts[0].Pass? && verdicts[1].Pass? {
      assert [a, b][0] == a;
    }
  }

  lemma PairRestrictions(base: BoundFacets, a: BoundFacet, b: BoundFacet)
    ensures First(LocalRestrictions(base, [a, b])).Pass? <==>
      LocalRestriction(base, a).Pass? && LocalRestriction(base, b).Pass?
  {
    hide LocalRestriction;
    var verdicts := LocalRestrictions(base, [a, b]);
    assert verdicts[0] == LocalRestriction(base, a) && verdicts[1] == LocalRestriction(base, b);
  }

  lemma ApplyPair(base: BoundFacets, a: BoundFacet, b: BoundFacet)
    ensures ApplyBounds(base, [a, b]) == ApplyBound(ApplyBound(base, a), b)
  {
    hide ApplyBound;
    assert [a, b][..1] == [a] && [a][..0] == [];
    assert ApplyBounds(base, [a]) == ApplyBound(base, a);
  }

  // ----- when a completed set is empty

  /** Any scale that is large enough spells the number with a signed integer. */
  lemma AtScale(d: Decimal, scale: nat) returns (a: int)
    requires d.scale <= scale
    ensures Number(d) == SignedScaled(a, scale)
  {
    hide Scaled, Pow10;
    var c := d.coefficient * Pow10(scale - d.scale);
    ScaledUp(d.coefficient, d.scale, scale - d.scale);
    ScaledZero(scale);
    a := if d.negative then -c else c;
  }

  lemma DecimalAt(a: int, scale: nat) returns (d: Decimal)
    ensures Normal(d) && Number(d) == SignedScaled(a, scale)
  {
    hide Scaled;
    d := Reduced(if a < 0 then -a else a, scale, a < 0);
    ReducedIsNormal(if a < 0 then -a else a, scale, a < 0);
  }

  /** Between any two different decimals lies another, and beyond each lies one on either side. */
  lemma Between(low: Decimal, high: Decimal) returns (d: Decimal)
    requires Number(low) < Number(high)
    ensures Normal(d) && Number(low) < Number(d) < Number(high)
  {
    hide Number, SignedScaled;
    var scale := Max(low.scale, high.scale);
    var a := AtScale(low, scale);
    var b := AtScale(high, scale);
    SignedOrder(a, b, scale);
    TimesTen(a, scale);
    TimesTen(b, scale);
    d := DecimalAt(5 * (a + b), scale + 1);
    SignedOrder(10 * a, 5 * (a + b), scale + 1);
    SignedOrder(5 * (a + b), 10 * b, scale + 1);
  }

  lemma Beyond(d: Decimal) returns (below: Decimal, above: Decimal)
    ensures Normal(below) && Normal(above) && Number(below) < Number(d) < Number(above)
  {
    hide Number, SignedScaled;
    var a := AtScale(d, d.scale);
    below := DecimalAt(a - 1, d.scale);
    above := DecimalAt(a + 1, d.scale);
    SignedOrder(a - 1, a, d.scale);
    SignedOrder(a, a + 1, d.scale);
  }

  /** A completed set is empty exactly when both endpoints are exclusive and equal. */
  lemma EmptyExactlyAtExclusivePoint(facets: BoundFacets)
    requires Validate(facets).Pass?
    ensures (forall d: Decimal :: Normal(d) ==> !Admits(facets, d)) <==>
      && facets.lower.Some? && facets.upper.Some?
      && !facets.lower.value.inclusive && !facets.upper.value.inclusive
      && Compare(facets.lower.value.value, facets.upper.value.value) == 0
  {
    if facets.lower.Some? && facets.upper.Some? {
      CompareIsExact(facets.lower.value.value, facets.upper.value.value);
    }
    hide Compare, Number, Normal, WithinLower, WithinUpper;
    if !(facets.lower.Some? && facets.upper.Some?) {
      var d := OneSidedWitness(facets);
      assert Normal(d) && Admits(facets, d);
    } else {
      var low, high := facets.lower.value, facets.upper.value;
      if Number(low.value) < Number(high.value) {
        var d := Between(low.value, high.value);
        WithinMeans(d, low);
        WithinMeans(d, high);
        assert Normal(d) && Admits(facets, d);
      } else {
        var a := AtScale(low.value, low.value.scale);
        var d := DecimalAt(a, low.value.scale);
        WithinMeans(d, low);
        WithinMeans(d, high);
        if low.inclusive {
          assert Normal(d) && Admits(facets, d);
        } else {
          forall e: Decimal
            ensures !Admits(facets, e)
          {
            WithinMeans(e, low);
            WithinMeans(e, high);
          }
        }
      }
    }
  }

  lemma OneSidedWitness(facets: BoundFacets) returns (d: Decimal)
    requires !(facets.lower.Some? && facets.upper.Some?)
    ensures Normal(d) && Admits(facets, d)
  {
    hide Compare, Number;
    d := ZERO;
    if facets.lower.Some? {
      var _, above := Beyond(facets.lower.value.value);
      d := above;
      WithinMeans(d, facets.lower.value);
    } else if facets.upper.Some? {
      var below, _ := Beyond(facets.upper.value.value);
      d := below;
      WithinMeans(d, facets.upper.value);
    }
  }
}
