/** When a restriction of decimal bounds is accepted (datatype_bounds.go). */
module DecimalBoundsAcceptance {
  import opened Wrappers
  import opened Powers
  import opened StrictDecimal
  import opened DecimalBounds

  // ----- one bound against its base endpoint

  predicate WithinSide(d: Decimal, e: Endpoint, lower: bool) {
    if lower then WithinLower(d, Some(e)) else WithinUpper(d, Some(e))
  }

  lemma Same(d: Decimal) returns (normal: Decimal)
    ensures Normal(normal) && Number(normal) == Number(d)
  {
    var a := AtScale(d, d.scale);
    normal := DecimalAt(a, d.scale);
  }

  /** A decimal that the bound admits and the endpoint does not, if the bound lies before it. */
  lemma Escapes(parent: Endpoint, child: BoundFacet, lower: bool) returns (d: Decimal)
    requires child.kind.IsLower() == lower && !MonotonicHolds(parent, child) && !child.kind.UnknownKind?
    ensures Normal(d) && Demands(child, d) && !WithinSide(d, parent, lower)
  {
    CompareIsExact(child.value, parent.value);
    hide Compare, Number, Normal;
    if child.kind.Inclusive() {
      d := Same(child.value);
    } else if lower {
      d := Between(child.value, parent.value);
    } else {
      d := Between(parent.value, child.value);
    }
    WithinMeans(d, parent);
    WithinMeans(d, EndpointOf(child));
  }

  /** The order check of a bound asks that it admit nothing that the base endpoint shuts out. */
  lemma MonotonicMeans(parent: Endpoint, child: BoundFacet, lower: bool)
    requires child.kind.IsLower() == lower && !child.kind.UnknownKind?
    ensures MonotonicHolds(parent, child) <==>
      forall d: Decimal :: Normal(d) && Demands(child, d) ==> WithinSide(d, parent, lower)
  {
    if MonotonicHolds(parent, child) {
      CompareIsExact(child.value, parent.value);
      forall d: Decimal | Normal(d) && Demands(child, d)
        ensures WithinSide(d, parent, lower)
      {
        WithinMeans(d, parent);
        WithinMeans(d, EndpointOf(child));
      }
    } else {
      var d := Escapes(parent, child, lower);
    }
  }

  // ----- both sides

  predicate AtExclusivePoint(facets: BoundFacets) {
    && facets.lower.Some? && facets.upper.Some? && !facets.lower.value.inclusive && !facets.upper.value.inclusive
    && Compare(facets.lower.value.value, facets.upper.value.value) == 0
  }

  /** The interval admits a decimal, or is exclusive at one point, which the program allows. */
  ghost predicate IntervalConsistent(facets: BoundFacets) {
    AtExclusivePoint(facets) || exists d: Decimal :: Normal(d) && Admits(facets, d)
  }

  lemma IntervalMeans(facets: BoundFacets)
    ensures IntervalHolds(facets.lower, facets.upper) <==> IntervalConsistent(facets)
  {
    var known := facets.(version := XSD10);
    assert Validate(known).Pass? <==> IntervalHolds(facets.lower, facets.upper);
    if IntervalHolds(facets.lower, facets.upper) {
      EmptyExactlyAtExclusivePoint(known);
      assert forall d: Decimal :: Admits(known, d) == Admits(facets, d);
    } else {
      CompareIsExact(facets.lower.value.value, facets.upper.value.value);
      hide Compare, Number, Normal;
      forall d: Decimal
        ensures !Admits(facets, d)
      {
        WithinMeans(d, facets.lower.value);
        WithinMeans(d, facets.upper.value);
      }
    }
  }

  // ----- when a step is accepted

  /** A declaration of a known kind and the right version, alone on its side. */
  ghost predicate DeclarationAccepted(base: BoundFacets, local: seq<BoundFacet>, i: nat)
    requires i < |local|
  {
    && local[i].version == base.version && (local[i].kind.IsLower() || local[i].kind.IsUpper())
    && forall j :: 0 <= j < i ==> local[j].kind.IsLower() != local[i].kind.IsLower()
  }

  /** The value is one of the base or repeats an exclusive endpoint, and a fixed one of its kind is kept. */
  ghost predicate BoundAccepted(base: BoundFacets, bound: BoundFacet) {
    var parent := BaseEndpoint(base, bound.kind);
    && (|| Admits(base, bound.value)
        || (parent.Some? && !parent.value.inclusive && !bound.kind.Inclusive() &&
              Number(bound.value) == Number(parent.value.value)))
    && (parent.Some? && parent.value.fixed && parent.value.inclusive == bound.kind.Inclusive() ==>
          Number(bound.value) == Number(parent.value.value))
  }

  lemma DeclarationsMean(base: BoundFacets, local: seq<BoundFacet>)
    ensures First(DeclarationVerdicts(local, base.version)).Pass? <==>
      forall i :: 0 <= i < |local| ==> DeclarationAccepted(base, local, i)
  {
    var verdicts := DeclarationVerdicts(local, base.version);
    if First(verdicts).Pass? {
      DeclarationsDistinct(local, base.version);
      forall i | 0 <= i < |local|
        ensures DeclarationAccepted(base, local, i)
      {
        assert verdicts[i].Pass? && verdicts[i] == DeclarationVerdict(local, i, base.version);
      }
    }
    if forall i :: 0 <= i < |local| ==> DeclarationAccepted(base, local, i) {
      forall i | 0 <= i < |local|
        ensures verdicts[i].Pass?
      {
        assert DeclarationAccepted(base, local, i);
        assert forall j :: 0 <= j < i ==> local[j].kind.IsLower() != local[i].kind.IsLower();
      }
    }
  }

  lemma BoundMeans(base: BoundFacets, bound: BoundFacet)
    requires bound.kind.IsLower() || bound.kind.IsUpper()
    ensures LocalRestriction(base, bound).Pass? <==> BoundAccepted(base, bound)
  {
    var parent := BaseEndpoint(base, bound.kind);
    if parent.Some? {
      CompareIsExact(bound.value, parent.value.value);
      WithinMeans(bound.value, parent.value);
    }
    hide Compare, Number, WithinLower, WithinUpper;
  }

  lemma BoundsMean(base: BoundFacets, local: seq<BoundFacet>)
    requires forall i :: 0 <= i < |local| ==> DeclarationAccepted(base, local, i)
    ensures First(LocalRestrictions(base, local)).Pass? <==> forall bound <- local :: BoundAccepted(base, bound)
  {
    hide LocalRestriction, BoundAccepted;
    var verdicts := LocalRestrictions(base, local);
    forall i | 0 <= i < |local|
      ensures local[i] in local && (verdicts[i].Pass? <==> BoundAccepted(base, local[i]))
    {
      assert DeclarationAccepted(base, local, i);
      BoundMeans(base, local[i]);
    }
  }

  /**
   * A restriction is accepted exactly when its base is sensible, each side is
   * declared at most once under the version of the base, every declared value
   * is one of the base or repeats an exclusive endpoint, fixed values are
   * kept, and base and declarations together admit a decimal or meet at one
   * exclusive point.
   */
  lemma RestrictionIsAcceptedExactly(base: BoundFacets, local: seq<BoundFacet>)
    ensures Restrict(base, local).Ok? <==>
      && base.version in {XSD10, XSD11} && IntervalConsistent(base)
      && (forall i :: 0 <= i < |local| ==> DeclarationAccepted(base, local, i))
      && (forall bound <- local :: BoundAccepted(base, bound))
      && (AtExclusivePoint(ApplyBounds(base, local)) || exists d: Decimal ::
            Normal(d) && Admits(base, d) && AllDemand(local, d))
  {
    ChecksOfStep(base, local);
    IntervalMeans(base);
    DeclarationsMean(base, local);
    hide DeclarationAccepted, BoundAccepted, Normal, Admits, AllDemand, AtExclusivePoint, LocalRestrictions,
      DeclarationVerdicts, IntervalHolds, IntervalConsistent, ApplyBounds, Restrict;
    if forall i :: 0 <= i < |local| ==> DeclarationAccepted(base, local, i) {
      BoundsMean(base, local);
      if First(LocalRestrictions(base, local)).Pass? {
        EffectiveMeans(base, local);
      }
    }
  }

  lemma ChecksOfStep(base: BoundFacets, local: seq<BoundFacet>)
    ensures Restrict(base, local).Ok? <==>
      && base.version in {XSD10, XSD11} && IntervalHolds(base.lower, base.upper)
      && First(DeclarationVerdicts(local, base.version)).Pass? && First(LocalRestrictions(base, local)).Pass?
      && IntervalHolds(ApplyBounds(base, local).lower, ApplyBounds(base, local).upper)
  {
    VersionStays(base, local);
    hide DeclarationVerdicts, LocalRestrictions, IntervalHolds, ApplyBounds;
  }

  lemma {:induction false} VersionStays(base: BoundFacets, local: seq<BoundFacet>)
    ensures ApplyBounds(base, local).version == base.version
  {
    hide OverlayEndpoint;
    if local != [] {
      VersionStays(base, local[..|local| - 1]);
    }
  }

  lemma EffectiveMeans(base: BoundFacets, local: seq<BoundFacet>)
    requires First(DeclarationVerdicts(local, base.version)).Pass? && First(LocalRestrictions(base, local)).Pass?
    ensures IntervalHolds(ApplyBounds(base, local).lower, ApplyBounds(base, local).upper) <==>
      || AtExclusivePoint(ApplyBounds(base, local))
      || exists d: Decimal :: Normal(d) && Admits(base, d) && AllDemand(local, d)
  {
    IntervalMeans(ApplyBounds(base, local));
    Intersect(base, local);
    hide DeclarationVerdicts, LocalRestrictions, IntervalHolds, ApplyBounds, Admits, AllDemand, Normal,
      AtExclusivePoint;
  }

  lemma Intersect(base: BoundFacets, local: seq<BoundFacet>)
    requires First(DeclarationVerdicts(local, base.version)).Pass? && First(LocalRestrictions(base, local)).Pass?
    ensures forall d: Decimal :: Admits(ApplyBounds(base, local), d) <==> Admits(base, d) && AllDemand(local, d)
  {
    DeclarationsDistinct(local, base.version);
    var verdicts := LocalRestrictions(base, local);
    forall i | 0 <= i < |local|
      ensures LocalRestriction(base, local[i]).Pass?
    {
      assert verdicts[i].Pass?;
    }
    hide DeclarationVerdicts, Admits, Demands, ApplyBounds;
    assert Restricts(base, local);
    forall d: Decimal
      ensures Admits(ApplyBounds(base, local), d) <==> Admits(base, d) && AllDemand(local, d)
    {
      OverlaysIntersect(base, local, d);
    }
  }

  // ----- what an accepted step leaves

  /** A declared side has its declaration, fixed if it or the base endpoint of its kind is; the other is as it was. */
  lemma DerivedEndpoint(base: BoundFacets, local: seq<BoundFacet>, derived: BoundFacets, lower: bool)
    requires Restrict(base, local) == Ok(derived)
    ensures (forall i :: 0 <= i < |local| ==> local[i].kind.IsLower() != lower) ==>
      Side(derived, lower) == Side(base, lower)
    ensures forall i :: 0 <= i < |local| && local[i].kind.IsLower() == lower ==>
      var parent := Side(base, lower);
      Side(derived, lower) == Some(Endpoint(local[i].value,
        local[i].fixed ||
          (parent.Some? && parent.value.fixed && parent.value.inclusive == local[i].kind.Inclusive()),
        local[i].kind.Inclusive()))
  {
    hide Compare, Validate, ApplyBounds, DeclarationVerdict, DeclarationVerdicts;
    CompletedRestricts(base, local, true, derived);
    SideOverlaid(base, local, lower);
  }
}
