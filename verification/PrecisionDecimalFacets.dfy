/** precisionDecimal facets and their restriction (precision_decimal_facets.go, precision_decimal_value_facets.go). */
module PrecisionDecimalFacets {
  import opened Wrappers
  import opened DecimalText
  import opened PrecisionDecimal

  // ----- facets, declarations and failures

  datatype DigitFacet = DigitFacet(value: int, fixed: bool)

  datatype Member = Member(lexical: string, value: Value)

  datatype Bound = Bound(lexical: string, value: Value, fixed: bool)

  datatype WhiteSpace = WhiteSpace(value: string, fixed: bool)

  datatype BoundKind = MinInclusive | MinExclusive | MaxInclusive | MaxExclusive {
    predicate Lower() {
      MinInclusive? || MinExclusive?
    }

    predicate Inclusive() {
      MinInclusive? || MaxInclusive?
    }

    /** The other kind on the same side. */
    function Opposite(): BoundKind {
      match this
      case MinInclusive => MinExclusive
      case MinExclusive => MinInclusive
      case MaxInclusive => MaxExclusive
      case MaxExclusive => MaxInclusive
    }
  }

  datatype Bounds = Bounds(minInclusive: Option<Bound>, minExclusive: Option<Bound>, maxInclusive: Option<Bound>,
    maxExclusive: Option<Bound>) {
    function Get(kind: BoundKind): Option<Bound> {
      match kind
      case MinInclusive => minInclusive
      case MinExclusive => minExclusive
      case MaxInclusive => maxInclusive
      case MaxExclusive => maxExclusive
    }

    function Set(kind: BoundKind, bound: Option<Bound>): (result: Bounds)
      ensures forall k: BoundKind :: result.Get(k) == if k == kind then bound else Get(k)
    {
      match kind
      case MinInclusive => this.(minInclusive := bound)
      case MinExclusive => this.(minExclusive := bound)
      case MaxInclusive => this.(maxInclusive := bound)
      case MaxExclusive => this.(maxExclusive := bound)
    }
  }

  /** What one derivation step declares; None was omitted. */
  datatype Declarations = Declarations(
    totalDigits: Option<DigitFacet>,
    minScale: Option<DigitFacet>,
    maxScale: Option<DigitFacet>,
    patterns: Option<seq<string>>,
    enumeration: Option<seq<Member>>,
    bounds: Bounds,
    whiteSpace: Option<WhiteSpace>)

  /** A complete effective set. Patterns of one step are alternatives; steps accumulate. */
  datatype Facets = Facets(
    totalDigits: Option<DigitFacet>,
    minScale: Option<DigitFacet>,
    maxScale: Option<DigitFacet>,
    patterns: seq<seq<string>>,
    enumeration: Option<seq<Member>>,
    bounds: Bounds,
    whiteSpace: Option<WhiteSpace>)

  datatype Code =
    | InvalidTotalDigits | InvalidRestriction | InvalidScaleCombination | ValueViolation | InvalidPattern
    | InvalidWhiteSpace
    | InvalidBoundCombination | InvalidEnumeration | InvalidBound | PatternLimit

  datatype Failure = Failure(internal: bool, code: Code)

  type Verdict = Outcome<Failure>

  const NO_BOUNDS := Bounds(None, None, None, None)
  const NO_FACETS := Facets(None, None, None, [], None, NO_BOUNDS, None)
  const DEFAULT_WHITE_SPACE := WhiteSpace("collapse", true)
  const KINDS: seq<BoundKind> := [MinInclusive, MinExclusive, MaxInclusive, MaxExclusive]

  function Invalid(code: Code): Failure {
    Failure(false, code)
  }

  function Internal(code: Code): Failure {
    Failure(true, code)
  }

  // ----- regular expressions, as seen from here

  datatype Compilation = Compiles | CompileLimit | CompileError

  datatype Matching = Matches | Differs | MatchLimit | MatchError

  /** The regular-expression engine, which is not part of this model. */
  datatype Engine = Engine(compile: string -> Compilation, run: (string, string) -> Matching)

  datatype PatternResult = Matched | Unmatched | Stuck(failure: Failure)

  function MatchPattern(engine: Engine, lexical: string, pattern: string): PatternResult {
    match engine.compile(pattern)
    case CompileLimit => Stuck(Invalid(PatternLimit))
    case CompileError => Stuck(Internal(InvalidPattern))
    case Compiles =>
      match engine.run(pattern, lexical)
      case Matches => Matched
      case Differs => Unmatched
      case MatchLimit => Stuck(Invalid(PatternLimit))
      case MatchError => Stuck(Internal(InvalidPattern))
  }

  /** Alternatives are tried in order until one matches or gets stuck. */
  function MatchGroup(engine: Engine, lexical: string, group: seq<string>): PatternResult {
    if group == [] then Unmatched
    else
      var first := MatchPattern(engine, lexical, group[0]);
      if first.Unmatched? then MatchGroup(engine, lexical, group[1..]) else first
  }

  function GroupVerdict(engine: Engine, lexical: string, group: seq<string>): Verdict {
    match MatchGroup(engine, lexical, group)
    case Matched => Pass
    case Unmatched => Fail(Invalid(ValueViolation))
    case Stuck(failure) => Fail(failure)
  }

  function PatternsVerdict(engine: Engine, lexical: string, groups: seq<seq<string>>): Verdict {
    First(seq(|groups|, i requires 0 <= i < |groups| => GroupVerdict(engine, lexical, groups[i])))
  }

  method ValidatePatterns(engine: Engine, lexical: string, facets: Facets) returns (verdict: Verdict)
    ensures verdict == PatternsVerdict(engine, lexical, facets.patterns)
  {
    var groups := facets.patterns;
    ghost var verdicts := seq(|groups|, i requires 0 <= i < |groups| => GroupVerdict(engine, lexical, groups[i]));
    for g := 0 to |groups|
      invariant First(verdicts) == First(verdicts[g..])
    {
      var group := groups[g];
      var matched := false;
      var p := 0;
      while p < |group| && !matched
        invariant 0 <= p <= |group|
        invariant matched ==> MatchGroup(engine, lexical, group).Matched?
        invariant !matched ==> MatchGroup(engine, lexical, group) == MatchGroup(engine, lexical, group[p..])
      {
        var result := MatchPattern(engine, lexical, group[p]);
        if result.Stuck? {
          return Fail(result.failure);
        }
        matched := result.Matched?;
        p := p + 1;
      }
      if !matched {
        return Fail(Invalid(ValueViolation));
      }
    }
    return Pass;
  }

  // ----- facet validity of one value

  predicate EqualOrIdentical(left: Value, right: Value) {
    if left.NaN? || right.NaN? then left.NaN? && right.NaN? else ExactOrder(left, right) == Equal
  }

  predicate TotalDigitsHold(v: Value, totalDigits: Option<DigitFacet>) {
    totalDigits.Some? && v.Finite? && v.coefficient != 0 ==> DigitCount(v.coefficient) <= totalDigits.value.value
  }

  predicate ScaleHolds(v: Value, minScale: Option<DigitFacet>, maxScale: Option<DigitFacet>) {
    v.Finite? ==>
      && (minScale.Some? ==> minScale.value.value <= v.scale)
      && (maxScale.Some? ==> v.scale <= maxScale.value.value)
  }

  predicate EnumerationHolds(v: Value, enumeration: Option<seq<Member>>) {
    enumeration.Some? ==> exists i :: 0 <= i < |enumeration.value| && EqualOrIdentical(v, enumeration.value[i].value)
  }

  predicate BoundHolds(v: Value, kind: BoundKind, bound: Option<Bound>) {
    bound.Some? ==>
      var order := ExactOrder(v, bound.value.value);
      || order == (if kind.Lower() then Greater else Less)
      || (kind.Inclusive() && order == Equal)
  }

  predicate BoundsHold(v: Value, bounds: Bounds) {
    && BoundHolds(v, MinInclusive, bounds.minInclusive)
    && BoundHolds(v, MinExclusive, bounds.minExclusive)
    && BoundHolds(v, MaxInclusive, bounds.maxInclusive)
    && BoundHolds(v, MaxExclusive, bounds.maxExclusive)
  }

  /** A complete facet set applied to one value and its normalized text. */
  function ValidateInput(engine: Engine, lexical: string, v: Value, facets: Facets): Verdict {
    Both(Validate(engine, facets),
    Both(PatternsVerdict(engine, lexical, facets.patterns),
    Both(Unless(TotalDigitsHold(v, facets.totalDigits), Invalid(ValueViolation)),
    Both(Unless(ScaleHolds(v, facets.minScale, facets.maxScale), Invalid(ValueViolation)),
    Both(Unless(EnumerationHolds(v, facets.enumeration), Invalid(ValueViolation)),
    Unless(BoundsHold(v, facets.bounds), Invalid(ValueViolation)))))))
  }

  predicate Accepts(engine: Engine, facets: Facets, lexical: string, v: Value) {
    ValidateInput(engine, lexical, v, facets).Pass?
  }

  // ----- state checks

  function PatternState(engine: Engine, patterns: seq<string>): Verdict {
    First(seq(|patterns|, i requires 0 <= i < |patterns| =>
      match engine.compile(patterns[i])
      case Compiles => Pass
      case CompileLimit => Fail(Invalid(PatternLimit))
      case CompileError => Fail(Internal(InvalidPattern))))
  }

  function PatternGroupsState(engine: Engine, groups: seq<seq<string>>): Verdict {
    First(seq(|groups|, i requires 0 <= i < |groups| =>
      Both(Unless(groups[i] != [], Internal(InvalidPattern)),
      PatternState(engine, groups[i]))))
  }

  /** Nonempty interval, as far as the two endpoint values are ordered. */
  predicate IntervalHolds(lower: Bound, lowerInclusive: bool, upper: Bound, upperInclusive: bool) {
    var order := ExactOrder(lower.value, upper.value);
    order == Unordered || order == Less || (order == Equal && lowerInclusive == upperInclusive)
  }

  predicate BoundStateHolds(bounds: Bounds) {
    && !(bounds.minInclusive.Some? && bounds.minExclusive.Some?)
    && !(bounds.maxInclusive.Some? && bounds.maxExclusive.Some?)
    && var lower := if bounds.minInclusive.Some? then bounds.minInclusive else bounds.minExclusive;
       var upper := if bounds.maxInclusive.Some? then bounds.maxInclusive else bounds.maxExclusive;
       lower.Some? && upper.Some? ==>
         IntervalHolds(lower.value, bounds.minInclusive.Some?, upper.value, bounds.maxInclusive.Some?)
  }

  predicate ScaleBoundsHold(minScale: Option<DigitFacet>, maxScale: Option<DigitFacet>) {
    minScale.Some? && maxScale.Some? ==> minScale.value.value <= maxScale.value.value
  }

  /** The state check of a completed set. */
  function Validate(engine: Engine, facets: Facets): Verdict {
    Both(Unless(facets.totalDigits.Some? ==> facets.totalDigits.value.value > 0, Internal(InvalidTotalDigits)),
    Both(PatternGroupsState(engine, facets.patterns),
    Both(Unless(facets.enumeration != Some([]), Internal(InvalidEnumeration)),
    Both(Unless(BoundStateHolds(facets.bounds), Invalid(InvalidBoundCombination)),
    Both(Unless(facets.whiteSpace.Some? ==>
      facets.whiteSpace.value == DEFAULT_WHITE_SPACE, Internal(InvalidWhiteSpace)),
    Unless(ScaleBoundsHold(facets.minScale, facets.maxScale), Internal(InvalidScaleCombination)))))))
  }

  /** The state check of local declarations. */
  function ValidateLocal(engine: Engine, local: Declarations): Verdict {
    Both(Unless(local.totalDigits.Some? ==> local.totalDigits.value.value > 0, Invalid(InvalidTotalDigits)),
    Both(Unless(!(local.bounds.minInclusive.Some? && local.bounds.minExclusive.Some?),
      Invalid(InvalidBoundCombination)),
    Both(Unless(!(local.bounds.maxInclusive.Some? && local.bounds.maxExclusive.Some?),
      Invalid(InvalidBoundCombination)),
    Both(Unless(local.patterns != Some([]), Invalid(InvalidPattern)),
    Both(PatternState(engine, if local.patterns.Some? then local.patterns.value else []),
    Both(Unless(local.enumeration.Some? ==>
      local.enumeration.value != [] && forall m <- local.enumeration.value :: m.lexical != "",
         Invalid(InvalidEnumeration)),
    Both(Unless(forall kind <- KINDS :: local.bounds.Get(kind).Some? ==>
      local.bounds.Get(kind).value.lexical != "", Invalid(InvalidBound)),
    Both(Unless(BoundStateHolds(local.bounds), Invalid(InvalidBoundCombination)),
    Unless(local.whiteSpace.Some? ==> local.whiteSpace.value.value == "collapse", Invalid(InvalidWhiteSpace))))))))))
  }

  // ----- membership of local values in the base

  /** A membership failure of a declared value is reported as a failure of its declaration. */
  function Wrapped(verdict: Verdict, code: Code): Verdict {
    if verdict == Fail(Invalid(ValueViolation)) then Fail(Invalid(code)) else verdict
  }

  function MemberVerdicts(engine: Engine, base: Facets, members: seq<Member>): Verdict {
    First(seq(|members|, i requires 0 <= i < |members| =>
      Wrapped(ValidateInput(engine, members[i].lexical, members[i].value, base), InvalidEnumeration)))
  }

  predicate HasNaNBound(bounds: Bounds) {
    exists kind <- KINDS :: bounds.Get(kind).Some? && bounds.Get(kind).value.value.NaN?
  }

  /** An exclusive bound may repeat its base, and a fixed NaN bound may be declared again. */
  predicate MembershipException(base: Facets, kind: BoundKind, v: Value) {
    var bound := base.bounds.Get(kind);
    bound.Some? && EqualOrIdentical(v, bound.value.value) && (!kind.Inclusive() || (v.NaN? && bound.value.fixed))
  }

  function BoundVerdict(engine: Engine, base: Facets, local: Declarations, kind: BoundKind): Verdict {
    var bound := local.bounds.Get(kind);
    if bound.None? then Pass
    else if MembershipException(base, kind, bound.value.value) then Pass
    else if HasNaNBound(base.bounds) then Fail(Invalid(InvalidBound))
    else Wrapped(ValidateInput(engine, bound.value.lexical, bound.value.value, base), InvalidBound)
  }

  function LocalMembers(engine: Engine, base: Facets, local: Declarations): Verdict {
    Both(MemberVerdicts(engine, base, if local.enumeration.Some? then local.enumeration.value else []),
    Both(BoundVerdict(engine, base, local, MinInclusive),
    Both(BoundVerdict(engine, base, local, MinExclusive),
    Both(BoundVerdict(engine, base, local, MaxInclusive),
    BoundVerdict(engine, base, local, MaxExclusive)))))
  }

  // ----- restriction of one facet

  /** `tightens` says that the local value is no less restrictive. */
  function DigitRestriction(local: Option<DigitFacet>, base: Option<DigitFacet>, derived: bool,
    tightens: (int, int) -> bool): Verdict {
    if local.None? || base.None? || !derived then Pass
    else
      Unless((base.value.fixed ==> local.value.value == base.value.value) &&
        tightens(local.value.value, base.value.value),
             Invalid(InvalidRestriction))
  }

  predicate BoundRestrictionHolds(local: Bound, kind: BoundKind, base: Bound, baseKind: BoundKind) {
    var order := ExactOrder(local.value, base.value);
    && (base.fixed && kind == baseKind ==> EqualOrIdentical(local.value, base.value))
    && order != (if kind.Lower() then Less else Greater)
    && !(kind.Inclusive() && !baseKind.Inclusive() && order == Equal)
  }

  function BoundRestriction(local: Declarations, base: Facets, derived: bool, kind: BoundKind): Verdict {
    var bound := local.bounds.Get(kind);
    var inclusive := if kind.Inclusive() then kind else kind.Opposite();
    var exclusive := if kind.Inclusive() then kind.Opposite() else kind;
    if bound.None? || !derived then Pass
    else
      Both(Unless(base.bounds.Get(inclusive).Some? ==>
        BoundRestrictionHolds(bound.value, kind, base.bounds.Get(inclusive).value, inclusive),
           Invalid(InvalidRestriction)),
      Unless(base.bounds.Get(exclusive).Some? ==>
        BoundRestrictionHolds(bound.value, kind, base.bounds.Get(exclusive).value, exclusive),
           Invalid(InvalidRestriction)))
  }

  function WhiteSpaceRestriction(local: Option<WhiteSpace>, base: Option<WhiteSpace>, derived: bool): Verdict {
    Unless(derived && local.Some? && base.Some? ==> local.value.value == base.value.value, Invalid(InvalidRestriction))
  }

  // ----- the overlay

  function OverlayDigit(base: Option<DigitFacet>, local: Option<DigitFacet>): Option<DigitFacet> {
    if local.None? then base
    else if base.Some? && base.value.fixed then Some(local.value.(fixed := true))
    else local
  }

  function BlankMembers(members: seq<Member>): (blank: seq<Member>)
    ensures |blank| == |members|
    ensures forall i :: 0 <= i < |members| ==> blank[i] == Member("", members[i].value)
  {
    seq(|members|, i requires 0 <= i < |members| => members[i].(lexical := ""))
  }

  function BlankBound(bound: Option<Bound>): Option<Bound> {
    if bound.None? then None else Some(bound.value.(lexical := ""))
  }

  function BlankBounds(bounds: Bounds): Bounds {
    Bounds(BlankBound(bounds.minInclusive), BlankBound(bounds.minExclusive), BlankBound(bounds.maxInclusive),
      BlankBound(bounds.maxExclusive))
  }

  function OverlayBound(effective: Bounds, base: Bounds, local: Bounds, kind: BoundKind): Bounds {
    var bound := local.Get(kind);
    if bound.None? then effective
    else
      var fixed := bound.value.fixed || (base.Get(kind).Some? && base.Get(kind).value.fixed);
      effective.Set(kind, Some(Bound("", bound.value.value, fixed))).Set(kind.Opposite(), None)
  }

  function OverlayBounds(base: Bounds, local: Bounds): Bounds {
    var b1 := OverlayBound(BlankBounds(base), base, local, MinInclusive);
    var b2 := OverlayBound(b1, base, local, MinExclusive);
    var b3 := OverlayBound(b2, base, local, MaxInclusive);
    OverlayBound(b3, base, local, MaxExclusive)
  }

  function OverlayWhiteSpace(base: Option<WhiteSpace>, local: Option<WhiteSpace>): WhiteSpace {
    if local.None? then if base.Some? then base.value else DEFAULT_WHITE_SPACE
    else local.value.(fixed := local.value.fixed || base.None? || base.value.fixed)
  }

  function Inherited(base: Facets): Facets {
    base.(enumeration := if base.enumeration.None? then None else Some(BlankMembers(base.enumeration.value)),
          bounds := BlankBounds(base.bounds),
          whiteSpace := Some(OverlayWhiteSpace(base.whiteSpace, None)))
  }

  /** The effective facets of a step, before they are checked. */
  function Overlay(base: Facets, local: Declarations): Facets {
    Facets(OverlayDigit(base.totalDigits, local.totalDigits),
           OverlayDigit(base.minScale, local.minScale),
           OverlayDigit(base.maxScale, local.maxScale),
           if local.patterns.Some? && local.patterns.value != [] then base.patterns + [local.patterns.value]
             else base.patterns,
           if local.enumeration.Some? then Some(BlankMembers(local.enumeration.value)) else Inherited(base).enumeration,
           OverlayBounds(base.bounds, local.bounds),
           Some(OverlayWhiteSpace(base.whiteSpace, local.whiteSpace)))
  }

  const AT_MOST: (int, int) -> bool := (local, base) => local <= base
  const AT_LEAST: (int, int) -> bool := (local, base) => local >= base

  function DigitRestrictions(base: Facets, local: Declarations, derived: bool): Verdict {
    Both(DigitRestriction(local.totalDigits, base.totalDigits, derived, AT_MOST),
    Both(DigitRestriction(local.minScale, base.minScale, derived, AT_LEAST),
    DigitRestriction(local.maxScale, base.maxScale, derived, AT_MOST)))
  }

  function BoundRestrictions(base: Facets, local: Declarations, derived: bool): Verdict {
    Both(BoundRestriction(local, base, derived, MinInclusive),
    Both(BoundRestriction(local, base, derived, MinExclusive),
    Both(BoundRestriction(local, base, derived, MaxInclusive),
    BoundRestriction(local, base, derived, MaxExclusive))))
  }

  function Restrictions(base: Facets, local: Declarations, derived: bool): Verdict {
    Both(DigitRestrictions(base, local, derived),
    Both(WhiteSpaceRestriction(local.whiteSpace, base.whiteSpace, derived),
    BoundRestrictions(base, local, derived)))
  }

  /** Every check of one derivation step, in the order in which they are made. */
  function Checks(engine: Engine, base: Facets, local: Declarations, derived: bool): Verdict {
    var effective := Overlay(base, local);
    Both(Validate(engine, base),
    Both(ValidateLocal(engine, local),
    Both(LocalMembers(engine, base, local),
    Both(Restrictions(base, local, derived),
    Both(Unless(ScaleBoundsHold(effective.minScale, effective.maxScale), Invalid(InvalidScaleCombination)),
    Both(Unless(BoundStateHolds(effective.bounds), Invalid(InvalidBoundCombination)),
    Validate(engine, effective)))))))
  }

  function Step(engine: Engine, base: Facets, local: Declarations, derived: bool): Result<Facets, Failure> {
    match Checks(engine, base, local, derived)
    case Fail(failure) => Err(failure)
    case Pass => Ok(Overlay(base, local))
  }

  function Restrict(engine: Engine, base: Facets, local: Declarations): Result<Facets, Failure> {
    Step(engine, base, local, true)
  }

  // ----- the effective set under construction

  /** The effective facets, assigned field by field while a step is applied. */
  class EffectiveFacets {
    var totalDigits: Option<DigitFacet>
    var minScale: Option<DigitFacet>
    var maxScale: Option<DigitFacet>
    var patterns: seq<seq<string>>
    var enumeration: Option<seq<Member>>
    var bounds: Bounds
    var whiteSpace: Option<WhiteSpace>

    function Value(): Facets
      reads this
    {
      Facets(totalDigits, minScale, maxScale, patterns, enumeration, bounds, whiteSpace)
    }

    constructor (base: Facets)
      ensures Value() == Inherited(base)
    {
      totalDigits, minScale, maxScale, patterns := base.totalDigits, base.minScale, base.maxScale, base.patterns;
      enumeration := if base.enumeration.None? then None else Some(BlankMembers(base.enumeration.value));
      bounds := BlankBounds(base.bounds);
      whiteSpace := Some(OverlayWhiteSpace(base.whiteSpace, None));
    }

    method ApplyTotalDigits(base: Facets, local: DigitFacet, derived: bool) returns (verdict: Verdict)
      modifies this
      ensures verdict == DigitRestriction(Some(local), base.totalDigits, derived, AT_MOST)
      ensures Value() == if verdict.Pass? then old(Value()).(totalDigits := OverlayDigit(base.totalDigits, Some(local)))
        else old(Value())
    {
      if derived && base.totalDigits.Some? {
        verdict := ValidateRestriction(local, base.totalDigits.value, local.value > base.totalDigits.value.value);
        if verdict.Fail? {
          return;
        }
      }
      totalDigits := Some(local);
      if base.totalDigits.Some? && base.totalDigits.value.fixed {
        totalDigits := Some(totalDigits.value.(fixed := true));
      }
      return Pass;
    }

    method ApplyMinScale(base: Facets, local: DigitFacet, derived: bool) returns (verdict: Verdict)
      modifies this
      ensures verdict == DigitRestriction(Some(local), base.minScale, derived, AT_LEAST)
      ensures Value() == if verdict.Pass? then old(Value()).(minScale := OverlayDigit(base.minScale, Some(local)))
        else old(Value())
    {
      if derived && base.minScale.Some? {
        verdict := ValidateRestriction(local, base.minScale.value, local.value < base.minScale.value.value);
        if verdict.Fail? {
          return;
        }
      }
      minScale := Some(local);
      if base.minScale.Some? && base.minScale.value.fixed {
        minScale := Some(minScale.value.(fixed := true));
      }
      return Pass;
    }

    method ApplyMaxScale(base: Facets, local: DigitFacet, derived: bool) returns (verdict: Verdict)
      modifies this
      ensures verdict == DigitRestriction(Some(local), base.maxScale, derived, AT_MOST)
      ensures Value() == if verdict.Pass? then old(Value()).(maxScale := OverlayDigit(base.maxScale, Some(local)))
        else old(Value())
    {
      if derived && base.maxScale.Some? {
        verdict := ValidateRestriction(local, base.maxScale.value, local.value > base.maxScale.value.value);
        if verdict.Fail? {
          return;
        }
      }
      maxScale := Some(local);
      if base.maxScale.Some? && base.maxScale.value.fixed {
        maxScale := Some(maxScale.value.(fixed := true));
      }
      return Pass;
    }

    method ApplyPatterns(local: Option<seq<string>>)
      modifies this`patterns
      ensures patterns == if local.Some? && local.value != [] then old(patterns) + [local.value] else old(patterns)
    {
      if local.Some? && |local.value| != 0 {
        patterns := patterns + [local.value];
      }
    }

    method ApplyEnumeration(local: Option<seq<Member>>)
      modifies this`enumeration
      ensures enumeration == if local.Some? then Some(BlankMembers(local.value)) else old(enumeration)
    {
      if local.None? {
        return;
      }
      enumeration := Some(BlankMembers(local.value));
    }

    method ApplyWhiteSpace(base: Facets, local: Option<WhiteSpace>, derived: bool) returns (verdict: Verdict)
      modifies this`whiteSpace
      ensures verdict == WhiteSpaceRestriction(local, base.whiteSpace, derived)
      ensures whiteSpace == if verdict.Pass? && local.Some? then Some(OverlayWhiteSpace(base.whiteSpace, local))
        else old(whiteSpace)
    {
      if local.None? {
        return Pass;
      }
      if derived && base.whiteSpace.Some? && local.value.value != base.whiteSpace.value.value {
        return Fail(Invalid(InvalidRestriction));
      }
      whiteSpace := local;
      if base.whiteSpace.None? || base.whiteSpace.value.fixed {
        whiteSpace := Some(whiteSpace.value.(fixed := true));
      }
      return Pass;
    }

    method ApplyBound(base: Facets, local: Declarations, kind: BoundKind, derived: bool) returns (verdict: Verdict)
      modifies this`bounds
      ensures verdict == BoundRestriction(local, base, derived, kind)
      ensures bounds == if verdict.Pass? then OverlayBound(old(bounds), base.bounds, local.bounds, kind)
        else old(bounds)
    {
      var bound := local.bounds.Get(kind);
      verdict := BoundRestriction(local, base, derived, kind);
      if bound.None? || verdict.Fail? {
        return;
      }
      bounds := bounds.Set(kind, Some(bound.value.(lexical := "")));
      bounds := bounds.Set(kind.Opposite(), None);
      if base.bounds.Get(kind).Some? && base.bounds.Get(kind).value.fixed {
        bounds := bounds.Set(kind, Some(bounds.Get(kind).value.(fixed := true)));
      }
    }
  }

  method ValidateRestriction(local: DigitFacet, base: DigitFacet, violatesMonotonicity: bool) returns (verdict: Verdict)
    ensures verdict == Unless((base.fixed ==> local.value == base.value) &&
      !violatesMonotonicity, Invalid(InvalidRestriction))
  {
    if base.fixed && local.value != base.value {
      return Fail(Invalid(InvalidRestriction));
    }
    if !violatesMonotonicity {
      return Pass;
    }
    return Fail(Invalid(InvalidRestriction));
  }

  method ApplyDigitFacets(effective: EffectiveFacets, base: Facets, local: Declarations, derived: bool)
    returns (verdict: Verdict)
    requires effective.Value() == Inherited(base)
    modifies effective
    ensures verdict == DigitRestrictions(base, local, derived)
    ensures verdict.Pass? ==>
      effective.Value() == Inherited(base).(totalDigits := OverlayDigit(base.totalDigits, local.totalDigits),
                                            minScale := OverlayDigit(base.minScale, local.minScale),
                                            maxScale := OverlayDigit(base.maxScale, local.maxScale))
  {
    if local.totalDigits.Some? {
      verdict := effective.ApplyTotalDigits(base, local.totalDigits.value, derived);
      if verdict.Fail? {
        return;
      }
    }
    if local.minScale.Some? {
      verdict := effective.ApplyMinScale(base, local.minScale.value, derived);
      if verdict.Fail? {
        return;
      }
    }
    if local.maxScale.Some? {
      verdict := effective.ApplyMaxScale(base, local.maxScale.value, derived);
      if verdict.Fail? {
        return;
      }
    }
    return Pass;
  }

  method ApplyBoundFacets(effective: EffectiveFacets, base: Facets, local: Declarations, derived: bool)
    returns (verdict: Verdict)
    requires effective.bounds == BlankBounds(base.bounds)
    modifies effective`bounds
    ensures verdict == BoundRestrictions(base, local, derived)
    ensures verdict.Pass? ==> effective.bounds == OverlayBounds(base.bounds, local.bounds)
  {
    hide OverlayBound, BoundRestriction, BlankBounds;
    verdict := effective.ApplyBound(base, local, MinInclusive, derived);
    if verdict.Fail? {
      return;
    }
    verdict := effective.ApplyBound(base, local, MinExclusive, derived);
    if verdict.Fail? {
      return;
    }
    verdict := effective.ApplyBound(base, local, MaxInclusive, derived);
    if verdict.Fail? {
      return;
    }
    verdict := effective.ApplyBound(base, local, MaxExclusive, derived);
  }

  /** Applies one step to the inherited facets, field by field. */
  method ApplyLocalFacets(effective: EffectiveFacets, base: Facets, local: Declarations, derived: bool)
    returns (verdict: Verdict)
    requires effective.Value() == Inherited(base)
    modifies effective
    ensures verdict == Restrictions(base, local, derived)
    ensures verdict.Pass? ==> effective.Value() == Overlay(base, local)
  {
    hide DigitRestrictions, WhiteSpaceRestriction, BoundRestrictions, OverlayDigit, OverlayBounds, OverlayWhiteSpace,
      BlankBounds;
    verdict := ApplyDigitFacets(effective, base, local, derived);
    if verdict.Fail? {
      return;
    }
    effective.ApplyPatterns(local.patterns);
    effective.ApplyEnumeration(local.enumeration);
    verdict := effective.ApplyWhiteSpace(base, local.whiteSpace, derived);
    if verdict.Fail? {
      return;
    }
    verdict := ApplyBoundFacets(effective, base, local, derived);
  }

  /** One derivation step; the result is the function `Step`. */
  method CompleteFacets(engine: Engine, base: Facets, local: Declarations, derived: bool)
    returns (result: Result<Facets, Failure>)
    ensures result == Step(engine, base, local, derived)
  {
    hide Validate, ValidateLocal, LocalMembers, Restrictions, Overlay, Inherited, ScaleBoundsHold, BoundStateHolds;
    var verdict := Validate(engine, base);
    if verdict.Fail? {
      return Err(verdict.error);
    }
    verdict := ValidateLocal(engine, local);
    if verdict.Fail? {
      return Err(verdict.error);
    }
    verdict := LocalMembers(engine, base, local);
    if verdict.Fail? {
      return Err(verdict.error);
    }
    var effective := new EffectiveFacets(base);
    verdict := ApplyLocalFacets(effective, base, local, derived);
    if verdict.Fail? {
      return Err(verdict.error);
    }
    var facets := effective.Value();
    if !ScaleBoundsHold(facets.minScale, facets.maxScale) {
      return Err(Invalid(InvalidScaleCombination));
    }
    if !BoundStateHolds(facets.bounds) {
      return Err(Invalid(InvalidBoundCombination));
    }
    verdict := Validate(engine, facets);
    if verdict.Fail? {
      return Err(verdict.error);
    }
    return Ok(facets);
  }

  // ----- what the state check of a completed set can still find

  /** After the checks before it, the state check of the completed set never fails. */
  lemma CompletedSetIsValid(engine: Engine, base: Facets, local: Declarations, derived: bool)
    requires Validate(engine, base).Pass? && ValidateLocal(engine, local).Pass?
    requires ScaleBoundsHold(Overlay(base, local).minScale, Overlay(base, local).maxScale)
    requires BoundStateHolds(Overlay(base, local).bounds)
    ensures Validate(engine, Overlay(base, local)).Pass?
  {
    hide OverlayBounds, BoundStateHolds, ScaleBoundsHold, PatternState;
    if local.patterns.Some? && local.patterns.value != [] {
      var groups, group := base.patterns, local.patterns.value;
      GroupsStateAppend(engine, groups, group);
    }
  }

  lemma GroupsStateAppend(engine: Engine, groups: seq<seq<string>>, group: seq<string>)
    requires PatternGroupsState(engine, groups).Pass? && group != [] && PatternState(engine, group).Pass?
    ensures PatternGroupsState(engine, groups + [group]).Pass?
  {
    hide PatternState;
    var all := groups + [group];
    var before := seq(|groups|, i requires 0 <= i < |groups| =>
      Both(Unless(groups[i] != [], Internal(InvalidPattern)), PatternState(engine, groups[i])));
    var after := seq(|all|, i requires 0 <= i < |all| =>
      Both(Unless(all[i] != [], Internal(InvalidPattern)), PatternState(engine, all[i])));
    forall i | 0 <= i < |all|
      ensures after[i].Pass?
    {
      if i < |groups| {
        assert before[i].Pass? && after[i] == before[i];
      }
    }
  }

  /** So a step fails internally only where its base is invalid itself, or a pattern gets stuck on the engine. */
  lemma FailuresAreFoundBefore(engine: Engine, base: Facets, local: Declarations, derived: bool)
    ensures Checks(engine, base, local, derived) ==
      Both(Validate(engine, base),
      Both(ValidateLocal(engine, local),
      Both(LocalMembers(engine, base, local),
      Both(Restrictions(base, local, derived),
      Both(Unless(ScaleBoundsHold(Overlay(base, local).minScale, Overlay(base, local).maxScale),
        Invalid(InvalidScaleCombination)),
      Unless(BoundStateHolds(Overlay(base, local).bounds), Invalid(InvalidBoundCombination)))))))
  {
    if
      && Validate(engine, base).Pass? && ValidateLocal(engine, local).Pass?
      && ScaleBoundsHold(Overlay(base, local).minScale, Overlay(base, local).maxScale)
      && BoundStateHolds(Overlay(base, local).bounds)
    {
      CompletedSetIsValid(engine, base, local, derived);
    }
    hide Validate, ValidateLocal, LocalMembers, Restrictions, Overlay, ScaleBoundsHold, BoundStateHolds;
  }

  // ----- restriction is intersection

  /** What the declarations of one step demand on their own. */
  predicate LocalAccepts(engine: Engine, local: Declarations, lexical: string, v: Value) {
    && (local.patterns.Some? ==> GroupVerdict(engine, lexical, local.patterns.value).Pass?)
    && TotalDigitsHold(v, local.totalDigits)
    && ScaleHolds(v, local.minScale, local.maxScale)
    && EnumerationHolds(v, local.enumeration)
    && BoundsHold(v, local.bounds)
  }

  lemma AcceptsMeans(engine: Engine, facets: Facets, lexical: string, v: Value)
    ensures Accepts(engine, facets, lexical, v) <==>
      && Validate(engine, facets).Pass?
      && PatternsVerdict(engine, lexical, facets.patterns).Pass?
      && TotalDigitsHold(v, facets.totalDigits)
      && ScaleHolds(v, facets.minScale, facets.maxScale)
      && EnumerationHolds(v, facets.enumeration)
      && BoundsHold(v, facets.bounds)
  {
    hide Validate, PatternsVerdict, TotalDigitsHold, ScaleHolds, EnumerationHolds, BoundsHold;
  }

  lemma StepFacts(engine: Engine, base: Facets, local: Declarations, derived: Facets)
    requires Restrict(engine, base, local) == Ok(derived)
    ensures derived == Overlay(base, local)
    ensures Validate(engine, base).Pass? && Validate(engine, derived).Pass?
    ensures ValidateLocal(engine, local).Pass? && LocalMembers(engine, base, local).Pass?
    ensures DigitRestrictions(base, local, true).Pass? && BoundRestrictions(base, local, true).Pass?
  {
    hide Validate, ValidateLocal, LocalMembers, DigitRestrictions, BoundRestrictions, WhiteSpaceRestriction, Overlay,
      ScaleBoundsHold, BoundStateHolds;
  }

  lemma PatternsAccumulate(engine: Engine, lexical: string, groups: seq<seq<string>>, group: seq<string>)
    ensures PatternsVerdict(engine, lexical, groups + [group]).Pass? <==>
      PatternsVerdict(engine, lexical, groups).Pass? && GroupVerdict(engine, lexical, group).Pass?
  {
    hide GroupVerdict;
    var all := groups + [group];
    var verdicts := seq(|all|, i requires 0 <= i < |all| => GroupVerdict(engine, lexical, all[i]));
    assert verdicts[|groups|] == GroupVerdict(engine, lexical, group);
    assert verdicts[..|groups|] ==
      seq(|groups|, i requires 0 <= i < |groups| => GroupVerdict(engine, lexical, groups[i]));
  }

  lemma EqualityIsTransitive(a: Value, b: Value, c: Value)
    requires EqualOrIdentical(a, b) && EqualOrIdentical(b, c)
    ensures EqualOrIdentical(a, c)
  {
    hide ExactOrder;
    if !a.NaN? {
      OrderIsTransitive(a, b, c);
    }
  }

  /** The membership check passes exactly when the base accepts every member, lexical form and value. */
  lemma MembersAreAccepted(engine: Engine, base: Facets, members: seq<Member>)
    ensures MemberVerdicts(engine, base, members).Pass? <==>
      forall i :: 0 <= i < |members| ==> Accepts(engine, base, members[i].lexical, members[i].value)
  {
    hide ValidateInput;
    var verdicts := seq(|members|, j requires 0 <= j < |members| =>
      Wrapped(ValidateInput(engine, members[j].lexical, members[j].value, base), InvalidEnumeration));
    forall i | 0 <= i < |members|
      ensures verdicts[i].Pass? <==> Accepts(engine, base, members[i].lexical, members[i].value)
    {
    }
  }

  lemma MembersInBase(engine: Engine, base: Facets, members: seq<Member>, v: Value)
    requires MemberVerdicts(engine, base, members).Pass?
    requires EnumerationHolds(v, Some(members))
    ensures EnumerationHolds(v, base.enumeration)
  {
    hide ValidateInput, EqualOrIdentical;
    if base.enumeration.Some? {
      var i :| 0 <= i < |members| && EqualOrIdentical(v, members[i].value);
      var verdicts := seq(|members|, j requires 0 <= j < |members| =>
        Wrapped(ValidateInput(engine, members[j].lexical, members[j].value, base), InvalidEnumeration));
      assert verdicts[i].Pass?;
      AcceptsMeans(engine, base, members[i].lexical, members[i].value);
      var k :| 0 <= k < |base.enumeration.value| && EqualOrIdentical(members[i].value, base.enumeration.value[k].value);
      EqualityIsTransitive(v, members[i].value, base.enumeration.value[k].value);
    }
  }

  lemma BlankingKeepsEnumeration(v: Value, members: seq<Member>)
    ensures EnumerationHolds(v, Some(BlankMembers(members))) <==> EnumerationHolds(v, Some(members))
  {
    hide EqualOrIdentical;
    var blank := BlankMembers(members);
    if EnumerationHolds(v, Some(members)) {
      var i :| 0 <= i < |members| && EqualOrIdentical(v, members[i].value);
      assert EqualOrIdentical(v, blank[i].value);
    }
  }

  predicate OneKindPerSide(bounds: Bounds) {
    && !(bounds.minInclusive.Some? && bounds.minExclusive.Some?)
    && !(bounds.maxInclusive.Some? && bounds.maxExclusive.Some?)
  }

  lemma OverlaidBound(base: Bounds, local: Bounds, kind: BoundKind)
    requires OneKindPerSide(local)
    ensures var bound := OverlayBounds(base, local).Get(kind);
      if local.Get(kind).Some? then
        bound == Some(Bound("", local.Get(kind).value.value,
                            local.Get(kind).value.fixed || (base.Get(kind).Some? && base.Get(kind).value.fixed)))
      else if local.Get(kind.Opposite()).Some? then bound == None
      else bound == BlankBound(base.Get(kind))
  {
  }

  /** A bound that passed the restriction check implies the base bound it was checked against. */
  lemma TighterBound(v: Value, local: Bound, kind: BoundKind, base: Bound, baseKind: BoundKind)
    requires kind.Lower() == baseKind.Lower()
    requires BoundRestrictionHolds(local, kind, base, baseKind)
    requires base.value.NaN? ==> local.value.NaN?
    requires BoundHolds(v, kind, Some(local))
    ensures BoundHolds(v, baseKind, Some(base))
  {
    OrderIsDual(v, local.value);
    OrderIsDual(local.value, base.value);
    OrderIsDual(v, base.value);
    hide ExactOrder, EqualOrIdentical;
    if kind.Lower() {
      OrderIsTransitive(base.value, local.value, v);
    } else {
      OrderIsTransitive(v, local.value, base.value);
    }
  }

  lemma NaNBoundOnlyRepeated(engine: Engine, base: Facets, local: Declarations, kind: BoundKind, baseKind: BoundKind)
    requires OneKindPerSide(base.bounds) && kind.Lower() == baseKind.Lower()
    requires BoundVerdict(engine, base, local, kind).Pass?
    requires local.bounds.Get(kind).Some? && base.bounds.Get(baseKind).Some?
    ensures base.bounds.Get(baseKind).value.value.NaN? ==> local.bounds.Get(kind).value.value.NaN?
  {
    assert baseKind in KINDS by {
      assert KINDS[0] == MinInclusive && KINDS[1] == MinExclusive && KINDS[2] == MaxInclusive &&
        KINDS[3] == MaxExclusive;
    }
  }

  lemma BoundIntersection(engine: Engine, base: Facets, local: Declarations, v: Value, kind: BoundKind)
    requires OneKindPerSide(base.bounds) && OneKindPerSide(local.bounds)
    requires BoundVerdict(engine, base, local, kind).Pass? && BoundVerdict(engine, base, local, kind.Opposite()).Pass?
    requires BoundRestriction(local, base, true, kind).Pass? &&
      BoundRestriction(local, base, true, kind.Opposite()).Pass?
    ensures var effective := OverlayBounds(base.bounds, local.bounds);
      BoundHolds(v, kind, effective.Get(kind)) && BoundHolds(v, kind.Opposite(), effective.Get(kind.Opposite())) <==>
      && BoundHolds(v, kind, base.bounds.Get(kind)) && BoundHolds(v, kind.Opposite(), base.bounds.Get(kind.Opposite()))
      && BoundHolds(v, kind, local.bounds.Get(kind)) &&
        BoundHolds(v, kind.Opposite(), local.bounds.Get(kind.Opposite()))
  {
    OverlaidBound(base.bounds, local.bounds, kind);
    OverlaidBound(base.bounds, local.bounds, kind.Opposite());
    LocalBoundImpliesBase(engine, base, local, v, kind);
    LocalBoundImpliesBase(engine, base, local, v, kind.Opposite());
    hide OverlayBounds, BoundVerdict, BoundRestriction, OneKindPerSide;
  }

  lemma LocalBoundImpliesBase(engine: Engine, base: Facets, local: Declarations, v: Value, kind: BoundKind)
    requires OneKindPerSide(base.bounds)
    requires BoundVerdict(engine, base, local, kind).Pass? && BoundRestriction(local, base, true, kind).Pass?
    ensures local.bounds.Get(kind).Some? && BoundHolds(v, kind, local.bounds.Get(kind)) ==>
      BoundHolds(v, kind, base.bounds.Get(kind)) && BoundHolds(v, kind.Opposite(), base.bounds.Get(kind.Opposite()))
  {
    if local.bounds.Get(kind).Some? && BoundHolds(v, kind, local.bounds.Get(kind)) {
      var bound := local.bounds.Get(kind).value;
      if base.bounds.Get(kind).Some? {
        NaNBoundOnlyRepeated(engine, base, local, kind, kind);
        TighterBound(v, bound, kind, base.bounds.Get(kind).value, kind);
      }
      if base.bounds.Get(kind.Opposite()).Some? {
        NaNBoundOnlyRepeated(engine, base, local, kind, kind.Opposite());
        TighterBound(v, bound, kind, base.bounds.Get(kind.Opposite()).value, kind.Opposite());
      }
    }
  }

  lemma BoundsIntersection(engine: Engine, base: Facets, local: Declarations, v: Value)
    requires Validate(engine, base).Pass? && ValidateLocal(engine, local).Pass?
    requires LocalMembers(engine, base, local).Pass? && BoundRestrictions(base, local, true).Pass?
    ensures BoundsHold(v, OverlayBounds(base.bounds, local.bounds)) <==>
      BoundsHold(v, base.bounds) && BoundsHold(v, local.bounds)
  {
    hide PatternState, PatternGroupsState, MemberVerdicts, BoundVerdict, BoundRestriction, BoundHolds, OverlayBounds;
    assert OneKindPerSide(base.bounds) && OneKindPerSide(local.bounds);
    BoundIntersection(engine, base, local, v, MinInclusive);
    BoundIntersection(engine, base, local, v, MaxInclusive);
  }

  lemma DigitIntersection(base: Option<DigitFacet>, local: Option<DigitFacet>, tightens: (int, int) -> bool)
    requires DigitRestriction(local, base, true, tightens).Pass?
    ensures var effective := OverlayDigit(base, local);
      && (local.Some? ==> effective.Some? && effective.value.value == local.value.value)
      && (local.None? ==> effective == base)
      && (local.Some? && base.Some? ==> tightens(local.value.value, base.value.value))
  {
  }

  lemma EnumerationIntersection(engine: Engine, base: Facets, local: Declarations, v: Value)
    requires LocalMembers(engine, base, local).Pass?
    ensures EnumerationHolds(v, Overlay(base, local).enumeration) <==>
      EnumerationHolds(v, base.enumeration) && EnumerationHolds(v, local.enumeration)
  {
    hide BoundVerdict, MemberVerdicts, OverlayBounds;
    if local.enumeration.Some? {
      BlankingKeepsEnumeration(v, local.enumeration.value);
      if EnumerationHolds(v, local.enumeration) {
        MembersInBase(engine, base, local.enumeration.value, v);
      }
    } else if base.enumeration.Some? {
      BlankingKeepsEnumeration(v, base.enumeration.value);
    }
  }

  lemma PatternsIntersection(engine: Engine, base: Facets, local: Declarations, lexical: string)
    requires ValidateLocal(engine, local).Pass?
    ensures PatternsVerdict(engine, lexical, Overlay(base, local).patterns).Pass? <==>
      && PatternsVerdict(engine, lexical, base.patterns).Pass?
      && (local.patterns.Some? ==> GroupVerdict(engine, lexical, local.patterns.value).Pass?)
  {
    hide PatternState, PatternsVerdict, GroupVerdict, OverlayBounds, BoundStateHolds;
    if local.patterns.Some? {
      PatternsAccumulate(engine, lexical, base.patterns, local.patterns.value);
    }
  }

  /** A derived type admits exactly the pairs its base admits and its own declarations demand. */
  lemma RestrictionIsIntersection(engine: Engine, base: Facets, local: Declarations, derived: Facets, lexical: string,
    v: Value)
    requires Restrict(engine, base, local) == Ok(derived)
    ensures Accepts(engine, derived, lexical, v) <==>
      Accepts(engine, base, lexical, v) && LocalAccepts(engine, local, lexical, v)
  {
    hide Accepts, Restrict, Validate, ValidateLocal, LocalMembers, BoundRestrictions, BoundsHold, EnumerationHolds,
      PatternsVerdict,
         GroupVerdict, OverlayBounds, DigitCount, DigitRestriction, OverlayDigit;
    StepFacts(engine, base, local, derived);
    AcceptsMeans(engine, base, lexical, v);
    AcceptsMeans(engine, derived, lexical, v);
    PatternsIntersection(engine, base, local, lexical);
    EnumerationIntersection(engine, base, local, v);
    BoundsIntersection(engine, base, local, v);
    DigitIntersection(base.totalDigits, local.totalDigits, AT_MOST);
    DigitIntersection(base.minScale, local.minScale, AT_LEAST);
    DigitIntersection(base.maxScale, local.maxScale, AT_MOST);
  }

  // ----- chains of restrictions

  ghost predicate Chain(engine: Engine, types: seq<Facets>, steps: seq<Declarations>) {
    && |types| == |steps| + 1
    && forall i :: 0 <= i < |steps| ==> Restrict(engine, types[i], steps[i]) == Ok(types[i + 1])
  }

  /** Along any chain, whatever the last type accepts every ancestor and every step in between accepts. */
  lemma {:induction false} ChainNarrows(engine: Engine, types: seq<Facets>, steps: seq<Declarations>, lexical: string,
    v: Value)
    requires Chain(engine, types, steps)
    ensures Accepts(engine, types[|steps|], lexical, v) <==>
      && Accepts(engine, types[0], lexical, v)
      && forall i :: 0 <= i < |steps| ==> LocalAccepts(engine, steps[i], lexical, v)
    ensures Accepts(engine, types[|steps|], lexical, v) ==> forall i :: 0 <= i <= |steps| ==>
      Accepts(engine, types[i], lexical, v)
    decreases |steps|
  {
    hide Accepts, LocalAccepts, Restrict;
    var n := |steps|;
    if n > 0 {
      var before, earlier := types[..n], steps[..n - 1];
      assert Chain(engine, before, earlier);
      ChainNarrows(engine, before, earlier, lexical, v);
      RestrictionIsIntersection(engine, types[n - 1], steps[n - 1], types[n], lexical, v);
    }
  }

  /** A fixed digit or scale facet keeps its value and stays fixed along any chain. */
  lemma {:induction false} FixedDigitsForEver(engine: Engine, types: seq<Facets>, steps: seq<Declarations>)
    requires Chain(engine, types, steps)
    ensures var first, last := types[0], types[|steps|];
      && (first.totalDigits.Some? && first.totalDigits.value.fixed ==> last.totalDigits == first.totalDigits)
      && (first.minScale.Some? && first.minScale.value.fixed ==> last.minScale == first.minScale)
      && (first.maxScale.Some? && first.maxScale.value.fixed ==> last.maxScale == first.maxScale)
    decreases |steps|
  {
    hide Restrict, BoundRestrictions, Validate, ValidateLocal, LocalMembers, OverlayBounds;
    var n := |steps|;
    if n > 0 {
      var before, earlier := types[..n], steps[..n - 1];
      assert Chain(engine, before, earlier);
      FixedDigitsForEver(engine, before, earlier);
      StepFacts(engine, types[n - 1], steps[n - 1], types[n]);
    }
  }

  /**
   * A fixed bound survives a step, with its value and fixedness, exactly when
   * the step does not declare the other kind on the same side.
   */
  lemma FixedBoundSurvivesUnlessSwitched(engine: Engine, base: Facets, local: Declarations, derived: Facets,
    kind: BoundKind)
    requires Restrict(engine, base, local) == Ok(derived)
    requires base.bounds.Get(kind).Some? && base.bounds.Get(kind).value.fixed
    ensures local.bounds.Get(kind.Opposite()).None? <==>
      var bound := derived.bounds.Get(kind);
      bound.Some? && bound.value.fixed && EqualOrIdentical(bound.value.value, base.bounds.Get(kind).value.value)
  {
    StepBounds(engine, base, local, derived, kind);
    hide Restrict, BoundVerdict, OverlayBounds, ExactOrder;
    OrderIsReflexive(base.bounds.Get(kind).value.value);
  }

  // ----- fixed bounds along a chain

  /** The bound still has the value, and is fixed. */
  predicate Survives(bounds: Bounds, kind: BoundKind, v: Value) {
    var bound := bounds.Get(kind);
    bound.Some? && bound.value.fixed && EqualOrIdentical(bound.value.value, v)
  }

  /** A bound of this kind shuts out the value, or an inclusive bound at it. */
  predicate PassedBy(bound: Option<Bound>, boundKind: BoundKind, kind: BoundKind, v: Value) {
    && bound.Some?
    && var order := ExactOrder(bound.value.value, v);
       || order == (if kind.Lower() then Greater else Less)
       || (order == Equal && boundKind != kind && kind.Inclusive())
  }

  /** The side of the bound has moved past the value. */
  predicate Passed(bounds: Bounds, kind: BoundKind, v: Value) {
    PassedBy(bounds.Get(kind), kind, kind, v) || PassedBy(bounds.Get(kind.Opposite()), kind.Opposite(), kind, v)
  }

  lemma PassedIsLost(bounds: Bounds, kind: BoundKind, v: Value)
    requires OneKindPerSide(bounds) && Passed(bounds, kind, v)
    ensures !Survives(bounds, kind, v)
  {
    hide ExactOrder;
    if bounds.Get(kind).Some? {
      OrderIsDual(bounds.Get(kind).value.value, v);
    }
  }

  /** An accepted local bound stands at a number base bound of its side or beyond it. */
  lemma LocalBoundBeyondBase(engine: Engine, base: Facets, local: Declarations, kind: BoundKind, baseKind: BoundKind)
    requires OneKindPerSide(base.bounds) && kind.Lower() == baseKind.Lower()
    requires BoundVerdict(engine, base, local, kind).Pass? && BoundRestriction(local, base, true, kind).Pass?
    requires local.bounds.Get(kind).Some? && base.bounds.Get(baseKind).Some?
    requires kind == baseKind ==> !base.bounds.Get(baseKind).value.value.NaN?
    ensures var order := ExactOrder(local.bounds.Get(kind).value.value, base.bounds.Get(baseKind).value.value);
      || order == (if kind.Lower() then Greater else Less)
      || (order == Equal && (kind.Inclusive() ==> baseKind.Inclusive()))
  {
    var bound, limit := local.bounds.Get(kind).value, base.bounds.Get(baseKind).value;
    hide ExactOrder, Validate, PatternsVerdict, TotalDigitsHold, ScaleHolds, EnumerationHolds, HasNaNBound;
    assert BoundRestrictionHolds(bound, kind, limit, baseKind);
    OrderIsDual(bound.value, limit.value);
    if !MembershipException(base, kind, bound.value) {
      assert BoundHolds(bound.value, baseKind, base.bounds.Get(baseKind));
    }
  }

  lemma StepBounds(engine: Engine, base: Facets, local: Declarations, derived: Facets, kind: BoundKind)
    requires Restrict(engine, base, local) == Ok(derived)
    ensures OneKindPerSide(base.bounds) && OneKindPerSide(local.bounds)
    ensures BoundVerdict(engine, base, local, kind).Pass? && BoundRestriction(local, base, true, kind).Pass?
    ensures derived.bounds.Get(kind) ==
      if local.bounds.Get(kind).Some? then
        Some(Bound("", local.bounds.Get(kind).value.value,
                   local.bounds.Get(kind).value.fixed ||
                     (base.bounds.Get(kind).Some? && base.bounds.Get(kind).value.fixed)))
      else if local.bounds.Get(kind.Opposite()).Some? then None
      else BlankBound(base.bounds.Get(kind))
  {
    StepFacts(engine, base, local, derived);
    hide Restrict, PatternState, PatternGroupsState, MemberVerdicts, BoundVerdict, BoundRestriction, DigitRestrictions,
      OverlayBounds;
    assert OneKindPerSide(local.bounds);
    OverlaidBound(base.bounds, local.bounds, kind);
  }

  lemma SwitchPasses(engine: Engine, base: Facets, local: Declarations, derived: Facets, kind: BoundKind)
    requires Restrict(engine, base, local) == Ok(derived)
    requires base.bounds.Get(kind).Some? && local.bounds.Get(kind.Opposite()).Some?
    ensures Passed(derived.bounds, kind, base.bounds.Get(kind).value.value)
  {
    StepBounds(engine, base, local, derived, kind.Opposite());
    hide Restrict, BoundVerdict, BoundRestriction, OverlayBounds, ExactOrder, Validate;
    LocalBoundBeyondBase(engine, base, local, kind.Opposite(), kind);
  }

  lemma BeyondPassed(kind: BoundKind, boundKind: BoundKind, w: Value, u: Value, baseKind: BoundKind, v: Value)
    requires baseKind == kind || baseKind == kind.Opposite()
    requires boundKind == kind || boundKind == kind.Opposite()
    requires PassedBy(Some(Bound("", u, false)), baseKind, kind, v)
    requires var order := ExactOrder(w, u);
      || order == (if kind.Lower() then Greater else Less)
      || (order == Equal && (boundKind.Inclusive() ==> baseKind.Inclusive()))
    ensures PassedBy(Some(Bound("", w, false)), boundKind, kind, v)
  {
    OrdersCompose(w, u, v);
    hide ExactOrder;
  }

  /** Being equal or greater composes, and so does being equal or less. */
  lemma OrdersCompose(a: Value, b: Value, c: Value)
    ensures ExactOrder(a, b) == Equal ==> ExactOrder(a, c) == ExactOrder(b, c)
    ensures ExactOrder(b, c) == Equal ==> ExactOrder(a, c) == ExactOrder(a, b)
    ensures ExactOrder(a, b) == ExactOrder(b, c) && ExactOrder(a, b) in {Less, Greater} ==>
      ExactOrder(a, c) == ExactOrder(a, b)
  {
    OrderIsDual(a, b);
    OrderIsDual(b, c);
    OrderIsDual(a, c);
    hide ExactOrder;
    if ExactOrder(a, b) in {Less, Equal} && ExactOrder(b, c) in {Less, Equal} {
      OrderIsTransitive(a, b, c);
    }
    if ExactOrder(c, b) in {Less, Equal} && ExactOrder(b, a) in {Less, Equal} {
      OrderIsTransitive(c, b, a);
    }
  }

  lemma StaysPassed(engine: Engine, base: Facets, local: Declarations, derived: Facets, kind: BoundKind, v: Value)
    requires Restrict(engine, base, local) == Ok(derived) && Passed(base.bounds, kind, v)
    ensures Passed(derived.bounds, kind, v)
  {
    StepBounds(engine, base, local, derived, kind);
    StepBounds(engine, base, local, derived, kind.Opposite());
    hide Restrict, BoundVerdict, BoundRestriction, OverlayBounds, ExactOrder, Validate, OneKindPerSide, PassedBy,
      EqualOrIdentical;
    var baseKind := if PassedBy(base.bounds.Get(kind), kind, kind, v) then kind else kind.Opposite();
    if local.bounds.Get(kind).Some? {
      MovesOn(engine, base, local, kind, kind, baseKind, v);
    } else if local.bounds.Get(kind.Opposite()).Some? {
      MovesOn(engine, base, local, kind, kind.Opposite(), baseKind, v);
    }
    PassedByValue(kind, v, base.bounds.Get(baseKind), derived.bounds.Get(baseKind), baseKind);
    PassedByValue(kind, v, local.bounds.Get(kind), derived.bounds.Get(kind), kind);
    PassedByValue(kind, v, local.bounds.Get(kind.Opposite()), derived.bounds.Get(kind.Opposite()), kind.Opposite());
  }

  lemma PassedByValue(kind: BoundKind, v: Value, one: Option<Bound>, other: Option<Bound>, boundKind: BoundKind)
    ensures one.Some? && other.Some? && one.value.value == other.value.value ==>
      (PassedBy(one, boundKind, kind, v) <==> PassedBy(other, boundKind, kind, v))
  {
  }

  lemma MovesOn(engine: Engine, base: Facets, local: Declarations, kind: BoundKind, boundKind: BoundKind,
                baseKind: BoundKind, v: Value)
    requires OneKindPerSide(base.bounds)
    requires boundKind in {kind, kind.Opposite()} && baseKind in {kind, kind.Opposite()}
    requires BoundVerdict(engine, base, local, boundKind).Pass? && BoundRestriction(local, base, true, boundKind).Pass?
    requires local.bounds.Get(boundKind).Some? && PassedBy(base.bounds.Get(baseKind), baseKind, kind, v)
    ensures PassedBy(local.bounds.Get(boundKind), boundKind, kind, v)
  {
    var bound, limit := local.bounds.Get(boundKind), base.bounds.Get(baseKind).value;
    OrderIsDual(limit.value, v);
    hide BoundVerdict, BoundRestriction, ExactOrder;
    LocalBoundBeyondBase(engine, base, local, boundKind, baseKind);
    BeyondPassed(kind, boundKind, bound.value.value, limit.value, baseKind, v);
  }

  predicate NeverSwitched(steps: seq<Declarations>, kind: BoundKind) {
    forall i :: 0 <= i < |steps| ==> steps[i].bounds.Get(kind.Opposite()).None?
  }

  /** A fixed bound survives a chain exactly when no step of it declares the other kind on the same side. */
  lemma {:induction false} FixedBoundSurvivesChain(engine: Engine, types: seq<Facets>, steps: seq<Declarations>,
    kind: BoundKind)
    requires Chain(engine, types, steps)
    requires types[0].bounds.Get(kind).Some? && types[0].bounds.Get(kind).value.fixed
    ensures var v := types[0].bounds.Get(kind).value.value;
      && (NeverSwitched(steps, kind) <==> Survives(types[|steps|].bounds, kind, v))
      && (!NeverSwitched(steps, kind) ==> Passed(types[|steps|].bounds, kind, v))
    decreases |steps|
  {
    hide Restrict, ExactOrder;
    var v := types[0].bounds.Get(kind).value.value;
    var n := |steps|;
    if n == 0 {
      OrderIsReflexive(v);
    } else {
      var before, earlier := types[..n], steps[..n - 1];
      assert Chain(engine, before, earlier);
      FixedBoundSurvivesChain(engine, before, earlier, kind);
      LastStep(engine, types[n - 1], steps[n - 1], types[n], kind, v);
      assert steps == earlier + [steps[n - 1]];
    }
  }

  lemma LastStep(engine: Engine, base: Facets, local: Declarations, derived: Facets, kind: BoundKind, v: Value)
    requires Restrict(engine, base, local) == Ok(derived)
    ensures Survives(base.bounds, kind, v) && local.bounds.Get(kind.Opposite()).None? ==>
      Survives(derived.bounds, kind, v)
    ensures Passed(base.bounds, kind, v) ==> Passed(derived.bounds, kind, v) && !Survives(derived.bounds, kind, v)
    ensures Survives(base.bounds, kind, v) && local.bounds.Get(kind.Opposite()).Some? ==>
      Passed(derived.bounds, kind, v) && !Survives(derived.bounds, kind, v)
  {
    DerivedOneKind(engine, base, local, derived);
    hide Restrict, ExactOrder, Passed, EqualOrIdentical, OneKindPerSide;
    if Passed(base.bounds, kind, v) {
      StaysPassed(engine, base, local, derived, kind, v);
    }
    if Survives(base.bounds, kind, v) {
      var u := base.bounds.Get(kind).value.value;
      FixedBoundSurvivesUnlessSwitched(engine, base, local, derived, kind);
      if local.bounds.Get(kind.Opposite()).None? {
        EqualityIsTransitive(derived.bounds.Get(kind).value.value, u, v);
      } else {
        SwitchPasses(engine, base, local, derived, kind);
        PassedAlike(derived.bounds, kind, u, v);
      }
    }
    if Passed(derived.bounds, kind, v) {
      PassedIsLost(derived.bounds, kind, v);
    }
  }

  lemma DerivedOneKind(engine: Engine, base: Facets, local: Declarations, derived: Facets)
    requires Restrict(engine, base, local) == Ok(derived)
    ensures OneKindPerSide(derived.bounds)
  {
    StepFacts(engine, base, local, derived);
    hide Restrict, PatternGroupsState, LocalMembers, OverlayBounds, Overlay, ValidateLocal;
  }

  lemma PassedAlike(bounds: Bounds, kind: BoundKind, u: Value, v: Value)
    requires Passed(bounds, kind, u) && EqualOrIdentical(u, v)
    ensures Passed(bounds, kind, v)
  {
    var boundKind := if PassedBy(bounds.Get(kind), kind, kind, u) then kind else kind.Opposite();
    var w := bounds.Get(boundKind).value.value;
    OrdersCompose(w, u, v);
    hide ExactOrder;
  }

  lemma OrderIsReflexive(v: Value)
    ensures ExactOrder(v, v) == if v.NaN? then Unordered else Equal
  {
  }

  /** The switch does happen: a fixed inclusive bound replaced by an exclusive one. */
  lemma FixedBoundCanBeSwitchedAway(engine: Engine)
    ensures var zero := Finite(0, 0, Positive);
      var one := Finite(1, 0, Positive);
      var base := NO_FACETS.(bounds := NO_BOUNDS.(minInclusive := Some(Bound("0", zero, true))));
      var local := Declarations(None, None, None, None, None, NO_BOUNDS.(minExclusive := Some(Bound("1", one, false))),
        None);
      Restrict(engine, base, local) == Ok(Overlay(base, local)) && Overlay(base, local).bounds.minInclusive == None
  {
    var zero, one := Bound("0", Finite(0, 0, Positive), true), Bound("1", Finite(1, 0, Positive), false);
    var base := NO_FACETS.(bounds := NO_BOUNDS.(minInclusive := Some(zero)));
    var local := Declarations(None, None, None, None, None, NO_BOUNDS.(minExclusive := Some(one)), None);
    OneAboveZero();
    hide ExactOrder;
    assert Validate(engine, base).Pass?;
    assert ValidateLocal(engine, local).Pass?;
    assert LocalMembers(engine, base, local).Pass?;
    assert Restrictions(base, local, true).Pass?;
  }

  lemma OneAboveZero()
    ensures ExactOrder(Finite(1, 0, Positive), Finite(0, 0, Positive)) == Greater
  {
    MagnitudeSign(Finite(0, 0, Positive));
    MagnitudeSign(Finite(1, 0, Positive));
  }
}
