# Exact numbers, facets and graph algorithms of an XML Schema processor

A Dafny model of the parts of the processor where a fast form has to agree with
a simple meaning. `dafny verify dfyconfig.toml` checks all of it.

## What is modelled

* **precisionDecimal** (`PrecisionDecimal`, `PrecisionDecimalCanonical`,
  `PrecisionDecimalLexical`, `PrecisionDecimalLayout`). Values are coefficient
  times ten to the minus scale, with signed zeros, infinities and NaN.
  Comparison never expands a scale and is still the exact order of real numbers.
  Digit counting by binary search, in chunks of 10^9 and by division agree. The
  printer plans an exact length against a byte budget; it succeeds if and only
  if the text fits, and parsing undoes it.
* **Facet restriction** (`PrecisionDecimalFacets`, `PrecisionDecimalAcceptance`,
  `DecimalBounds`, `DecimalBoundsAcceptance`, `DigitFacets`). A step overlays
  local facets on base facets after many checks. The meaning proved is
  intersection: a derived type admits exactly what the base and the local facets
  admit, along any chain, with NaN endpoints, switched bound kinds, replaced
  enumerations and accumulated patterns. When a step is accepted is proved too,
  by the values that base and declarations admit.
* **xs:decimal** (`StrictDecimal`, with `Lexical`). Normal form, comparison,
  canonical text of both versions and the minimality of digit counts.
* **Walks and matchers equal to a naive definition** (`GroupOverlap`,
  `GroupOverlapMeaning`, `SchemaGroups`, `SequenceMatcher`,
  `SubstitutionSearch`).
* **Whole-run invariants** (`CodegenNaming`, `SchemaDiscovery`,
  `DiscoveryOrder`, `DiscoveryOutcome`, `InstanceDocument`, `InstanceGrammar`,
  `InstanceDecoder`, `DoctypeModels`, `DoctypeGrammar`, `DoctypeDeclarations`,
  `DoctypeLiterals`, `DoctypeValues`, `DoctypeAttributes`, `DoctypeEntities`,
  `DoctypeSubset`, `DoctypeMarkup`). The case-folded name allocator,
  breadth-first discovery with exactly-once closing and one possible outcome,
  the element-stack decoder with its tree on the heap, and the recognisers of
  the internal subset with all its declarations.

`Powers`, `DecimalText`, `DecimalLayout` and `Wrappers` hold arithmetic of
powers of ten, digit strings and result types. Where the program changes things
step by step, a method with loops or a class is proved against a function, and
the theorems are about that function.

## What the proofs found

* A fixed bound is checked against bounds of its own kind only. Declaring the
  opposite kind of the same side replaces it. `FixedBoundSurvivesUnlessSwitched`
  and, for decimals, `FixedEndpointSurvivesUnlessSwitched` are the exact
  conditions for a step, `FixedBoundSurvivesChain` and
  `FixedEndpointSurvivesChain` for a chain; `FixedBoundCanBeSwitchedAway` and
  `FixedEndpointCanBeSwitchedAway` are instances.
* The scan of an attribute default passes over the character after a reference.
  A value of XML 1.0 that ends in a reference is therefore refused, and a
  less-than sign after a reference accepted. `StandardValuesExactly` is the
  exact condition, `ReferencesHideCharacters` gives both inputs.
* Two exclusive bounds at one point are accepted although they admit nothing
  (`BoundStateMeans`, and for decimals `IntervalMeans`).
* Zeros print with scale one, so printing keeps their sign and number but not
  their scale. `RoundTripExactly` says which values come back.
* The greedy matcher accepts every child list that has a partition if and only
  if each competitor of a flexible particle is optional
  (`GreedyAcceptsExactlyTolerant`; `NeedyCompetitor` gives a rejected list for
  every other plan). Partitions are also unique if and only if the plan
  satisfies Unique Particle Attribution (`GreedyDecidesExactlyDeterministic`).
* The document type recogniser accepts mixed content nested in a group, which
  XML 1.0 does not have (`NestedMixedIsAccepted`). A recognised model is one of
  XML 1.0 exactly when its text has no further hash sign
  (`StandardExactlyWithoutHash`).
* Equal name keys mean equal case orbits only as far as lower case keeps orbits
  apart; `KeysTellOrbitsExactly` is the exact condition.

## Model

| member | source | states |
|---|---|---|
| PrecisionDecimal.PowerOfTen | precision_decimal.go:248-265 | repeated squaring returns exactly the power of ten, for every exponent |
| PrecisionDecimal.BitLengthBound | precision_decimal.go:208-230 | a number of at most 3h bits is below the h-th power of ten, which makes bitLength/3 + 1 an upper end for the search |
| PrecisionDecimal.DecimalDigitCount | precision_decimal.go:208-230 | the binary search returns the d with 10^(d-1) <= n < 10^d |
| PrecisionDecimal.SmallDigitCount | precision_decimal.go:594-615 | the comparison ladder agrees with the digit count below 10^9 |
| PrecisionDecimal.ChunkDigits | precision_decimal.go:564-592 | dividing by 10^9 removes exactly nine digits |
| PrecisionDecimal.DigitCountAtMost | precision_decimal.go:564-592 | counting in chunks of 10^9 succeeds if and only if the digits are within the limit, returns the digit count, and never leaves uint64 |
| PrecisionDecimal.IsPowerOfTen | precision_decimal.go:539-562 | true if and only if the number is a power of ten |
| PrecisionDecimal.MagnitudeBounds | precision_decimal.go:184-206 | the adjusted exponent brackets the exact magnitude between two powers of ten |
| PrecisionDecimal.LeadingOrderDecides | precision_decimal.go:184-206 | when adjusted exponents differ, their order is the order of the exact magnitudes |
| PrecisionDecimal.CompareMagnitude | precision_decimal.go:184-206 | comparison by adjusted exponent and digit-count alignment equals the exact real order, for any scales |
| PrecisionDecimal.CompareFinite | precision_decimal.go:131-163 | signed comparison equals the exact order; signed zeros are equal |
| PrecisionDecimal.Compare | precision_decimal.go:62-107 | the comparison is the exact partial order of the whole value space |
| PrecisionDecimal.OrderIsDual | precision_decimal.go:62-107 | swapping the operands reverses the order, and only NaN is unordered, also with itself |
| PrecisionDecimal.OrderIsTransitive | precision_decimal.go:62-107 | the order is transitive across finite values and infinities |
| PrecisionDecimalCanonical.LengthLimit | precision_decimal.go:333-339 | the effective limit is the smaller of the budget and the largest int |
| PrecisionDecimalCanonical.AddLength | precision_decimal.go:445-450 | succeeds if and only if the exact sum is within the limit; no overflow |
| PrecisionDecimalCanonical.AddBigLength | precision_decimal.go:467-487 | the same for an arbitrarily large addition |
| PrecisionDecimalCanonical.SignLength | precision_decimal.go:438-443 | the length of the printed sign |
| PrecisionDecimalCanonical.DecimalLength | precision_decimal.go:452-465 | plans the exact length of the decimal layout, or fails if and only if it exceeds the limit |
| PrecisionDecimalCanonical.ScientificLength | precision_decimal.go:489-524 | plans the exact length of the scientific layout, or fails if and only if it exceeds the limit |
| PrecisionDecimalCanonical.MagnitudeInCanonicalRange | precision_decimal.go:526-537 | decides whether the exact magnitude lies between one millionth and one million, ends included |
| PrecisionDecimalCanonical.PlanFinite | precision_decimal.go:374-436 | a plan exists if and only if the canonical text fits the limit, and then has exactly its length and form |
| PrecisionDecimalCanonical.PlanCanonical | precision_decimal.go:352-365 | the same over all values |
| PrecisionDecimalCanonical.CanonicalWriter.WriteZeroes | precision_decimal.go:704-714 | appends exactly that many zeros |
| PrecisionDecimalCanonical.CanonicalWriter.WriteDecimal | precision_decimal.go:716-730 | appends the digits with their point so that `scale` digits are fractional |
| PrecisionDecimalCanonical.CanonicalWriter.WriteScientific | precision_decimal.go:743-761 | appends the scientific layout of digits and exponent |
| PrecisionDecimalCanonical.DecimalPointIndex | precision_decimal.go:732-741 | counts up to the index of the decimal point |
| PrecisionDecimalCanonical.Materialize | precision_decimal.go:617-674 | writes the planned text, and reports an inconsistent plan exactly when lengths differ |
| PrecisionDecimalCanonical.Canonical | precision_decimal.go:319-331 | printing succeeds if and only if the unbudgeted text is within min(budget, largest int), and returns that text; an inconsistent plan never happens |
| PrecisionDecimalLexical.ScanAcceptsNumeral | precision_decimal.go:855-979 | every numeral of the grammar is scanned and constructed as what it denotes |
| PrecisionDecimalLexical.ScanAcceptsExactlyGrammar | precision_decimal.go:855-932 | the scanner accepts exactly the grammar of signs, digits, point and exponent, and the special names |
| PrecisionDecimalLexical.DenotationIsExact | precision_decimal.go:934-979 | the constructed value is the digits read as an integer times ten to the exponent less the fraction digits |
| PrecisionDecimalLexical.CanonicalNumeralSpells | precision_decimal.go:374-436 | canonical text is the rendering of one numeral of the grammar in each of the three layouts |
| PrecisionDecimalLexical.CanonicalNumeralDenotes | precision_decimal.go:951-979 | that numeral denotes the printed value: same coefficient, scale and sign; zeros keep their sign and get scale one |
| PrecisionDecimalLexical.ParseOfCanonicalText | precision_decimal.go:814-843 | parsing undoes printing on every value, whitespace collapse included |
| PrecisionDecimalLexical.RoundTripExactly | precision_decimal.go:319-331 | print then parse is the identity exactly on the values other than zeros of a scale other than one |
| PrecisionDecimalLexical.CanonicalTextIsInjective | precision_decimal.go:319-331 | two values print alike if and only if they are the same printed value, so nonzero values never collide |
| PrecisionDecimalLexical.CanonicalTextIsFixedPoint | precision_decimal.go:319-331 | canonical text is a fixed point of parse then print, and numerically equal to the value |
| PrecisionDecimalLayout.LayoutExactly | precision_decimal.go:374-436 | a nonzero number prints scientifically if and only if its scale is negative or its magnitude lies outside one millionth to one million, as integers say; otherwise with a point before its scale digits, exactly when it has a scale; scientific text has one nonzero digit before its point or exponent, a point exactly with more digits, and no needless sign or zero |
| PrecisionDecimalLayout.FixedTexts | precision_decimal.go:352-365 | zeros and special values have one text each, up to the sign of zero |
| PrecisionDecimalFacets.ValidatePatterns | precision_decimal_value_facets.go:1659-1718 | groups are conjunctions of alternatives, with resource failures of the engine reported first come first |
| PrecisionDecimalFacets.ValidateRestriction | precision_decimal_facets.go:716-749 | refuses a change of a fixed value and a value on the wrong side of the base |
| PrecisionDecimalFacets.EffectiveFacets.ApplyTotalDigits | precision_decimal_facets.go:650-670 | overlays totalDigits in place, keeping fixedness, or leaves it unchanged with the restriction failure |
| PrecisionDecimalFacets.EffectiveFacets.ApplyMinScale | precision_decimal_facets.go:672-692 | the same for minScale, which may only grow |
| PrecisionDecimalFacets.EffectiveFacets.ApplyMaxScale | precision_decimal_facets.go:694-714 | the same for maxScale, which may only shrink |
| PrecisionDecimalFacets.EffectiveFacets.ApplyPatterns | precision_decimal_value_facets.go:1353-1362 | appends the local pattern group |
| PrecisionDecimalFacets.EffectiveFacets.ApplyEnumeration | precision_decimal_value_facets.go:1364-1369 | replaces the enumeration |
| PrecisionDecimalFacets.EffectiveFacets.ApplyWhiteSpace | precision_decimal_value_facets.go:1371-1394 | overlays white space, refusing a change of a fixed one |
| PrecisionDecimalFacets.EffectiveFacets.ApplyBound | precision_decimal_value_facets.go:1420-1502 | overlays one bound and clears the other bound of its side |
| PrecisionDecimalFacets.ApplyDigitFacets | precision_decimal_facets.go:631-648 | the three digit facets in order, up to the first failure |
| PrecisionDecimalFacets.ApplyBoundFacets | precision_decimal_value_facets.go:1396-1418 | the four bounds in order, up to the first failure |
| PrecisionDecimalFacets.ApplyLocalFacets | precision_decimal_facets.go:631-648 | all local facets in order, up to the first failure |
| PrecisionDecimalFacets.CompleteFacets | precision_decimal_facets.go:586-629 | the whole step in place equals the step function: every check in order, then the overlay |
| PrecisionDecimalFacets.MembersAreAccepted | precision_decimal_value_facets.go:937-948 | the membership check of a local enumeration passes if and only if the base accepts every member, lexical form and value |
| PrecisionDecimalFacets.CompletedSetIsValid | precision_decimal_facets.go:586-629 | after the checks before it, the state check of a completed set never fails |
| PrecisionDecimalFacets.FailuresAreFoundBefore | precision_decimal_facets.go:586-629 | so the verdict on a step is that of the checks before it, for every base and local set |
| PrecisionDecimalFacets.MembersInBase | precision_decimal_value_facets.go:937-948 | a value equal or identical to a checked local member is in the base enumeration, NaN included |
| PrecisionDecimalFacets.NaNBoundOnlyRepeated | precision_decimal_value_facets.go:1011-1046 | a NaN endpoint of the base can only be declared again as NaN |
| PrecisionDecimalFacets.LocalBoundImpliesBase | precision_decimal_value_facets.go:1504-1544 | a value within an accepted local bound is within both base bounds of that side, across inclusive and exclusive kinds |
| PrecisionDecimalFacets.BoundsIntersection | precision_decimal_value_facets.go:1396-1544 | overlaid bounds admit exactly what base and local bounds admit |
| PrecisionDecimalFacets.DigitIntersection | precision_decimal_facets.go:650-714 | an overlaid digit facet has the local value and is at least as tight as the base |
| PrecisionDecimalFacets.EnumerationIntersection | precision_decimal_value_facets.go:937-983 | the effective enumeration admits exactly what base and local enumerations admit |
| PrecisionDecimalFacets.PatternsIntersection | precision_decimal_value_facets.go:1353-1362 | accumulated pattern groups admit exactly what the base groups and the local group admit |
| PrecisionDecimalFacets.RestrictionIsIntersection | precision_decimal_facets.go:586-714 | an accepted restriction admits a lexical/value pair if and only if the base and every local facet do |
| PrecisionDecimalFacets.ChainNarrows | precision_decimal_facets.go:586-714 | along any chain of restrictions, a pair accepted at the end is accepted by every ancestor, and exactly when the first type and every local step accept it |
| PrecisionDecimalFacets.FixedDigitsForEver | precision_decimal_facets.go:650-749 | a fixed totalDigits, minScale or maxScale keeps its value and fixedness along any chain |
| PrecisionDecimalFacets.FixedBoundSurvivesUnlessSwitched | precision_decimal_value_facets.go:1504-1544 | a fixed bound survives a restriction with an equal or identical value and its fixedness if and only if the opposite kind of its side is not declared |
| PrecisionDecimalFacets.FixedBoundCanBeSwitchedAway | precision_decimal_value_facets.go:1441-1460 | a concrete accepted restriction that replaces a fixed inclusive bound by an exclusive one |
| PrecisionDecimalFacets.LocalBoundBeyondBase | precision_decimal_value_facets.go:1504-1544 | an accepted local bound stands at a base bound of its side or beyond it, and at it only if it admits no more |
| PrecisionDecimalFacets.FixedBoundSurvivesChain | precision_decimal_value_facets.go:1504-1544 | a fixed bound survives a chain of restrictions if and only if no step declares the opposite kind of its side; otherwise the side has moved past it for good |
| PrecisionDecimalAcceptance.Between | precision_decimal.go:62-107 | between any two ordered values lies a third, infinities included |
| PrecisionDecimalAcceptance.BoundRestrictionMeans | precision_decimal_value_facets.go:1504-1544 | the check of a bound passes if and only if a fixed value of its kind is kept and the bound admits nothing that the base bound shuts out |
| PrecisionDecimalAcceptance.MembershipExceptionMeans | precision_decimal_value_facets.go:997-1046 | a declared bound is exempt from membership if and only if it repeats a base bound that shuts out its own value, an inclusive one being fixed |
| PrecisionDecimalAcceptance.TotalDigitsRestrictionMeans | precision_decimal_facets.go:650-670 | the totalDigits check passes if and only if a fixed value is kept and no value is let in that the base shuts out |
| PrecisionDecimalAcceptance.MinScaleRestrictionMeans | precision_decimal_facets.go:672-692 | the same for minScale |
| PrecisionDecimalAcceptance.MaxScaleRestrictionMeans | precision_decimal_facets.go:694-714 | the same for maxScale |
| PrecisionDecimalAcceptance.BoundStateMeans | precision_decimal_value_facets.go:1179-1234 | bounds on both sides are consistent if and only if no side has two kinds and some value lies within them, an end is NaN, or both are exclusive at one point |
| PrecisionDecimalAcceptance.ValidateMeans | precision_decimal_facets.go:777-824 | the state check of a complete set, as conditions on its facets and on the values it leaves |
| PrecisionDecimalAcceptance.ValidateLocalMeans | precision_decimal_facets.go:826-890 | the state check of declarations, alike |
| PrecisionDecimalAcceptance.RestrictionIsAcceptedExactly | precision_decimal_facets.go:586-714 | a restriction is accepted if and only if base and declarations are sensible alone, declared members and bounds are values of the base or repeat its bound, fixed values are kept, no declared facet lets in what the base shuts out, some number fits all scales, and the resulting bounds are consistent |
| PrecisionDecimalAcceptance.DerivedFacets | precision_decimal_facets.go:631-714 | every effective facet of an accepted restriction has the declared or the inherited value, and is fixed exactly if the declared or the base one is |
| PrecisionDecimalAcceptance.MembershipIsReported | precision_decimal_value_facets.go:950-984 | a declared value outside the base is reported as an invalid declaration of its kind, never as a value violation |
| Lexical.CollapseXMLWhitespace | datatype.go:576-594 | the builder loop returns the words of the input joined by single spaces |
| Lexical.CollapseIsIdempotent | datatype.go:576-594 | collapsing twice is collapsing once |
| Lexical.CollapseKeepsWord | datatype.go:576-594 | text without white space is unchanged |
| Lexical.SplitOfText | datatype.go:461-481 | splitting undoes spelling digits around a point |
| Lexical.TextOfSplit | datatype.go:461-481 | an accepted split spells its numeral again |
| StrictDecimal.NewStrictDecimal | datatype.go:497-521 | trimming trailing fraction zeros in a loop gives the normal form of the scanned digits |
| StrictDecimal.NormalFormIsUnique | datatype.go:497-521 | two normal decimals denote the same number if and only if they are identical |
| StrictDecimal.ScanAcceptsExactlyGrammar | datatype.go:430-452 | the scanner accepts exactly the spellings of the version |
| StrictDecimal.VersionsDifferAtPoint | datatype.go:430-452 | version 1.0 accepts a text if and only if version 1.1 does and its point has a digit on either side |
| StrictDecimal.ParseIsExact | datatype.go:278-302 | parsing a spelling gives the normal decimal of exactly the number spelled |
| StrictDecimal.SameNumberSameDecimal | datatype.go:278-302 | two accepted spellings denote the same number if and only if their parses are identical, if and only if Compare returns zero |
| StrictDecimal.MagnitudesCompareExactly | datatype.go:523-537 | comparison by scale alignment is the order of the exact magnitudes |
| StrictDecimal.CompareIsExact | datatype.go:399-417 | Compare is the order of the exact numbers |
| StrictDecimal.CanonicalSpells | datatype.go:327-356 | canonical text of a version is one spelling of the grammar |
| StrictDecimal.CanonicalDenotes | datatype.go:327-356 | that spelling denotes the decimal |
| StrictDecimal.ParseOfCanonicalText | datatype.go:327-356 | canonical text printed for any version and read under any version gives back the same decimal |
| StrictDecimal.CanonicalLayout | datatype.go:327-355 | text of version 1.0 always has a point, text of version 1.1 exactly for numbers that are no integers; a minus sign exactly for negative numbers, no plus sign, no needless zero at either end |
| StrictDecimal.TotalDigitsIsLeast | datatype.go:374-381 | TotalDigits is the least t >= 1 such that the number is an integer below 10^t over at most the t-th power of ten (section 4.3.11 of XML Schema Part 2) |
| StrictDecimal.FractionDigitsIsLeast | datatype.go:368-372 | FractionDigits is the least power of ten that makes the number an integer |
| DecimalBounds.ValidateBoundDeclarations | datatype_bounds.go:1173-1192 | the seen-map loop reports the first fault of the list: version, kind, repeated kind or opposite kind |
| DecimalBounds.EffectiveBounds.Apply | datatype_bounds.go:1410-1473 | overlays one endpoint in place, leaving the other side unchanged |
| DecimalBounds.CompleteDecimalBoundFacets | datatype_bounds.go:1133-1157 | the whole construction equals the step function |
| DecimalBounds.CompletedRestricts | datatype_bounds.go:1222-1251 | an accepted construction restricts the base declaration by declaration and is the overlay of all of them |
| DecimalBounds.RestrictionIsIntersection | datatype_bounds.go:965-982 | the effective set admits a decimal if and only if the base and every declared bound do, whatever the order of declarations |
| DecimalBounds.RestrictDecimalBoundFacets | datatype_bounds.go:576-581 | a restriction refuses an invalid base, then completes the local bounds |
| DecimalBounds.ChainNarrows | datatype_bounds.go:576-581 | the first and last set of a nonempty chain of restrictions are valid, and along any chain a decimal is admitted at the end if and only if the first set and every declared bound admit it |
| DecimalBounds.FixedEndpointSurvivesUnlessSwitched | datatype_bounds.go:1386-1399 | a fixed endpoint survives a restriction with its value, kind and fixedness if and only if its side is not declared with the other kind |
| DecimalBounds.FixedEndpointCanBeSwitchedAway | datatype_bounds.go:1447-1473 | a concrete accepted restriction that replaces a fixed inclusive endpoint by an exclusive one |
| DecimalBounds.StepMoves | datatype_bounds.go:1386-1473 | a restriction never moves an endpoint back, and a declaration of the other kind changes the kind of the endpoint |
| DecimalBounds.FixedEndpointSurvivesChain | datatype_bounds.go:1386-1399 | a fixed endpoint survives a chain of restrictions if and only if no step declares its side with the other kind; otherwise the side has moved past it for good |
| DecimalBounds.SwapDeclarations | datatype_bounds.go:1133-1157 | two declarations in either order give the same result |
| DecimalBounds.Between | datatype_bounds.go:1518-1527 | between any two decimals lies a decimal |
| DecimalBounds.EmptyExactlyAtExclusivePoint | datatype_bounds.go:1518-1527 | a valid set admits no decimal if and only if both endpoints are exclusive and equal |
| DecimalBoundsAcceptance.MonotonicMeans | datatype_bounds.go:1356-1368 | the order check of a bound passes if and only if the bound admits no decimal that the base endpoint shuts out |
| DecimalBoundsAcceptance.IntervalMeans | datatype_bounds.go:1518-1527 | an interval is consistent if and only if it admits a decimal or is exclusive at one point |
| DecimalBoundsAcceptance.RestrictionIsAcceptedExactly | datatype_bounds.go:576-581 | a restriction is accepted if and only if its base is sensible, each side is declared at most once, every declared value is one of the base or repeats an exclusive endpoint, fixed values are kept, and base and declarations admit a decimal together or meet at one exclusive point |
| DecimalBoundsAcceptance.DerivedEndpoint | datatype_bounds.go:1447-1473 | a declared side has exactly its declaration, fixed if it or the base endpoint of its kind is; another side is as it was |
| DigitFacets.EffectiveFacets.ApplyLocalTotalDigits | datatype_facets.go:615-629 | overlays totalDigits in place after its checks, or leaves it unchanged |
| DigitFacets.EffectiveFacets.ApplyLocalFractionDigits | datatype_facets.go:631-651 | overlays fractionDigits in place after its checks; integers stay fixed at zero |
| DigitFacets.CompleteDigitFacets | datatype_facets.go:575-613 | the whole construction equals the step function: every check in order, then the overlay |
| DigitFacets.IntegerDigitCount | datatype_facets.go:822-839 | dividing by ten counts exactly the decimal digits of the absolute value |
| DigitFacets.RestrictDigitFacets | datatype_facets.go:386-391 | a restriction refuses an invalid base, then completes the local limits |
| DigitFacets.RestrictionIsIntersection | datatype_facets.go:386-391 | an accepted restriction admits a decimal if and only if the base and the local limits do |
| DigitFacets.ChainNarrows | datatype_facets.go:386-391 | the first and last set of a nonempty chain of restrictions are valid, and along any chain a decimal is admitted at the end if and only if the first set and every local limit admit it |
| DigitFacets.FixedForEver | datatype_facets.go:745-765 | a fixed limit keeps its value and fixedness along any chain |
| DigitFacets.IntegersHaveNoFraction | datatype_facets.go:631-651 | a completed integer type has fractionDigits fixed at zero and admits integers only |
| DigitFacets.AdmittedNumbersFit | datatype_facets.go:471-493 | the admitted decimals are exactly those whose exact numbers fit both limits |
| DigitFacets.RestrictionIsAcceptedExactly | datatype_facets.go:575-613 | a restriction is accepted if and only if base and declared limits are sensible and of one version, integers declare no fraction digits, fixed limits are kept, no number is let in that the base shuts out, and the resulting limits fit together |
| DigitFacets.TotalRestrictionMeans | datatype_facets.go:745-765 | a limit on all digits passes the check if and only if a fixed one is kept and no number with more digits is let in |
| DigitFacets.FractionRestrictionMeans | datatype_facets.go:745-765 | the same of fraction digits |
| SchemaGroups.RecordByID | schema_group_local.go:163-170 | finds the first record of an identity; no record before the result has it, and none at all when the result is the length |
| SchemaGroups.EnqueueAffiliations | schema_group_local.go:172-195 | queues exactly the names that elements of the current name are affiliated to |
| SchemaGroups.SubstitutionMayMatch | schema_group_local.go:172-195 | terminates on every, possibly cyclic, affiliation relation and is true if and only if the member reaches the head |
| GroupOverlap.LeafConflict | schema_group_local.go:49-64 | reports a clash of two leaves exactly when they clash |
| GroupOverlap.OverlapWalk.ParticleHasLocal | schema_group_local.go:66-89 | the cached answer is whether the full expansion has a local leaf |
| GroupOverlap.OverlapWalk.VisitLeaf | schema_group_local.go:101-145 | one leaf against the de-duplicated leaves gives the naive verdict against all leaves |
| GroupOverlap.OverlapWalk.WalkLeaves | schema_group_local.go:101-145 | the de-duplicated walk of a particle gives the naive verdict on its full expansion |
| GroupOverlap.OverlapWalk.WalkTerms | schema_group_local.go:147-154 | the same for the terms of a group |
| GroupOverlap.OverlapWalk.CheckGroup | schema_group_local.go:16-47 | one group is checked naively or skipped, as its expansion requires |
| GroupOverlap.DistinctKeepsFirstClash | schema_group_local.go:101-145 | dropping repeated references keeps the first clash with any later leaf |
| GroupOverlap.CleanWalkRepeats | schema_group_local.go:101-145 | a second walk of a clean group without local leaves only repeats references |
| GroupOverlap.NaiveFindsEveryClash | schema_group_local.go:49-64 | the naive check is clean if and only if there is no broken reference and no clashing pair |
| GroupOverlap.ValidateLocalOverlaps | schema_group_local.go:16-47 | on every acyclic graph the optimised check returns exactly the naive verdict: same failure, same first pair |
| GroupOverlapMeaning.ClashIsAmbiguity | schema_group_local.go:49-65 | two leaves clash if and only if one is local and some element name is taken by both, a local one taking its own and a reference every one that may substitute |
| GroupOverlapMeaning.NaiveMeans | schema_group_local.go:16-47 | the verdict on a list of leaves and faults: clean, the first fault, or the first ambiguous pair, inconsistent exactly if both give one name two known types |
| GroupOverlapMeaning.ExpandListsOccurrences | schema_group_local.go:100-157 | the expansion holds exactly the ways to leaves and faults through terms and group references, in lexical order, located at the last group reference on the way |
| GroupOverlapMeaning.GroupIsCleanExactly | schema_group_local.go:16-47 | a group is clean if and only if no way leads to a local leaf, or no way leads to a fault and no two ways to leaves that could take the same element |
| GroupOverlapMeaning.VerdictMeans | schema_group_local.go:16-47 | all groups are clean if and only if each is; otherwise the verdict is that of the first that is not |
| SequenceMatcher.NewOccurrenceRange | particle_occurrence.go:115-126 | a range is accepted if and only if it allows some count |
| SequenceMatcher.MatchParticle | validation_precision_decimal_sequence.go:158-176 | one particle takes the longest run of its name within its maximum |
| SequenceMatcher.MatchSequence | validation_precision_decimal_sequence.go:158-176 | the one-pass loop returns the particle of every child, or the first missing or unexpected name |
| SequenceMatcher.GreedyIsSound | validation_precision_decimal_sequence.go:158-176 | accepted counts lie within every exact range and partition the children |
| SequenceMatcher.GreedyIsComplete | validation_precision_decimal_sequence.go:158-176 | under Unique Particle Attribution (section 3.8.6 of XML Schema Part 1) the greedy match finds every partition |
| SequenceMatcher.CompetitionDefeatsGreedy | validation_precision_decimal_sequence.go:158-176 | otherwise some child list has a partition that the greedy match misses, or two partitions |
| SequenceMatcher.GreedyDecidesExactlyDeterministic | validation_precision_decimal_sequence.go:158-176 | every list has at most one partition and the greedy match finds it, if and only if the plan satisfies Unique Particle Attribution |
| SequenceMatcher.Spare | validation_precision_decimal_sequence.go:158-176 | children that a flexible particle took early can be spared: optional competitors give them up and a partition of the rest remains |
| SequenceMatcher.TolerantAccepts | validation_precision_decimal_sequence.go:158-176 | when every competitor of a flexible particle is optional, each list that has a partition is accepted |
| SequenceMatcher.NeedyCompetitor | validation_precision_decimal_sequence.go:158-176 | otherwise the least children of the plan have a partition and are rejected |
| SequenceMatcher.GreedyAcceptsExactlyTolerant | validation_precision_decimal_sequence.go:158-176 | the greedy match accepts every list that has a partition if and only if every competitor of a flexible particle is optional |
| SequenceMatcher.AssignmentMeans | validation_precision_decimal_sequence.go:158-176 | every child is assigned a particle of its name, in particle order |
| SequenceMatcher.AssignmentCounts | validation_precision_decimal_sequence.go:158-176 | every particle is assigned as many children as it matched |
| SequenceMatcher.RejectionMeans | validation_precision_decimal_sequence.go:158-176 | a missing particle finds fewer children of its name than it needs, with the particles before it matched; an unexpected child is left when all particles are matched |
| SubstitutionSearch.Search.FindPath | codegen_substitution.go:90-161 | the recursive search with its shared visited set returns edges of a real chain, and on failure leaves a set closed under affiliation |
| SubstitutionSearch.ClosedSetAvoidsHead | codegen_substitution.go:90-161 | no chain leaves a finished visited set |
| SubstitutionSearch.FindSubstitutionPath | codegen_substitution.go:90-161 | on well-formed facts, cyclic or not, a path is found if and only if the head is reachable |
| SubstitutionSearch.FirstSubstitutionMember | codegen_substitution.go:65-88 | returns the first non-abstract member in schema order with its path, or none if and only if there is none |
| CodegenNaming.FoldRune | codegen_naming.go:720-734 | the least character of the fold orbit |
| CodegenNaming.OrbitIsShared | codegen_naming.go:720-734 | characters of one orbit have the same orbit, so the fold is canonical |
| CodegenNaming.FoldedAlike | codegen_naming.go:740-746 | characters of one orbit fold alike; the converse holds where lower case keeps orbits apart |
| CodegenNaming.EqualKeys | codegen_naming.go:740-746 | names have equal keys if and only if their characters fold alike one by one |
| CodegenNaming.KeysTellOrbitsExactly | codegen_naming.go:740-746 | equal keys mean pairwise equal orbits, for all names, if and only if lower case keeps the least characters of different orbits apart |
| CodegenNaming.NameAllocator.Reserve | codegen_naming.go:471-478 | free exactly when the folded key was unused; the key is then used |
| CodegenNaming.TakenNeedKeys | codegen_naming.go:456-469 | k taken candidates need k distinct used keys |
| CodegenNaming.NameAllocator.Allocate | codegen_naming.go:456-469 | returns the first free of base, base2, base3, …, found within one more try than used keys |
| CodegenNaming.FirstFreeMeans | codegen_naming.go:456-469 | that name is the base if its key is free, and otherwise the base with the least number from two on whose key is free |
| CodegenNaming.PathKeysAreInjective | codegen_naming.go:748-756 | different lexical paths have different keys |
| CodegenNaming.Section.AllocateAll | codegen_naming.go:152-192 | records answer the requests in order, each with the first free name, up to the first faulty request |
| CodegenNaming.AnswersAreDistinct | codegen_naming.go:152-192 | answers are pairwise distinct after case folding, and distinct from names used before |
| CodegenNaming.AllocateForOwner | codegen_naming.go:194-240 | field names come from the allocator of their owner only |
| CodegenNaming.AllocateFields | codegen_naming.go:194-240 | the same for a whole list of fields |
| CodegenNaming.FieldAnswersAreDistinct | codegen_naming.go:194-240 | field names of one owner are pairwise distinct after case folding |
| CodegenNaming.BuildCodegenNaming | codegen_naming.go:117-150 | a built table answers every request under the key of its owner and path, is collision-free per scope and is indexed exactly; below the largest suffix a table is built if and only if no request is faulty |
| CodegenNaming.RebuildIndex | codegen_naming.go:376-407 | rebuilds an index that agrees with the ordered records |
| CodegenNaming.IndexIsUnique | codegen_naming.go:376-407 | the records determine the index |
| CodegenNaming.Clone | codegen_naming.go:376-407 | a clone equals the table |
| CodegenNaming.LookupsAreExact | codegen_naming.go:322-346 | in every built table a lookup of a field or variant by owner and path finds an identifier if and only if that identifier answered a request for exactly that owner and path |
| SchemaDiscovery.Discovery.CloseSource | discovery.go:216-230 | closes a reader that is there, once, and reports exactly a failed close |
| SchemaDiscovery.Discovery.CloseSourceOnError | discovery.go:201-207 | closes, and adds exactly a failed close after the primary problem |
| SchemaDiscovery.Discovery.RecordEdge | discovery.go:152-159 | the new edge keeps first mentions in order, or makes its target the next one |
| SchemaDiscovery.Discovery.Enqueue | discovery.go:130-174 | resolves the next reference and follows it; or stops with what went wrong at this call, followed by exactly the failed close of a refused source, having obtained exactly the readers of the root, of the edges and of that source |
| SchemaDiscovery.Discovery.Follow | discovery.go:152-174 | records the edge, queues a new source, closes a repeated one and stops exactly at a failed close |
| SchemaDiscovery.Discovery.Finish | discovery.go:176-186 | closes everything queued and adds exactly the failed closes, in order |
| SchemaDiscovery.Discovery.DecodeNext | discovery.go:95-114 | decodes the first queued source, which is the next first mention; when that fails the later first mentions are what is left in the queue |
| SchemaDiscovery.Discovery.FollowAll | discovery.go:118-122 | follows the references of the last document in order; on a stop the queue holds exactly the first mentions not yet decoded |
| SchemaDiscovery.Discovery.Process | discovery.go:95-122 | decodes the first queued source and follows all its references in order, or stops at a point that explains the problem |
| SchemaDiscovery.DiscoverSyntax | discovery.go:76-128 | terminates over finitely many identities; on every exit the readers obtained are exactly those of the root, of the edges and of a source refused last, and each is closed exactly once; on success documents are the first mentions in order, each decoded from the source its first mention resolved to and mentioned by an earlier document, edges are exactly the references as resolved call by call, and every close succeeded; on failure the primary problem is what went wrong at the point reached, and exactly the failed closes follow: of the refused source, then of the first mentions not yet decoded, in order |
| SchemaDiscovery.DiscoveredGraphIsClosed | discovery.go:76-128 | no document twice, every edge joins decoded documents, every reference has its edge, every document but the root is the target of an edge |
| DiscoveryOrder.ParentIsEarlier | discovery.go:95-122 | the first edge to a document comes from an earlier document |
| DiscoveryOrder.DepthsInOrder | discovery.go:95-122 | depths in the tree of first mentions do not decrease along the documents |
| DiscoveryOrder.DocumentsAreTheReachable | discovery.go:76-128 | an identity is decoded if and only if a chain of references leads to it from the root |
| DiscoveryOrder.DepthIsDistance | discovery.go:76-128 | the depth of a document is the length of a shortest chain to it |
| DiscoveryOrder.DistancesInOrder | discovery.go:76-128 | the lengths of shortest chains do not decrease along the documents |
| DiscoveryOutcome.DocumentIsTaken | discovery.go:95-122 | each document is the source taken once the references of the documents before it had been followed, whatever was followed later |
| DiscoveryOutcome.NoneAfter | discovery.go:76-128 | no run goes further than a point where one has finished or a problem has stopped it |
| DiscoveryOutcome.OnePrimaryProblem | discovery.go:76-128 | an environment and a root have one stopping point, and one primary problem if any |
| DiscoveryOutcome.OneAnswer | discovery.go:76-128 | so the whole answer is determined: the graph found, or all problems in their order |
| InstanceDocument.WalkPush | instance.go:1609-1681 | opening an element adds exactly its start to the events |
| InstanceDocument.WalkAddChild | instance.go:1786-1802 | adding text adds exactly its event |
| InstanceDocument.WalkPop | instance.go:1700-1742 | closing an element adds exactly its end |
| InstanceDocument.RunReads | instance.go:370-394 | after any accepted tokens the events held are exactly the tags and text read from the tokens, with names resolved in the scopes in force |
| InstanceGrammar.GrammarIsDecoded | instance.go:370-394 | every prolog, element and epilog of the grammar is decoded to the tree it means |
| InstanceGrammar.DecodedIsGrammar | instance.go:595-628 | every decoded token list is a prolog, one properly nested root element and an epilog |
| InstanceGrammar.DecodedExactlyGrammar | instance.go:595-628 | a token list is decoded to a tree if and only if the grammar spells it with that tree |
| InstanceGrammar.WalkIsTokenSequence | instance.go:595-628 | the in-order walk of the decoded tree is the tag and text sequence of the tokens, and no scope stays open |
| InstanceDecoder.Decoder.PushRetained | instance.go:1650-1681 | appends a new element to its parent in place and opens it, or makes it the root |
| InstanceDecoder.Decoder.AddRetainedText | instance.go:1786-1802 | appends text to the innermost element in place |
| InstanceDecoder.Decoder.PopRetained | instance.go:1700-1742 | the closed element stands for its finished value inside the element around it |
| InstanceDecoder.Decoder.ObserveStartElement | instance.go:1683-1698 | the observer is chosen at its first call, and is told later starts only while streaming |
| InstanceDecoder.Decoder.StartElement | instance.go:1609-1681 | a start tag moves the decoder as the token step says, or reports its first problem |
| InstanceDecoder.Decoder.EndElement | instance.go:1700-1742 | the same for an end tag |
| InstanceDecoder.Decoder.CharacterData | instance.go:1744-1754 | the same for text, inside and outside the root |
| InstanceDecoder.Decoder.CharacterDataOutside | instance.go:1756-1784 | a leading byte-order mark is dropped before the first token only, and then only literal white space is accepted |
| InstanceDecoder.Decoder.DocumentType | instance.go:643-676 | a document type is accepted once, before the root |
| InstanceDecoder.Decoder.XMLDeclaration | instance.go:1817-1860 | an XML declaration is accepted first only |
| InstanceDecoder.Decoder.HandleToken | instance.go:630-691 | every token moves the decoder as its step says |
| InstanceDecoder.Decoder.FinishAtEOF | instance.go:595-628 | open element, missing root, unsupported document type, observer failure, document: in this order |
| InstanceDecoder.ClosedShows | instance.go:1650-1681 | closed elements on the heap spell their trees all the way down |
| InstanceDecoder.StreamHearsTheWalk | instance.go:1683-1742 | while streaming, the observer hears the walk of the tree, which is the token sequence |
| InstanceDecoder.Decode | instance.go:370-394 | the retained heap tree shows the decoded tree, or the observer heard every event, or the first problem is reported with whether the observer had failed; the whole call history of the observer is stated |
| DoctypeModels.ConsumeQName | instance.go:1372-1393 | the token loop consumes the longest run of name characters and accepts it if it is a name with at most one colon |
| DoctypeModels.ModelEnd | instance.go:1045-1052 | on success the recogniser stops strictly after its start and within the body |
| DoctypeModels.ConsumeModel | instance.go:1045-1052 | the index after the model, as the specification function says |
| DoctypeModels.ConsumeMixedModel | instance.go:1054-1082 | the same for mixed content and its loop over alternatives |
| DoctypeModels.ConsumeChildrenModel | instance.go:1084-1099 | the same for a group |
| DoctypeModels.ConsumeModelMembers | instance.go:1101-1123 | the same for the loop over members, with one separator throughout |
| DoctypeModels.ConsumeContentParticle | instance.go:1125-1136 | the same for one particle, recursively |
| DoctypeModels.ConsumeContentSpec | instance.go:1028-1043 | the same for EMPTY, ANY or a model |
| DoctypeModels.ConsumeElement | instance.go:1018-1026 | the same for a whole element declaration |
| DoctypeGrammar.ModelAt | instance.go:1045-1136 | every content model that the grammar spells is recognised, up to exactly its end |
| DoctypeGrammar.ModelFound | instance.go:1045-1136 | every recognised model is spelled by the grammar, up to exactly where the recogniser stopped |
| DoctypeGrammar.ModelsAreExactlyTheGrammar | instance.go:1045-1136 | the recogniser stops at an index if and only if the grammar spells a model up to there that the rest cannot extend |
| DoctypeGrammar.StandardModelsAreRecognised | instance.go:1045-1136 | every content model of sections 3.2.1 and 3.2.2 of XML 1.0 is recognised exactly up to its end |
| DoctypeGrammar.DeclarationsAreExactlyTheGrammar | instance.go:1018-1026 | element declarations are accepted exactly as the grammar spells them |
| DoctypeGrammar.ModelHash | instance.go:1045-1136 | the spelling of a model has a hash sign before its tail if and only if it holds mixed content |
| DoctypeGrammar.StandardExactlyWithoutHash | instance.go:1045-1136 | a recognised model is spelled by a model of XML 1.0 if and only if no hash sign follows the first character after its opening parenthesis and space |
| DoctypeGrammar.NestedMixedIsAccepted | instance.go:1125-1128 | a concrete model outside XML 1.0, with nested mixed content, is accepted |
| DoctypeDeclarations.ConsumeToken | instance.go:1377-1393 | the token loop consumes the longest run of name characters |
| DoctypeDeclarations.ConsumeName | instance.go:1367-1370 | a token without a colon that is a name |
| DoctypeDeclarations.ConsumeNmtoken | instance.go:1395-1408 | a nonempty token |
| DoctypeDeclarations.ConsumeCharReference | instance.go:1475-1503 | the digit loop, the semicolon and the range of the code point |
| DoctypeDeclarations.ConsumeReference | instance.go:1460-1473 | one character or entity reference |
| DoctypeDeclarations.ConsumeEntityValue | instance.go:1410-1437 | the loop over an entity value, up to its closing quote |
| DoctypeDeclarations.ConsumeAttributeValue | instance.go:1439-1458 | the loop over an attribute value, which passes over the character after a reference |
| DoctypeDeclarations.ConsumeLiteral | instance.go:1555-1574 | the loop over a literal, and the characters of a public identifier |
| DoctypeDeclarations.ConsumeExternalID | instance.go:765-781 | the keyword loop and one or two literals |
| DoctypeDeclarations.ConsumeList | instance.go:1182-1240 | the loop over a list of names or of name tokens |
| DoctypeDeclarations.ConsumeAttType | instance.go:1161-1180 | the loop over the type keywords, then notations and enumerations |
| DoctypeDeclarations.ConsumeDefault | instance.go:1242-1267 | a default keyword or an attribute value |
| DoctypeDeclarations.ConsumeAttlist | instance.go:1138-1159 | the loop over the attributes of a list terminates and ends where the specification says |
| DoctypeDeclarations.ConsumeEntity | instance.go:1269-1297 | general and parameter entities, with a value or an external identifier |
| DoctypeDeclarations.ConsumeExternalEntityEnd | instance.go:1299-1311 | notation data after an external identifier, or the end |
| DoctypeDeclarations.ConsumeNotation | instance.go:1313-1341 | a notation with a public or external identifier |
| DoctypeDeclarations.AttributesAreExactlyLists | instance.go:1138-1159 | an attribute list is accepted up to an index if and only if attributes, each after space, stand up to the closing bracket that ends there |
| DoctypeDeclarations.TokensAreExactlyLists | instance.go:1182-1240 | a list goes on after its first token if and only if bars and tokens, with optional space, stand up to its closing parenthesis |
| DoctypeLiterals.ReferencesAreExactlyTheGrammar | instance.go:1460-1503 | references are accepted exactly as section 4.1 of XML 1.0 spells them, with unprefixed names and code points of section 2.2 |
| DoctypeLiterals.TextsAreExactlyTheGrammar | instance.go:1419-1437 | quoted text is accepted exactly as references and other characters up to the quote |
| DoctypeLiterals.EntityValuesAreExactlyTheGrammar | instance.go:1410-1437 | entity values are accepted exactly as section 2.3 of XML 1.0 spells them, without parameter references |
| DoctypeLiterals.ValuesAreExactlyScanned | instance.go:1439-1458 | what the scan of an attribute value accepts: after a reference stands another one or any character at all, and the last piece is no reference |
| DoctypeLiterals.StandardValuesExactly | instance.go:1439-1458 | an attribute value of section 2.3 of XML 1.0 is accepted up to its closing quote if and only if it does not end in a reference |
| DoctypeLiterals.ReferencesHideCharacters | instance.go:1439-1458 | a concrete value that ends in a reference is refused, and one with a less-than sign after a reference is accepted |
| DoctypeValues.LiteralIs | instance.go:1555-1574 | literals are accepted exactly as quoted text without its quote, public identifiers with their own characters |
| DoctypeAttributes.TypesAreExactlyTheGrammar | instance.go:1161-1180 | attribute types are accepted exactly as section 3.3.1 of XML 1.0 spells them, a keyword up to space or the end |
| DoctypeAttributes.DefaultsAreExactlyTheGrammar | instance.go:1242-1267 | defaults are accepted exactly as section 3.3.2 of XML 1.0 spells them, values as scanned, a keyword up to space or the end |
| DoctypeAttributes.AttlistsAreExactlyTheGrammar | instance.go:1138-1159 | attribute list declarations are accepted exactly as section 3.3 of XML 1.0 spells them, values as scanned |
| DoctypeEntities.ExternalIDsAreExactlyTheGrammar | instance.go:765-781 | external identifiers are accepted exactly as section 4.2.2 of XML 1.0 spells them |
| DoctypeEntities.EntitiesAreExactlyTheGrammar | instance.go:1269-1311 | entity declarations are accepted exactly as section 4.2 of XML 1.0 spells them, with unprefixed names |
| DoctypeEntities.NotationsAreExactlyTheGrammar | instance.go:1313-1341 | notation declarations are accepted exactly as section 4.7 of XML 1.0 spells them, with unprefixed names |
| DoctypeSubset.ConsumeInstruction | instance.go:947-976 | the name loop and the search for the end accept an instruction as the specification function says |
| DoctypeSubset.ConsumeMarkup | instance.go:991-1016 | the keyword loop dispatches to the four kinds of declaration |
| DoctypeSubset.ConsumeItem | instance.go:796-811 | one item of the subset, by its first characters |
| DoctypeSubset.ItemEnd | instance.go:796-811 | on success an item ends strictly later, inside the body |
| DoctypeSubset.ValidateSubset | instance.go:783-818 | the loop terminates and accepts exactly an opening bracket and the rest of a subset |
| DoctypeSubset.SubsetsAreExactlyItemLists | instance.go:783-818 | the rest of a subset is accepted if and only if items stand one after the other, with space between, up to a closing bracket that only space follows |
| DoctypeSubset.CommentsAreExactlyTheGrammar | instance.go:935-945 | comments are accepted exactly as section 2.5 of XML 1.0 spells them |
| DoctypeSubset.InstructionsAreExactlyTheGrammar | instance.go:947-976 | instructions are accepted exactly as section 2.6 of XML 1.0 spells them, with unprefixed targets |
| DoctypeSubset.ParameterReferencesAreExactlyTheGrammar | instance.go:978-989 | parameter references are accepted exactly as section 4.1 of XML 1.0 spells them, with unprefixed names |
| DoctypeMarkup.MarkupIsExactlyTheGrammar | instance.go:991-1016 | declarations are accepted exactly as keyword, space and declaration of the grammar |
| DoctypeMarkup.ItemsAreExactlyTheGrammar | instance.go:796-811 | items are accepted exactly as comments, instructions, parameter references and declarations of the grammar |
| DoctypeMarkup.SubsetsAreExactlyTheGrammar | instance.go:783-818 | a subset is accepted if and only if items of the grammar stand in it, with space between, up to a closing bracket that only space follows |

## Left out

* Diagnostic texts, codes, specification references and related locations; failures are tags, with first conflicting pairs, paths and primary problems kept where they are the property.
* Source locations of facets, and the shared or nil big-integer representations behind value copies.
* Regular expression matching: the engine is a parameter with three outcomes, match, no match and resource failure.
* XML tokenizing, readers, contexts and file resolution: the decoder reads an abstract token list whose tokens carry the verdicts of lexical checks on their raw text, and discovery reads resolver and decoder parameters.
* Byte offsets of multi-byte characters: strings are sequences of characters, so a byte-order mark is one character and invalid UTF-8 does not arise.
* The largest int is that of a 64-bit platform; other counts of the program that are ints are unbounded here, uint64 lengths are not.
* Integer bound facets, which repeat the decimal ones with an integer order (`datatype_bounds.go:1107-1131`).
* Alias constructors, getters, per-type clones, `datatype_enumeration.go` and `string_whitespace.go`: easy, or the same argument again.
* Parsing of facet declarations and selection of versions from argument lists.
* Name normalization of code generation: a request carries the identifier its name normalizes to, or the error; scope checks are one flag of a request. Letter case is a parameter whose orbits are finite.
* Replay validation of a built naming table (`codegen_scalar.go`), and text rendering of generated code.
* The order in which the naming table meets several faults; that a table is refused if and only if a request is faulty is proved, below 2^64 - 1 requests.
* Group graphs are taken acyclic and parallel to their records; the program checks both before the overlap check.
* Substitution facts: consistency checks beyond identity, kind and list lengths.
* Discovery takes the decoder to close its own source and each resolver call to return its own reader; reference extraction from a document is a parameter.
* Document types: the root name and the external identifier before the subset. The decoder takes the verdict on a document type as part of its token.
* Cancellation, encodings and draining of instance sources.
* DoctypeDeclarations.ConsumeAttributeValue: when the body ends directly after a reference inside an unterminated value, the program reads one byte past the body; the model refuses such a value there.
* SequenceMatcher.MatchSequence: children are expanded names only; validation of each matched child is not modelled.
