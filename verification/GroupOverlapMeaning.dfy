/** What the verdicts of the overlap check say about the names that leaves take (schema_group_local.go). */
module GroupOverlapMeaning {
  import opened Wrappers
  import opened SchemaGroups
  import opened GroupOverlap

  // ----- two leaves

  /** A local declaration takes its own name; a reference takes every name that may substitute for its element. */
  ghost predicate TakesName(records: seq<Record>, leaf: Leaf, name: QName) {
    if leaf.Local? then name == leaf.name else MayMatch(records, leaf.name, name)
  }

  /** One of the leaves is local, and some element could be taken for both. */
  ghost predicate Ambiguous(records: seq<Record>, a: Leaf, b: Leaf) {
    (a.Local? || b.Local?) && exists name :: TakesName(records, a, name) && TakesName(records, b, name)
  }

  /** Leaves clash exactly when one is local and some name is taken by both. */
  lemma ClashIsAmbiguity(records: seq<Record>, a: Leaf, b: Leaf)
    ensures Clash(records, a, b) <==> Ambiguous(records, a, b)
  {
    hide MayMatch;
    ReachesItself(records, a.name);
    assert TakesName(records, a, a.name) && TakesName(records, b, b.name) by {
      ReachesItself(records, b.name);
    }
    if Clash(records, a, b) {
      var name := if a.Local? then a.name else b.name;
      assert TakesName(records, a, name) && TakesName(records, b, name);
    }
  }

  /** One name is declared with two types, both known. */
  predicate TypesDiffer(a: Leaf, b: Leaf) {
    a.name == b.name && a.declaredType != b.declaredType && NO_NAME !in {a.declaredType, b.declaredType}
  }

  // ----- the verdict on one expansion

  /** The first clash: no two leaves before the later one clash, and none before the first clashes with it. */
  ghost predicate FirstPair(records: seq<Record>, leaves: seq<Leaf>, i: nat, j: nat) {
    && i < j < |leaves| && Ambiguous(records, leaves[i], leaves[j])
    && (forall a, b :: 0 <= a < b < j ==> !Ambiguous(records, leaves[a], leaves[b]))
    && forall a :: 0 <= a < i ==> !Ambiguous(records, leaves[a], leaves[j])
  }

  ghost predicate Reports(records: seq<Record>, leaves: seq<Leaf>, verdict: Verdict, i: nat, j: nat) {
    && FirstPair(records, leaves, i, j)
    && verdict == if TypesDiffer(leaves[i], leaves[j]) then Inconsistent(leaves[i], leaves[j])
                  else Overlap(leaves[i], leaves[j])
  }

  ghost predicate Unambiguous(records: seq<Record>, leaves: seq<Leaf>) {
    forall i, j :: 0 <= i < j < |leaves| ==> !Ambiguous(records, leaves[i], leaves[j])
  }

  /** How many events come before the first broken one. */
  function Sound(events: seq<Event>): (n: nat)
    ensures n <= |events| && (n < |events| ==> events[n].Broken?) && forall k :: 0 <= k < n ==> events[k].Visit?
  {
    if events == [] || events[0].Broken? then 0 else 1 + Sound(events[1..])
  }

  /** What a verdict says of a list of events: nothing, the first ambiguous pair, or the first broken event. */
  ghost predicate Means(records: seq<Record>, events: seq<Event>, verdict: Verdict) {
    var n := Sound(events);
    var leaves := Leaves(events[..n]);
    match verdict
    case Clean => n == |events| && Unambiguous(records, leaves)
    case Fault(loc) => n < |events| && events[n] == Broken(loc) && Unambiguous(records, leaves)
    case _ => exists i: nat, j: nat :: Reports(records, leaves, verdict, i, j)
  }

  lemma AmbiguousEitherWay(records: seq<Record>, a: Leaf, b: Leaf)
    ensures Ambiguous(records, a, b) <==> Ambiguous(records, b, a)
  {
    hide MayMatch;
  }

  lemma NoClashesMeans(records: seq<Record>, leaves: seq<Leaf>)
    ensures NoClashes(records, leaves) <==> Unambiguous(records, leaves)
  {
    hide Clash, Ambiguous;
    forall i, j | 0 <= i < j < |leaves|
      ensures Clash(records, leaves[i], leaves[j]) <==> Ambiguous(records, leaves[i], leaves[j])
    {
      ClashIsAmbiguity(records, leaves[i], leaves[j]);
    }
  }

  lemma {:induction false} FirstClashIsFirst(records: seq<Record>, seen: seq<Leaf>, later: Leaf) returns (i: nat)
    requires FirstClash(records, seen, later).Some?
    ensures i < |seen| && seen[i] == FirstClash(records, seen, later).value
    ensures Ambiguous(records, seen[i], later) && forall a :: 0 <= a < i ==> !Ambiguous(records, seen[a], later)
  {
    hide Clash, Ambiguous;
    var front, n := seen[..|seen| - 1], |seen| - 1;
    if FirstClash(records, front, later).Some? {
      i := FirstClashIsFirst(records, front, later);
    } else {
      i := n;
      FirstClashFinds(records, front, later);
      ClashIsAmbiguity(records, seen[n], later);
      forall a | 0 <= a < n
        ensures !Ambiguous(records, seen[a], later)
      {
        assert front[a] == seen[a];
        ClashIsAmbiguity(records, seen[a], later);
      }
    }
  }

  lemma PairFound(records: seq<Record>, leaves: seq<Leaf>, n: nat) returns (i: nat)
    requires n < |leaves| && NoClashes(records, leaves[..n]) && FirstClash(records, leaves[..n], leaves[n]).Some?
    ensures i < n && Reports(records, leaves, ClashVerdict(leaves[i], leaves[n]), i, n)
    ensures leaves[i] == FirstClash(records, leaves[..n], leaves[n]).value
  {
    hide Clash, Ambiguous, FirstClash;
    i := FirstClashIsFirst(records, leaves[..n], leaves[n]);
    NoClashesMeans(records, leaves[..n]);
    forall a, b | 0 <= a < b < n
      ensures !Ambiguous(records, leaves[a], leaves[b])
    {
      assert leaves[..n][a] == leaves[a] && leaves[..n][b] == leaves[b];
    }
    forall a | 0 <= a < i
      ensures !Ambiguous(records, leaves[a], leaves[n])
    {
      assert leaves[..n][a] == leaves[a];
    }
  }

  /** The same for a list that goes on after leaves already seen. */
  ghost predicate MeansAfter(records: seq<Record>, seen: seq<Leaf>, events: seq<Event>, verdict: Verdict) {
    var n := Sound(events);
    var leaves := seen + Leaves(events[..n]);
    match verdict
    case Clean => n == |events| && Unambiguous(records, leaves)
    case Fault(loc) => n < |events| && events[n] == Broken(loc) && Unambiguous(records, leaves)
    case _ => exists i: nat, j: nat :: Reports(records, leaves, verdict, i, j)
  }

  lemma SoundStep(seen: seq<Leaf>, events: seq<Event>)
    requires events != [] && events[0].Visit?
    ensures Sound(events) == Sound(events[1..]) + 1
    ensures seen + Leaves(events[..Sound(events)]) ==
      seen + [events[0].leaf] + Leaves(events[1..][..Sound(events[1..])])
  {
    SoundCount(events);
    hide Sound, Leaves;
    PrefixParts(seen, events, Sound(events));
  }

  lemma PrefixParts(seen: seq<Leaf>, events: seq<Event>, n: nat)
    requires 0 < n <= |events| && events[0].Visit?
    ensures seen + Leaves(events[..n]) == seen + [events[0].leaf] + Leaves(events[1..][..n - 1])
  {
    var prefix := events[..n];
    NaiveHead([], [], prefix);
    hide Leaves;
    assert prefix[0] == events[0] && prefix[1..] == events[1..][..n - 1];
  }

  lemma SoundCount(events: seq<Event>)
    requires events != [] && events[0].Visit?
    ensures Sound(events) == Sound(events[1..]) + 1
  {
  }

  lemma {:induction false} NaiveMeansAfter(records: seq<Record>, seen: seq<Leaf>, events: seq<Event>)
    requires NoClashes(records, seen)
    ensures MeansAfter(records, seen, events, Naive(records, seen, events))
    decreases |events|
  {
    hide Clash, FirstClash, Ambiguous, Reports, NoClashes, Unambiguous;
    if events == [] || events[0].Broken? {
      assert seen + Leaves(events[..0]) == seen;
      NoClashesMeans(records, seen);
    } else {
      var leaf := events[0].leaf;
      SoundStep(seen, events);
      if FirstClash(records, seen, leaf).Some? {
        var leaves := seen + Leaves(events[..Sound(events)]);
        assert leaves[..|seen|] == seen && leaves[|seen|] == leaf;
        var i := PairFound(records, leaves, |seen|);
      } else {
        ExtendNoClashes(records, seen, leaf);
        NaiveMeansAfter(records, seen + [leaf], events[1..]);
      }
    }
  }

  /** The naive check reports the first ambiguous pair or the first broken event, whichever comes first. */
  lemma NaiveMeans(records: seq<Record>, events: seq<Event>)
    ensures Means(records, events, Naive(records, [], events))
  {
    NaiveMeansAfter(records, [], events);
    hide Naive, Reports, Unambiguous, Sound, Leaves;
    assert [] + Leaves(events[..Sound(events)]) == Leaves(events[..Sound(events)]);
  }

  // ----- occurrences of leaves, by the way to them

  /** The first record with an identity. */
  ghost predicate FirstRecord(schema: Schema, id: ComponentID, k: nat) {
    k < |schema.records| && schema.records[k].id == id && forall m :: 0 <= m < k ==> schema.records[m].id != id
  }

  /** The particle that a group reference stands for, if any. */
  ghost function Body(schema: Schema, id: ComponentID): Option<Particle>
    requires Parallel(schema)
  {
    if k: nat :| FirstRecord(schema, id, k) then schema.groups[k] else None
  }

  /** The element that an element reference stands for, if any. */
  ghost function Target(schema: Schema, id: ComponentID): Option<ElementInput> {
    if k: nat :| FirstRecord(schema, id, k) then schema.records[k].element else None
  }

  /** A way from a particle down: which term to take, and zero at a group reference. */
  type Way = seq<nat>

  /** The particle at the end of a way, and the location of the last group reference on it. */
  ghost function At(schema: Schema, p: Particle, via: Loc, way: Way): Option<(Particle, Loc)>
    requires Parallel(schema)
    decreases |way|
  {
    if way == [] then Some((p, via))
    else
      match p
      case Choice(terms) => if way[0] < |terms| then At(schema, terms[way[0]], via, way[1..]) else None
      case Sequence(terms) => if way[0] < |terms| then At(schema, terms[way[0]], via, way[1..]) else None
      case GroupReference(target, refLoc) =>
        if way[0] == 0 && Body(schema, target).Some?
        then At(schema, Body(schema, target).value, refLoc, way[1..]) else None
      case _ => None
  }

  /** What a particle contributes itself: a leaf, located at the group reference that leads to it, or a fault. */
  ghost function Contributes(schema: Schema, p: Particle, via: Loc): Option<Event>
    requires Parallel(schema)
  {
    match p
    case Element(name, declaredType, loc) => Some(Visit(Local(name, declaredType, if via == NO_LOC then loc else via)))
    case ElementReference(ref, target, refLoc) =>
      var element := Target(schema, target);
      Some(if element.None? then Broken(refLoc)
           else Visit(Reference(ref, element.value.declaredType, if via == NO_LOC then refLoc else via)))
    case GroupReference(target, refLoc) => if Body(schema, target).None? then Some(Broken(refLoc)) else None
    case OtherParticle(loc) => Some(Broken(loc))
    case _ => None
  }

  ghost function EventAt(schema: Schema, p: Particle, via: Loc, way: Way): Option<Event>
    requires Parallel(schema)
  {
    var end := At(schema, p, via, way);
    if end.None? then None else Contributes(schema, end.value.0, end.value.1)
  }

  /** Lexical order of ways. */
  predicate Earlier(a: Way, b: Way) {
    a != [] && b != [] && (a[0] < b[0] || (a[0] == b[0] && Earlier(a[1..], b[1..])))
  }

  /** The ways lead to the events, in lexical order, and no other way leads to one. */
  ghost predicate Lists(schema: Schema, p: Particle, via: Loc, events: seq<Event>, ways: seq<Way>)
    requires Parallel(schema)
  {
    && |ways| == |events|
    && (forall i :: 0 <= i < |ways| ==> EventAt(schema, p, via, ways[i]) == Some(events[i]))
    && (forall i, j :: 0 <= i < j < |ways| ==> Earlier(ways[i], ways[j]))
    && forall way :: EventAt(schema, p, via, way).Some? ==> way in ways
  }

  /** The same below terms numbered from `from` on. */
  ghost predicate ListsTerms(schema: Schema, terms: seq<Particle>, via: Loc, from: nat, events: seq<Event>,
                             ways: seq<Way>)
    requires Parallel(schema) && from <= |terms|
  {
    && |ways| == |events|
    && (forall i :: 0 <= i < |ways| ==>
      ways[i] != [] && from <= ways[i][0] < |terms| &&
      EventAt(schema, terms[ways[i][0]], via, ways[i][1..]) == Some(events[i]))
    && (forall i, j :: 0 <= i < j < |ways| ==> Earlier(ways[i], ways[j]))
    && forall way: Way ::
      way != [] && from <= way[0] < |terms| && EventAt(schema, terms[way[0]], via, way[1..]).Some? ==> way in ways
  }

  lemma OneRecord(schema: Schema, id: ComponentID, k: nat, m: nat)
    requires FirstRecord(schema, id, k) && FirstRecord(schema, id, m)
    ensures k == m
  {
  }

  lemma BodyIs(schema: Schema, id: ComponentID)
    requires Parallel(schema)
    ensures GroupBody(schema, id) == Body(schema, id)
    ensures Target(schema, id) ==
      var k := RecordByID(schema.records, id); if k < |schema.records| then schema.records[k].element else None
  {
    var k := RecordByID(schema.records, id);
    if k < |schema.records| {
      assert FirstRecord(schema, id, k);
    }
    forall m: nat | FirstRecord(schema, id, m)
      ensures m == k
    {
    }
  }

  /** A particle that contributes itself is reached by the empty way only. */
  lemma OnlyItself(schema: Schema, p: Particle, via: Loc, event: Event)
    requires Parallel(schema) && Contributes(schema, p, via) == Some(event)
    ensures Lists(schema, p, via, [event], [[]])
  {
    hide Earlier;
    forall way: Way | way != []
      ensures EventAt(schema, p, via, way).None?
    {
    }
  }

  lemma ThroughReference(schema: Schema, p: Particle, via: Loc, events: seq<Event>, below: seq<Way>)
    returns (ways: seq<Way>)
    requires Parallel(schema) && p.GroupReference? && Body(schema, p.target).Some?
    requires Lists(schema, Body(schema, p.target).value, p.refLoc, events, below)
    ensures Lists(schema, p, via, events, ways)
  {
    ways := Under(0, below);
    hide Contributes, Body;
    forall way | EventAt(schema, p, via, way).Some?
      ensures way in ways
    {
      assert EventAt(schema, Body(schema, p.target).value, p.refLoc, way[1..]).Some?;
      var i :| 0 <= i < |below| && below[i] == way[1..];
      assert ways[i] == [0] + way[1..] == way;
    }
    UnderInOrder(0, below);
  }

  /** The ways that start at a term and go on as given. */
  function Under(term: nat, below: seq<Way>): (ways: seq<Way>)
    ensures |ways| == |below| && forall i :: 0 <= i < |ways| ==> ways[i] == [term] + below[i]
  {
    seq(|below|, i requires 0 <= i < |below| => [term] + below[i])
  }

  lemma UnderInOrder(term: nat, below: seq<Way>)
    requires forall i, j :: 0 <= i < j < |below| ==> Earlier(below[i], below[j])
    ensures forall i, j :: 0 <= i < j < |below| ==> Earlier(Under(term, below)[i], Under(term, below)[j])
  {
    forall i, j | 0 <= i < j < |below|
      ensures Earlier(Under(term, below)[i], Under(term, below)[j])
    {
      EarlierUnder(term, below[i], below[j]);
    }
  }

  lemma EarlierUnder(term: nat, a: Way, b: Way)
    requires Earlier(a, b)
    ensures Earlier([term] + a, [term] + b)
  {
    assert ([term] + a)[1..] == a && ([term] + b)[1..] == b;
  }

  lemma ThroughTerms(schema: Schema, p: Particle, via: Loc, events: seq<Event>, ways: seq<Way>)
    requires Parallel(schema) && (p.Choice? || p.Sequence?) && ListsTerms(schema, p.terms, via, 0, events, ways)
    ensures Lists(schema, p, via, events, ways)
  {
    hide Earlier, Body, Target;
    forall way | EventAt(schema, p, via, way).Some?
      ensures way in ways
    {
      assert EventAt(schema, p.terms[way[0]], via, way[1..]).Some?;
    }
  }

  lemma NoTerms(schema: Schema, terms: seq<Particle>, via: Loc)
    requires Parallel(schema)
    ensures ListsTerms(schema, terms, via, |terms|, [], [])
  {
  }

  lemma OneMoreTerm(schema: Schema, terms: seq<Particle>, via: Loc, from: nat, events: seq<Event>, below: seq<Way>,
                    more: seq<Event>, after: seq<Way>)
    returns (ways: seq<Way>)
    requires Parallel(schema) && from < |terms| && Lists(schema, terms[from], via, events, below)
    requires ListsTerms(schema, terms, via, from + 1, more, after)
    ensures ListsTerms(schema, terms, via, from, events + more, ways)
  {
    hide EventAt;
    var here := Under(from, below);
    ways := here + after;
    UnderInOrder(from, below);
    forall i | 0 <= i < |ways|
      ensures ways[i] != [] && from <= ways[i][0] < |terms|
      ensures EventAt(schema, terms[ways[i][0]], via, ways[i][1..]) == Some((events + more)[i])
    {
      if i < |here| {
        assert ways[i][1..] == below[i];
      } else {
        assert ways[i] == after[i - |here|];
      }
    }
    forall i, j | 0 <= i < j < |ways|
      ensures Earlier(ways[i], ways[j])
    {
      if j < |here| {
        assert Earlier(here[i], here[j]);
      } else if i >= |here| {
        assert Earlier(after[i - |here|], after[j - |here|]);
      }
    }
    forall way: Way | way != [] && from <= way[0] < |terms| && EventAt(schema, terms[way[0]], via, way[1..]).Some?
      ensures way in ways
    {
      if way[0] == from {
        var i :| 0 <= i < |below| && below[i] == way[1..];
        assert here[i] == way;
        assert ways[i] == way;
      } else {
        assert way in after;
      }
    }
  }

  /** The expansion holds exactly the occurrences of leaves and faults, in lexical order. */
  lemma {:induction false} ExpandListsOccurrences(schema: Schema, rank: ComponentID -> nat, height: nat, p: Particle,
                                                  via: Loc)
    returns (ways: seq<Way>)
    requires Parallel(schema) && Acyclic(schema, rank) && Below(schema, rank, p, height)
    ensures Lists(schema, p, via, Expand(schema, rank, height, p, via), ways)
    decreases height, p, if p.Choice? || p.Sequence? then |p.terms| + 1 else 0
  {
    hide Lists, ListsTerms, At, Acyclic;
    match p
    case Choice(terms) =>
      ways := TermsListOccurrences(schema, rank, height, p, terms, via, 0);
      assert terms[0..] == terms;
      ThroughTerms(schema, p, via, Expand(schema, rank, height, p, via), ways);
    case Sequence(terms) =>
      ways := TermsListOccurrences(schema, rank, height, p, terms, via, 0);
      assert terms[0..] == terms;
      ThroughTerms(schema, p, via, Expand(schema, rank, height, p, via), ways);
    case GroupReference(target, refLoc) =>
      BodyIs(schema, target);
      if Body(schema, target).Some? {
        BodyBelow(schema, rank, target);
        var below := ExpandListsOccurrences(schema, rank, rank(target), Body(schema, target).value, refLoc);
        ways := ThroughReference(schema, p, via, Expand(schema, rank, height, p, via), below);
      } else {
        OnlyItself(schema, p, via, Broken(refLoc));
        ways := [[]];
      }
    case ElementReference(_, target, _) =>
      BodyIs(schema, target);
      OnlyItself(schema, p, via, Contributes(schema, p, via).value);
      ways := [[]];
    case _ =>
      OnlyItself(schema, p, via, Contributes(schema, p, via).value);
      ways := [[]];
  }

  lemma {:induction false} TermsListOccurrences(schema: Schema, rank: ComponentID -> nat, height: nat, p: Particle,
                                                terms: seq<Particle>, via: Loc, from: nat)
    returns (ways: seq<Way>)
    requires Parallel(schema) && Acyclic(schema, rank) && TermsBelow(schema, rank, terms, height) && from <= |terms|
    requires (p.Choice? || p.Sequence?) && p.terms == terms
    ensures ListsTerms(schema, terms, via, from, ExpandTerms(schema, rank, height, terms[from..], via), ways)
    decreases height, p, |terms| - from
  {
    hide Lists, ListsTerms, At, Acyclic, Expand;
    if from == |terms| {
      NoTerms(schema, terms, via);
      ways := [];
    } else {
      var rest := terms[from..];
      assert rest[0] == terms[from] && rest[1..] == terms[from + 1..];
      var below := ExpandListsOccurrences(schema, rank, height, terms[from], via);
      var after := TermsListOccurrences(schema, rank, height, p, terms, via, from + 1);
      ways := OneMoreTerm(schema, terms, via, from, Expand(schema, rank, height, terms[from], via), below,
        ExpandTerms(schema, rank, height, rest[1..], via), after);
    }
  }

  // ----- the verdict on one group

  /** Some occurrence of a leaf is local. */
  ghost predicate HoldsLocal(schema: Schema, p: Particle)
    requires Parallel(schema)
  {
    exists way :: LeafAt(schema, p, way).Some? && LeafAt(schema, p, way).value.Local?
  }

  ghost function LeafAt(schema: Schema, p: Particle, way: Way): Option<Leaf>
    requires Parallel(schema)
  {
    var event := EventAt(schema, p, NO_LOC, way);
    if event.Some? && event.value.Visit? then Some(event.value.leaf) else None
  }

  /** No way leads to a fault, and no two ways lead to leaves that could take the same element. */
  ghost predicate Sorted(schema: Schema, p: Particle)
    requires Parallel(schema)
  {
    && (forall way :: EventAt(schema, p, NO_LOC, way).Some? ==> LeafAt(schema, p, way).Some?)
    && forall a, b :: a != b && LeafAt(schema, p, a).Some? && LeafAt(schema, p, b).Some? ==>
      !Ambiguous(schema.records, LeafAt(schema, p, a).value, LeafAt(schema, p, b).value)
  }

  lemma {:induction false} EarlierDiffers(a: Way, b: Way)
    requires Earlier(a, b)
    ensures a != b
  {
    if a == b && a[0] == b[0] {
      EarlierDiffers(a[1..], b[1..]);
    }
  }

  lemma {:induction false} LeavesOfVisits(events: seq<Event>)
    requires forall i :: 0 <= i < |events| ==> events[i].Visit?
    ensures |Leaves(events)| == |events| && forall i :: 0 <= i < |events| ==> Leaves(events)[i] == events[i].leaf
    decreases |events|
  {
    if events != [] {
      LeavesOfVisits(events[1..]);
      assert forall i :: 0 < i < |events| ==> events[i] == events[1..][i - 1];
    }
  }

  lemma HoldsLocalIs(schema: Schema, p: Particle, events: seq<Event>, ways: seq<Way>)
    requires Parallel(schema) && Lists(schema, p, NO_LOC, events, ways)
    ensures AnyLocal(events) <==> HoldsLocal(schema, p)
  {
    hide EventAt, Earlier;
    if i :| 0 <= i < |events| && events[i].Visit? && events[i].leaf.Local? {
      assert LeafAt(schema, p, ways[i]) == Some(events[i].leaf);
    }
    if way :| LeafAt(schema, p, way).Some? && LeafAt(schema, p, way).value.Local? {
      var i :| 0 <= i < |ways| && ways[i] == way;
      assert events[i].leaf.Local?;
    }
  }

  lemma WaysToLeaves(schema: Schema, p: Particle, events: seq<Event>, ways: seq<Way>)
    requires Parallel(schema) && Lists(schema, p, NO_LOC, events, ways)
    requires forall i :: 0 <= i < |events| ==> events[i].Visit?
    ensures |ways| == |Leaves(events)|
    ensures forall i :: 0 <= i < |ways| ==> LeafAt(schema, p, ways[i]) == Some(Leaves(events)[i])
    ensures forall way :: EventAt(schema, p, NO_LOC, way).Some? ==> LeafAt(schema, p, way).Some?
    ensures forall way :: LeafAt(schema, p, way).Some? ==> way in ways
  {
    hide EventAt, Earlier, Leaves;
    LeavesOfVisits(events);
    forall way | EventAt(schema, p, NO_LOC, way).Some?
      ensures LeafAt(schema, p, way).Some? && way in ways
    {
      var i :| 0 <= i < |ways| && ways[i] == way;
    }
  }

  lemma UnambiguousIsSorted(schema: Schema, p: Particle, events: seq<Event>, ways: seq<Way>)
    requires Parallel(schema) && Lists(schema, p, NO_LOC, events, ways)
    requires forall i :: 0 <= i < |events| ==> events[i].Visit?
    requires Unambiguous(schema.records, Leaves(events))
    ensures Sorted(schema, p)
  {
    WaysToLeaves(schema, p, events, ways);
    hide EventAt, Ambiguous, Earlier, Leaves, Lists, LeafAt;
    var leaves := Leaves(events);
    forall a, b | a != b && LeafAt(schema, p, a).Some? && LeafAt(schema, p, b).Some?
      ensures !Ambiguous(schema.records, LeafAt(schema, p, a).value, LeafAt(schema, p, b).value)
    {
      var i :| 0 <= i < |ways| && ways[i] == a;
      var j :| 0 <= j < |ways| && ways[j] == b;
      AmbiguousEitherWay(schema.records, leaves[i], leaves[j]);
    }
  }

  lemma SortedIsUnambiguous(schema: Schema, p: Particle, events: seq<Event>, ways: seq<Way>)
    requires Parallel(schema) && Lists(schema, p, NO_LOC, events, ways)
    requires forall i :: 0 <= i < |events| ==> events[i].Visit?
    requires Sorted(schema, p)
    ensures Unambiguous(schema.records, Leaves(events))
  {
    WaysToLeaves(schema, p, events, ways);
    hide EventAt, Ambiguous, Earlier, Leaves, LeafAt;
    var leaves := Leaves(events);
    forall i, j | 0 <= i < j < |leaves|
      ensures !Ambiguous(schema.records, leaves[i], leaves[j])
    {
      EarlierDiffers(ways[i], ways[j]);
    }
  }

  lemma FaultFound(schema: Schema, p: Particle, events: seq<Event>, ways: seq<Way>, i: nat)
    requires Parallel(schema) && Lists(schema, p, NO_LOC, events, ways) && i < |events| && events[i].Broken?
    ensures !Sorted(schema, p)
  {
    hide Ambiguous, Earlier, EventAt;
    assert EventAt(schema, p, NO_LOC, ways[i]) == Some(events[i]);
  }

  /** A model group with a local occurrence in which not all occurrences can be told apart. */
  ghost predicate Confused(schema: Schema, index: nat)
    requires Parallel(schema) && index < |schema.groups|
  {
    && schema.records[index].isModelGroup && schema.groups[index].Some?
    && HoldsLocal(schema, schema.groups[index].value) && !Sorted(schema, schema.groups[index].value)
  }

  /** A group is clean exactly when no occurrence in it is local, or all occurrences can be told apart. */
  lemma GroupIsCleanExactly(schema: Schema, rank: ComponentID -> nat, index: nat)
    requires Parallel(schema) && Acyclic(schema, rank) && index < |schema.groups|
    ensures NaiveGroup(schema, rank, index).Clean? <==> !Confused(schema, index)
  {
    hide HoldsLocal, Sorted, Naive, AnyLocal, Unambiguous, Acyclic, Lists, Expand;
    if schema.records[index].isModelGroup && schema.groups[index].Some? {
      var p := schema.groups[index].value;
      GroupBelow(schema, rank, index);
      var ways := ExpandListsOccurrences(schema, rank, rank(schema.records[index].id), p, NO_LOC);
      var events := Expand(schema, rank, rank(schema.records[index].id), p, NO_LOC);
      HoldsLocalIs(schema, p, events, ways);
      NaiveFindsEveryClash(schema.records, [], events);
      assert [] + Leaves(events) == Leaves(events);
      NoClashesMeans(schema.records, Leaves(events));
      if i :| 0 <= i < |events| && events[i].Broken? {
        FaultFound(schema, p, events, ways, i);
      } else {
        if Unambiguous(schema.records, Leaves(events)) { UnambiguousIsSorted(schema, p, events, ways); }
        if Sorted(schema, p) { SortedIsUnambiguous(schema, p, events, ways); }
      }
    }
  }

  lemma GroupBelow(schema: Schema, rank: ComponentID -> nat, index: nat)
    requires Parallel(schema) && Acyclic(schema, rank) && index < |schema.groups| && schema.groups[index].Some?
    ensures Below(schema, rank, schema.groups[index].value, rank(schema.records[index].id))
  {
  }

  // ----- the verdict on all groups

  ghost predicate FirstConfused(schema: Schema, k: nat)
    requires Parallel(schema)
  {
    k < |schema.groups| && Confused(schema, k) && forall m :: 0 <= m < k ==> !Confused(schema, m)
  }

  lemma {:induction false} CleanFromExactly(schema: Schema, rank: ComponentID -> nat, index: nat)
    requires Parallel(schema) && Acyclic(schema, rank) && index <= |schema.groups|
    ensures NaiveFrom(schema, rank, index).Clean? <==>
      forall k :: index <= k < |schema.groups| ==> !Confused(schema, k)
    ensures forall k :: index <= k < |schema.groups| && Confused(schema, k) &&
                        (forall m :: index <= m < k ==> !Confused(schema, m)) ==>
      NaiveFrom(schema, rank, index) == NaiveGroup(schema, rank, k)
    decreases |schema.groups| - index
  {
    hide NaiveGroup, Confused, Acyclic;
    if index < |schema.groups| {
      assert (forall k :: index <= k < |schema.groups| ==> !Confused(schema, k)) <==>
        !Confused(schema, index) && forall k :: index + 1 <= k < |schema.groups| ==> !Confused(schema, k);
      GroupIsCleanExactly(schema, rank, index);
      CleanFromExactly(schema, rank, index + 1);
    }
  }

  /**
   * All groups are clean exactly when none has a local occurrence and a fault
   * or two ways to take one element; otherwise the verdict is that of the
   * first such group: its first ambiguous pair or its first fault.
   */
  lemma VerdictMeans(schema: Schema, rank: ComponentID -> nat)
    requires Parallel(schema) && Acyclic(schema, rank)
    ensures var verdict := NaiveFrom(schema, rank, 0);
      && (verdict.Clean? <==> forall k :: 0 <= k < |schema.groups| ==> !Confused(schema, k))
      && forall k: nat :: FirstConfused(schema, k) ==> exists events, ways ::
             Lists(schema, schema.groups[k].value, NO_LOC, events, ways) && Means(schema.records, events, verdict)
  {
    hide HoldsLocal, Sorted, Acyclic, Lists, Means, Expand, Naive, NaiveFrom;
    CleanFromExactly(schema, rank, 0);
    forall k: nat | FirstConfused(schema, k)
      ensures exists events, ways ::
        && Lists(schema, schema.groups[k].value, NO_LOC, events, ways)
        && Means(schema.records, events, NaiveFrom(schema, rank, 0))
    {
      GroupIsCleanExactly(schema, rank, k);
      GroupBelow(schema, rank, k);
      var p, height := schema.groups[k].value, rank(schema.records[k].id);
      var ways := ExpandListsOccurrences(schema, rank, height, p, NO_LOC);
      NaiveMeans(schema.records, Expand(schema, rank, height, p, NO_LOC));
    }
  }
}
