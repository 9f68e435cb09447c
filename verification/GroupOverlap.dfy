/** The de-duplicated overlap check over model groups and its naive meaning (schema_group_local.go). */
module GroupOverlap {
  import opened Wrappers
  import opened SchemaGroups

  /** A leaf of a group's expansion: a local declaration or an element reference. */
  datatype Leaf =
    | Local(name: QName, declaredType: QName, loc: Loc)
    | Reference(name: QName, declaredType: QName, loc: Loc)

  datatype Event = Visit(leaf: Leaf) | Broken(loc: Loc)

  datatype Verdict =
    | Clean
    | Overlap(first: Leaf, later: Leaf)
    | Inconsistent(first: Leaf, later: Leaf)
    | Fault(loc: Loc)

  /** Records with the resolved particle of each group, index by index. */
  datatype Schema = Schema(records: seq<Record>, groups: seq<Option<Particle>>)

  predicate Parallel(schema: Schema) {
    |schema.records| == |schema.groups|
  }

  function GroupBody(schema: Schema, id: ComponentID): Option<Particle>
    requires Parallel(schema)
  {
    var index := RecordByID(schema.records, id);
    if index == |schema.records| then None else schema.groups[index]
  }

  function LeafLoc(declaration: Loc, via: Loc): Loc {
    if via != NO_LOC then via else declaration
  }

  // ----- acyclic group graphs

  /** Every resolvable group reference in the particle has rank below `height`. */
  ghost predicate Below(schema: Schema, rank: ComponentID -> nat, p: Particle, height: nat)
    requires Parallel(schema)
  {
    match p
    case GroupReference(target, _) => GroupBody(schema, target).Some? ==> rank(target) < height
    case Choice(terms) => forall i :: 0 <= i < |terms| ==> Below(schema, rank, terms[i], height)
    case Sequence(terms) => forall i :: 0 <= i < |terms| ==> Below(schema, rank, terms[i], height)
    case _ => true
  }

  ghost predicate TermsBelow(schema: Schema, rank: ComponentID -> nat, terms: seq<Particle>, height: nat)
    requires Parallel(schema)
  {
    forall i :: 0 <= i < |terms| ==> Below(schema, rank, terms[i], height)
  }

  /** The rank witnesses that group references form no cycle. */
  ghost predicate Acyclic(schema: Schema, rank: ComponentID -> nat)
    requires Parallel(schema)
  {
    forall i :: 0 <= i < |schema.groups| && schema.groups[i].Some? ==>
      Below(schema, rank, schema.groups[i].value, rank(schema.records[i].id))
  }

  lemma BodyBelow(schema: Schema, rank: ComponentID -> nat, id: ComponentID)
    requires Parallel(schema) && Acyclic(schema, rank) && GroupBody(schema, id).Some?
    ensures Below(schema, rank, GroupBody(schema, id).value, rank(id))
  {
  }

  // ----- the naive check

  function ElementReferenceEvent(schema: Schema, ref: QName, target: ComponentID, refLoc: Loc, via: Loc): Event {
    var index := RecordByID(schema.records, target);
    if index == |schema.records| || schema.records[index].element.None? then Broken(refLoc)
    else Visit(Reference(ref, schema.records[index].element.value.declaredType, LeafLoc(refLoc, via)))
  }

  /** The full leaf expansion in lexical order, repeating every referenced group. */
  ghost function Expand(schema: Schema, rank: ComponentID -> nat, height: nat, p: Particle, via: Loc): seq<Event>
    requires Parallel(schema) && Acyclic(schema, rank) && Below(schema, rank, p, height)
    decreases height, p
  {
    match p
    case Element(name, declaredType, loc) => [Visit(Local(name, declaredType, LeafLoc(loc, via)))]
    case ElementReference(ref, target, refLoc) => [ElementReferenceEvent(schema, ref, target, refLoc, via)]
    case GroupReference(target, refLoc) =>
      if GroupBody(schema, target).None? then [Broken(refLoc)]
      else
        BodyBelow(schema, rank, target);
        Expand(schema, rank, rank(target), GroupBody(schema, target).value, refLoc)
    case Choice(terms) => ExpandTerms(schema, rank, height, terms, via)
    case Sequence(terms) => ExpandTerms(schema, rank, height, terms, via)
    case OtherParticle(loc) => [Broken(loc)]
  }

  ghost function ExpandTerms(schema: Schema, rank: ComponentID -> nat, height: nat, terms: seq<Particle>,
    via: Loc): seq<Event>
    requires Parallel(schema) && Acyclic(schema, rank) && TermsBelow(schema, rank, terms, height)
    decreases height, terms
  {
    if terms == [] then []
    else Expand(schema, rank, height, terms[0], via) + ExpandTerms(schema, rank, height, terms[1..], via)
  }

  ghost predicate AnyLocal(events: seq<Event>) {
    exists i :: 0 <= i < |events| && events[i].Visit? && events[i].leaf.Local?
  }

  /** Two leaves of one content model that cannot be told apart, one of them local. */
  ghost predicate Clash(records: seq<Record>, first: Leaf, later: Leaf) {
    && (first.Local? || later.Local?)
    && (|| first.name == later.name
        || (first.Local? && later.Reference? && MayMatch(records, later.name, first.name))
        || (later.Local? && first.Reference? && MayMatch(records, first.name, later.name)))
  }

  function ClashVerdict(first: Leaf, later: Leaf): Verdict {
    if first.name == later.name && first.declaredType != NO_NAME && later.declaredType != NO_NAME &&
      first.declaredType != later.declaredType
    then Inconsistent(first, later)
    else Overlap(first, later)
  }

  /** The earliest leaf that clashes with a later one. */
  ghost function FirstClash(records: seq<Record>, seen: seq<Leaf>, later: Leaf): Option<Leaf> {
    if seen == [] then None
    else
      var earlier := FirstClash(records, seen[..|seen| - 1], later);
      if earlier.Some? then earlier
      else if Clash(records, seen[|seen| - 1], later) then Some(seen[|seen| - 1])
      else None
  }

  /** Compares every leaf with all leaves before it, stopping at the first clash or fault. */
  ghost function Naive(records: seq<Record>, seen: seq<Leaf>, events: seq<Event>): Verdict
    decreases |events|
  {
    if events == [] then Clean
    else
      match events[0]
      case Broken(loc) => Fault(loc)
      case Visit(leaf) =>
        var clash := FirstClash(records, seen, leaf);
        if clash.Some? then ClashVerdict(clash.value, leaf)
        else Naive(records, seen + [leaf], events[1..])
  }

  /** The naive check of one group. */
  ghost function NaiveGroup(schema: Schema, rank: ComponentID -> nat, index: nat): Verdict
    requires Parallel(schema) && Acyclic(schema, rank) && index < |schema.groups|
  {
    if !schema.records[index].isModelGroup || schema.groups[index].None? then Clean
    else
      var events := Expand(schema, rank, rank(schema.records[index].id), schema.groups[index].value, NO_LOC);
      if AnyLocal(events) then Naive(schema.records, [], events) else Clean
  }

  /** The first group from `index` on that is not clean. */
  ghost function NaiveFrom(schema: Schema, rank: ComponentID -> nat, index: nat): Verdict
    requires Parallel(schema) && Acyclic(schema, rank) && index <= |schema.groups|
    decreases |schema.groups| - index
  {
    if index == |schema.groups| then Clean
    else
      var verdict := NaiveGroup(schema, rank, index);
      if verdict.Clean? then NaiveFrom(schema, rank, index + 1) else verdict
  }

  function Leaves(events: seq<Event>): seq<Leaf> {
    if events == [] then []
    else (if events[0].Visit? then [events[0].leaf] else []) + Leaves(events[1..])
  }

  lemma {:induction false} NaiveHead(records: seq<Record>, seen: seq<Leaf>, events: seq<Event>)
    requires events != []
    ensures Leaves(events) == (if events[0].Visit? then [events[0].leaf] else []) + Leaves(events[1..])
    ensures Naive(records, seen, events) ==
      match events[0]
      case Broken(loc) => Fault(loc)
      case Visit(leaf) =>
        var clash := FirstClash(records, seen, leaf);
        if clash.Some? then ClashVerdict(clash.value, leaf) else Naive(records, seen + [leaf], events[1..])
  {
  }

  lemma {:induction false} NaiveConcat(records: seq<Record>, seen: seq<Leaf>, a: seq<Event>, b: seq<Event>)
    ensures Naive(records, seen, a + b) ==
      if Naive(records, seen, a).Clean? then Naive(records, seen + Leaves(a), b) else Naive(records, seen, a)
    ensures Leaves(a + b) == Leaves(a) + Leaves(b)
    decreases |a|
  {
    if a == [] {
      assert a + b == b;
      assert seen + Leaves(a) == seen;
    } else {
      assert (a + b)[1..] == a[1..] + b;
      assert (a + b)[0] == a[0];
      NaiveHead(records, seen, a);
      NaiveHead(records, seen, a + b);
      hide Naive, Leaves, FirstClash;
      if a[0].Visit? {
        var leaf := a[0].leaf;
        NaiveConcat(records, seen + [leaf], a[1..], b);
        assert seen + ([leaf] + Leaves(a[1..])) == seen + [leaf] + Leaves(a[1..]);
      } else {
        NaiveConcat(records, seen, a[1..], b);
      }
    }
  }

  lemma AnyLocalConcat(a: seq<Event>, b: seq<Event>)
    ensures AnyLocal(a + b) <==> AnyLocal(a) || AnyLocal(b)
  {
    if AnyLocal(a) {
      var i :| 0 <= i < |a| && a[i].Visit? && a[i].leaf.Local?;
      assert (a + b)[i] == a[i];
    }
    if AnyLocal(b) {
      var i :| 0 <= i < |b| && b[i].Visit? && b[i].leaf.Local?;
      assert (a + b)[|a| + i] == b[i];
    }
  }

  // ----- what de-duplication keeps

  ghost predicate HasReference(leaves: seq<Leaf>, name: QName) {
    exists i :: 0 <= i < |leaves| && leaves[i].Reference? && leaves[i].name == name
  }

  /** The leaves that the walk retains: all locals and the first reference to each name. */
  ghost function Distinct(leaves: seq<Leaf>): seq<Leaf> {
    if leaves == [] then []
    else
      var front, last := leaves[..|leaves| - 1], leaves[|leaves| - 1];
      if last.Reference? && HasReference(front, last.name) then Distinct(front) else Distinct(front) + [last]
  }

  ghost predicate NoClashes(records: seq<Record>, leaves: seq<Leaf>) {
    forall i, j :: 0 <= i < j < |leaves| ==> !Clash(records, leaves[i], leaves[j])
  }

  lemma {:induction false} FirstClashFinds(records: seq<Record>, seen: seq<Leaf>, later: Leaf)
    ensures FirstClash(records, seen, later).Some? <==> exists i :: 0 <= i < |seen| && Clash(records, seen[i], later)
  {
    hide Clash;
    if seen != [] {
      FirstClashFinds(records, seen[..|seen| - 1], later);
    }
  }

  /** References to one name clash alike. */
  lemma ReferencesClashAlike(records: seq<Record>, a: Leaf, b: Leaf, other: Leaf)
    requires a.Reference? && b.Reference? && a.name == b.name
    ensures Clash(records, a, other) <==> Clash(records, b, other)
    ensures Clash(records, other, a) <==> Clash(records, other, b)
    ensures Clash(records, a, other) <==> Clash(records, other, a)
  {
    hide MayMatch;
  }

  /** Looking only at the retained leaves finds the same first clash. */
  lemma {:induction false} DistinctKeepsFirstClash(records: seq<Record>, leaves: seq<Leaf>, later: Leaf)
    ensures FirstClash(records, Distinct(leaves), later) == FirstClash(records, leaves, later)
  {
    hide Clash;
    if leaves != [] {
      var front, last := leaves[..|leaves| - 1], leaves[|leaves| - 1];
      DistinctKeepsFirstClash(records, front, later);
      if last.Reference? && HasReference(front, last.name) {
        var i :| 0 <= i < |front| && front[i].Reference? && front[i].name == last.name;
        ReferencesClashAlike(records, front[i], last, later);
        FirstClashFinds(records, front, later);
      } else {
        assert (Distinct(front) + [last])[..|Distinct(front)|] == Distinct(front);
      }
    }
  }

  /** A repeated reference clashes with nothing that did not clash before. */
  lemma RepeatedReferenceIsClean(records: seq<Record>, leaves: seq<Leaf>, later: Leaf)
    requires NoClashes(records, leaves)
    requires later.Reference? && HasReference(leaves, later.name)
    ensures FirstClash(records, leaves, later) == None
  {
    hide Clash;
    FirstClashFinds(records, leaves, later);
    var r :| 0 <= r < |leaves| && leaves[r].Reference? && leaves[r].name == later.name;
    forall i | 0 <= i < |leaves|
      ensures !Clash(records, leaves[i], later)
    {
      ReferencesClashAlike(records, leaves[r], later, leaves[i]);
      TwoReferencesNeverClash(records, leaves[r], later);
    }
  }

  lemma TwoReferencesNeverClash(records: seq<Record>, a: Leaf, b: Leaf)
    requires a.Reference? && b.Reference?
    ensures !Clash(records, a, b)
  {
  }

  lemma ExtendNoClashes(records: seq<Record>, leaves: seq<Leaf>, later: Leaf)
    requires NoClashes(records, leaves) && FirstClash(records, leaves, later).None?
    ensures NoClashes(records, leaves + [later])
  {
    hide Clash;
    FirstClashFinds(records, leaves, later);
  }

  lemma HasReferenceAppend(leaves: seq<Leaf>, last: Leaf, name: QName)
    ensures HasReference(leaves + [last], name) <==>
      HasReference(leaves, name) || (last.Reference? && last.name == name)
  {
    var all := leaves + [last];
    if HasReference(leaves, name) {
      var i :| 0 <= i < |leaves| && leaves[i].Reference? && leaves[i].name == name;
      assert all[i] == leaves[i];
    }
    assert all[|leaves|] == last;
  }

  /** Events that only repeat references already made. */
  ghost predicate OnlyRepeats(leaves: seq<Leaf>, events: seq<Event>) {
    forall i :: 0 <= i < |events| ==>
      events[i].Visit? && events[i].leaf.Reference? && HasReference(leaves, events[i].leaf.name)
  }

  lemma RepeatChangesNothing(records: seq<Record>, leaves: seq<Leaf>, leaf: Leaf)
    requires NoClashes(records, leaves)
    requires leaf.Reference? && HasReference(leaves, leaf.name)
    ensures Distinct(leaves + [leaf]) == Distinct(leaves) && NoClashes(records, leaves + [leaf])
    ensures forall name :: HasReference(leaves + [leaf], name) <==> HasReference(leaves, name)
  {
    hide Clash, HasReference, FirstClash, NoClashes;
    RepeatedReferenceIsClean(records, leaves, leaf);
    ExtendNoClashes(records, leaves, leaf);
    assert (leaves + [leaf])[..|leaves|] == leaves;
    forall name
      ensures HasReference(leaves + [leaf], name) <==> HasReference(leaves, name)
    {
      HasReferenceAppend(leaves, leaf, name);
    }
  }

  /** Walking over repeats changes nothing. */
  lemma {:induction false} RepeatsChangeNothing(records: seq<Record>, leaves: seq<Leaf>, events: seq<Event>)
    requires NoClashes(records, leaves) && OnlyRepeats(leaves, events)
    ensures Naive(records, leaves, events).Clean?
    ensures Distinct(leaves + Leaves(events)) == Distinct(leaves)
    ensures NoClashes(records, leaves + Leaves(events))
    ensures forall name :: HasReference(leaves + Leaves(events), name) <==> HasReference(leaves, name)
    decreases |events|
  {
    hide Clash, HasReference, FirstClash, Distinct, NoClashes;
    if events == [] {
      assert leaves + Leaves(events) == leaves;
    } else {
      var leaf := events[0].leaf;
      var longer := leaves + [leaf];
      RepeatedReferenceIsClean(records, leaves, leaf);
      RepeatChangesNothing(records, leaves, leaf);
      RepeatsChangeNothing(records, longer, events[1..]);
      assert leaves + Leaves(events) == longer + Leaves(events[1..]);
    }
  }

  // ----- the location through which a group is reached matters only to locations

  ghost predicate SameShape(a: seq<Event>, b: seq<Event>) {
    && |a| == |b|
    && forall i :: 0 <= i < |a| ==>
         (a[i].Visit? <==> b[i].Visit?) &&
           (a[i].Visit? ==> (a[i].leaf.Local? <==> b[i].leaf.Local?) && a[i].leaf.name == b[i].leaf.name)
  }

  lemma {:induction false} ViaKeepsShape(schema: Schema, rank: ComponentID -> nat, height: nat, p: Particle, via: Loc,
    other: Loc)
    requires Parallel(schema) && Acyclic(schema, rank) && Below(schema, rank, p, height)
    ensures SameShape(Expand(schema, rank, height, p, via), Expand(schema, rank, height, p, other))
    decreases height, p
  {
    match p
    case Choice(terms) => ViaKeepsTermsShape(schema, rank, height, terms, via, other);
    case Sequence(terms) => ViaKeepsTermsShape(schema, rank, height, terms, via, other);
    case _ =>
  }

  lemma {:induction false} ViaKeepsTermsShape(schema: Schema, rank: ComponentID -> nat, height: nat,
    terms: seq<Particle>, via: Loc, other: Loc)
    requires Parallel(schema) && Acyclic(schema, rank) && TermsBelow(schema, rank, terms, height)
    ensures SameShape(ExpandTerms(schema, rank, height, terms, via), ExpandTerms(schema, rank, height, terms, other))
    decreases height, terms
  {
    if terms != [] {
      ViaKeepsShape(schema, rank, height, terms[0], via, other);
      ViaKeepsTermsShape(schema, rank, height, terms[1..], via, other);
    }
  }

  lemma {:induction false} ExpandTermsAppend(schema: Schema, rank: ComponentID -> nat, height: nat,
    terms: seq<Particle>, last: Particle, via: Loc)
    requires Parallel(schema) && Acyclic(schema, rank)
    requires TermsBelow(schema, rank, terms, height) && Below(schema, rank, last, height)
    ensures TermsBelow(schema, rank, terms + [last], height)
    ensures ExpandTerms(schema, rank, height, terms + [last], via) ==
      ExpandTerms(schema, rank, height, terms, via) + Expand(schema, rank, height, last, via)
    decreases |terms|
  {
    var all := terms + [last];
    hide Expand;
    if terms == [] {
      assert all == [last];
    } else {
      assert all[1..] == terms[1..] + [last];
      ExpandTermsAppend(schema, rank, height, terms[1..], last, via);
    }
  }

  // ----- the cache of groups with local declarations

  ghost function BodyEvents(schema: Schema, rank: ComponentID -> nat, id: ComponentID, via: Loc): seq<Event>
    requires Parallel(schema) && Acyclic(schema, rank) && GroupBody(schema, id).Some?
  {
    BodyBelow(schema, rank, id);
    Expand(schema, rank, rank(id), GroupBody(schema, id).value, via)
  }

  /** Every resolvable reference in the particle has a cache entry. */
  ghost predicate Cached(schema: Schema, keys: set<ComponentID>, p: Particle)
    requires Parallel(schema)
  {
    match p
    case GroupReference(target, _) => GroupBody(schema, target).Some? ==> target in keys
    case Choice(terms) => forall i :: 0 <= i < |terms| ==> Cached(schema, keys, terms[i])
    case Sequence(terms) => forall i :: 0 <= i < |terms| ==> Cached(schema, keys, terms[i])
    case _ => true
  }

  /** A finished entry: it tells whether the group's expansion has a local leaf. */
  ghost predicate Entry(schema: Schema, rank: ComponentID -> nat, cache: map<ComponentID, bool>, id: ComponentID)
    requires Parallel(schema) && Acyclic(schema, rank)
  {
    && id in cache && GroupBody(schema, id).Some?
    && (cache[id] <==> AnyLocal(BodyEvents(schema, rank, id, NO_LOC)))
    && Cached(schema, cache.Keys, GroupBody(schema, id).value)
  }

  ghost predicate Extends(smaller: map<ComponentID, bool>, larger: map<ComponentID, bool>) {
    forall id :: id in smaller ==> id in larger && larger[id] == smaller[id]
  }

  lemma {:induction false} CachedGrows(schema: Schema, keys: set<ComponentID>, more: set<ComponentID>, p: Particle)
    requires Parallel(schema) && keys <= more && Cached(schema, keys, p)
    ensures Cached(schema, more, p)
  {
    match p
    case Choice(terms) =>
      forall i | 0 <= i < |terms| ensures Cached(schema, more, terms[i]) { CachedGrows(schema, keys, more, terms[i]); }
    case Sequence(terms) =>
      forall i | 0 <= i < |terms| ensures Cached(schema, more, terms[i]) { CachedGrows(schema, keys, more, terms[i]); }
    case _ =>
  }

  lemma EntryGrows(schema: Schema, rank: ComponentID -> nat, cache: map<ComponentID, bool>, larger: map<ComponentID,
    bool>, id: ComponentID)
    requires Parallel(schema) && Acyclic(schema, rank)
    requires Entry(schema, rank, cache, id) && cache.Keys <= larger.Keys && larger[id] == cache[id]
    ensures Entry(schema, rank, larger, id)
  {
    hide Cached, BodyEvents, AnyLocal;
    CachedGrows(schema, cache.Keys, larger.Keys, GroupBody(schema, id).value);
  }

  /** All keys are groups; entries below `height` are finished, those above may be in progress. */
  ghost predicate FinishedBelow(schema: Schema, rank: ComponentID -> nat, cache: map<ComponentID, bool>, height: nat)
    requires Parallel(schema) && Acyclic(schema, rank)
  {
    && (forall id :: id in cache ==> GroupBody(schema, id).Some?)
    && forall id :: id in cache && rank(id) < height ==> Entry(schema, rank, cache, id)
  }

  /** The cache grew by finished entries below `height` only. */
  ghost predicate Grown(schema: Schema, rank: ComponentID -> nat, before: map<ComponentID, bool>,
    after: map<ComponentID, bool>, height: nat)
    requires Parallel(schema) && Acyclic(schema, rank)
  {
    && Extends(before, after)
    && forall id :: id in after && id !in before ==> rank(id) < height && Entry(schema, rank, after, id)
  }

  lemma GrownTransitive(schema: Schema, rank: ComponentID -> nat, a: map<ComponentID, bool>, b: map<ComponentID, bool>,
    c: map<ComponentID, bool>, height: nat)
    requires Parallel(schema) && Acyclic(schema, rank)
    requires Grown(schema, rank, a, b, height) && Grown(schema, rank, b, c, height)
    ensures Grown(schema, rank, a, c, height)
    ensures FinishedBelow(schema, rank, a, height) ==> FinishedBelow(schema, rank, b, height)
  {
    assert forall id :: id in b && id !in a ==> GroupBody(schema, id).Some?;
    hide Entry;
    forall id | id in c && id !in a
      ensures rank(id) < height && Entry(schema, rank, c, id)
    {
      if id in b {
        EntryGrows(schema, rank, b, c, id);
      }
    }
    if FinishedBelow(schema, rank, a, height) {
      forall id | id in b && rank(id) < height
        ensures Entry(schema, rank, b, id)
      {
        if id in a {
          EntryGrows(schema, rank, a, b, id);
        }
      }
    }
  }

  /** Replacing the placeholder of a group by its answer finishes it. */
  lemma PlaceholderResolved(schema: Schema, rank: ComponentID -> nat, before: map<ComponentID, bool>,
    after: map<ComponentID, bool>, id: ComponentID, present: bool, height: nat)
    requires Parallel(schema) && Acyclic(schema, rank)
    requires id !in before && GroupBody(schema, id).Some? && rank(id) < height
    requires Grown(schema, rank, before[id := false], after, rank(id))
    requires Cached(schema, after.Keys, GroupBody(schema, id).value)
    requires present <==> AnyLocal(BodyEvents(schema, rank, id, NO_LOC))
    ensures Grown(schema, rank, before, after[id := present], height)
    ensures id in after[id := present]
  {
    hide AnyLocal, BodyEvents, Cached;
    var resolved := after[id := present];
    assert id in before[id := false] && id in after;
    assert resolved.Keys == after.Keys;
    assert Entry(schema, rank, resolved, id);
    forall other | other in resolved && other !in before
      ensures rank(other) < height && Entry(schema, rank, resolved, other)
    {
      if other != id {
        assert Entry(schema, rank, after, other);
        EntryGrows(schema, rank, after, resolved, other);
      }
    }
    forall other | other in before
      ensures other in resolved && resolved[other] == before[other]
    {
      assert other in before[id := false];
    }
  }

  // ----- what the walk has seen

  /** The retained leaves and references stand for the clash-free leaves walked so far. */
  ghost predicate Tracks(records: seq<Record>, processed: seq<Leaf>, seen: seq<Leaf>, seenReferences: set<QName>) {
    && NoClashes(records, processed)
    && seen == Distinct(processed)
    && forall name :: name in seenReferences <==> HasReference(processed, name)
  }

  /** A new leaf without a clash is recorded. */
  lemma TracksAppend(records: seq<Record>, processed: seq<Leaf>, seen: seq<Leaf>, seenReferences: set<QName>,
    leaf: Leaf)
    requires Tracks(records, processed, seen, seenReferences) && FirstClash(records, processed, leaf).None?
    requires !(leaf.Reference? && leaf.name in seenReferences)
    ensures Tracks(records, processed + [leaf], seen + [leaf],
                   seenReferences + if leaf.Reference? then {leaf.name} else {})
  {
    hide Clash, HasReference, NoClashes, FirstClash;
    ExtendNoClashes(records, processed, leaf);
    assert (processed + [leaf])[..|processed|] == processed;
    forall name
      ensures HasReference(processed + [leaf], name) <==>
        HasReference(processed, name) || (leaf.Reference? && leaf.name == name)
    {
      HasReferenceAppend(processed, leaf, name);
    }
  }

  lemma TracksRepeat(records: seq<Record>, processed: seq<Leaf>, seen: seq<Leaf>, seenReferences: set<QName>,
    leaf: Leaf)
    requires Tracks(records, processed, seen, seenReferences) && leaf.Reference? && leaf.name in seenReferences
    ensures Tracks(records, processed + [leaf], seen, seenReferences)
  {
    hide Clash, HasReference, NoClashes, FirstClash, Distinct;
    RepeatChangesNothing(records, processed, leaf);
  }

  /** Walking this group again would only repeat references. */
  ghost predicate Repeats(schema: Schema, rank: ComponentID -> nat, processed: seq<Leaf>, id: ComponentID)
    requires Parallel(schema) && Acyclic(schema, rank)
  {
    GroupBody(schema, id).Some? && OnlyRepeats(processed, BodyEvents(schema, rank, id, NO_LOC))
  }

  ghost predicate RepeatsBelow(schema: Schema, rank: ComponentID -> nat, processed: seq<Leaf>,
    visited: set<ComponentID>, height: nat)
    requires Parallel(schema) && Acyclic(schema, rank)
  {
    forall id :: id in visited && rank(id) < height ==> Repeats(schema, rank, processed, id)
  }

  ghost predicate VisitedGrown(schema: Schema, rank: ComponentID -> nat, processed: seq<Leaf>,
    before: set<ComponentID>, after: set<ComponentID>, height: nat)
    requires Parallel(schema) && Acyclic(schema, rank)
  {
    && before <= after
    && forall id :: id in after && id !in before ==> rank(id) < height && Repeats(schema, rank, processed, id)
  }

  lemma HasReferenceGrows(leaves: seq<Leaf>, more: seq<Leaf>, name: QName)
    requires HasReference(leaves, name)
    ensures HasReference(leaves + more, name)
  {
    var i :| 0 <= i < |leaves| && leaves[i].Reference? && leaves[i].name == name;
    assert (leaves + more)[i] == leaves[i];
  }

  lemma RepeatsGrow(schema: Schema, rank: ComponentID -> nat, processed: seq<Leaf>, more: seq<Leaf>, id: ComponentID)
    requires Parallel(schema) && Acyclic(schema, rank) && Repeats(schema, rank, processed, id)
    ensures Repeats(schema, rank, processed + more, id)
  {
    hide HasReference, BodyEvents;
    var events := BodyEvents(schema, rank, id, NO_LOC);
    forall i | 0 <= i < |events|
      ensures HasReference(processed + more, events[i].leaf.name)
    {
      HasReferenceGrows(processed, more, events[i].leaf.name);
    }
  }

  lemma VisitedGrowsTransitively(schema: Schema, rank: ComponentID -> nat, processed: seq<Leaf>, more: seq<Leaf>,
    a: set<ComponentID>, b: set<ComponentID>, c: set<ComponentID>, height: nat)
    requires Parallel(schema) && Acyclic(schema, rank)
    requires VisitedGrown(schema, rank, processed, a, b, height)
    requires VisitedGrown(schema, rank, processed + more, b, c, height)
    ensures VisitedGrown(schema, rank, processed + more, a, c, height)
  {
    hide Repeats;
    forall id | id in c && id !in a
      ensures rank(id) < height && Repeats(schema, rank, processed + more, id)
    {
      if id in b {
        RepeatsGrow(schema, rank, processed, more, id);
      }
    }
  }

  lemma RepeatsBelowGrows(schema: Schema, rank: ComponentID -> nat, processed: seq<Leaf>, more: seq<Leaf>,
    before: set<ComponentID>, after: set<ComponentID>, height: nat)
    requires Parallel(schema) && Acyclic(schema, rank)
    requires RepeatsBelow(schema, rank, processed, before, height)
    requires VisitedGrown(schema, rank, processed + more, before, after, height)
    ensures RepeatsBelow(schema, rank, processed + more, after, height)
  {
    hide Repeats;
    forall id | id in after && rank(id) < height
      ensures Repeats(schema, rank, processed + more, id)
    {
      if id in before {
        RepeatsGrow(schema, rank, processed, more, id);
      }
    }
  }

  /** A clean walk over a group without local leaves makes its events repeats. */
  lemma {:induction false} CleanWalkRepeats(records: seq<Record>, leaves: seq<Leaf>, events: seq<Event>)
    requires Naive(records, leaves, events).Clean? && !AnyLocal(events)
    ensures OnlyRepeats(leaves + Leaves(events), events)
    decreases |events|
  {
    hide HasReference, FirstClash;
    if events != [] {
      assert events == [events[0]] + events[1..];
      AnyLocalConcat([events[0]], events[1..]);
      var leaf := events[0].leaf;
      assert [events[0]][0] == events[0];
      CleanWalkRepeats(records, leaves + [leaf], events[1..]);
      assert leaves + Leaves(events) == leaves + [leaf] + Leaves(events[1..]);
      HasReferenceAppend(leaves, leaf, leaf.name);
      HasReferenceGrows(leaves + [leaf], Leaves(events[1..]), leaf.name);
      forall i | 0 <= i < |events|
        ensures events[i].Visit? && events[i].leaf.Reference? &&
          HasReference(leaves + Leaves(events), events[i].leaf.name)
      {
        if i > 0 {
          assert events[i] == events[1..][i - 1];
        }
      }
    }
  }

  // ----- the check

  method LeafConflict(records: seq<Record>, first: Leaf, later: Leaf) returns (verdict: Verdict)
    ensures verdict == if Clash(records, first, later) then ClashVerdict(first, later) else Clean
  {
    if !first.Local? && !later.Local? {
      return Clean;
    }
    if first.name == later.name {
      return ClashVerdict(first, later);
    }
    var matches := false;
    if first.Local? && later.Reference? {
      matches := SubstitutionMayMatch(records, later.name, first.name);
    }
    if !matches && later.Local? && first.Reference? {
      matches := SubstitutionMayMatch(records, first.name, later.name);
    }
    return if matches then Overlap(first, later) else Clean;
  }

  /** The cache shared by all groups, and the walk over one group. */
  class OverlapWalk {
    const schema: Schema
    ghost const rank: ComponentID -> nat
    var hasLocal: map<ComponentID, bool>
    var visitedRefOnly: set<ComponentID>
    var seen: seq<Leaf>
    var seenReferences: set<QName>
    /** Every leaf of the expansion so far, repeats included. */
    ghost var processed: seq<Leaf>

    ghost predicate WellFormed() {
      Parallel(schema) && Acyclic(schema, rank)
    }

    constructor (schema: Schema, ghost rank: ComponentID -> nat)
      requires Parallel(schema) && Acyclic(schema, rank)
      ensures this.schema == schema && this.rank == rank && hasLocal == map[]
    {
      this.schema, this.rank := schema, rank;
      hasLocal, visitedRefOnly, seen, seenReferences, processed := map[], {}, [], {}, [];
    }

    method StartGroup()
      requires WellFormed()
      modifies this`visitedRefOnly, this`seen, this`seenReferences, this`processed
      ensures visitedRefOnly == {} && processed == []
      ensures Tracks(schema.records, processed, seen, seenReferences)
    {
      visitedRefOnly, seen, seenReferences, processed := {}, [], {}, [];
    }

    method ParticleHasLocal(p: Particle, ghost height: nat) returns (present: bool)
      requires WellFormed() && Below(schema, rank, p, height)
      requires FinishedBelow(schema, rank, hasLocal, height)
      modifies this`hasLocal
      ensures Grown(schema, rank, old(hasLocal), hasLocal, height)
      ensures Cached(schema, hasLocal.Keys, p)
      ensures present <==> AnyLocal(Expand(schema, rank, height, p, NO_LOC))
      decreases height, 1, p
    {
      hide Entry, FinishedBelow, Grown;
      GrownTrivially(hasLocal, height);
      match p
      case Element(_, _, _) =>
        assert Expand(schema, rank, height, p, NO_LOC)[0].leaf.Local?;
        return true;
      case GroupReference(id, refLoc) =>
        present := GroupHasLocal(id, refLoc, height);
      case Choice(terms) =>
        present := TermsHaveLocal(terms, height);
      case Sequence(terms) =>
        present := TermsHaveLocal(terms, height);
      case _ =>
        return false;
    }

    lemma GrownTrivially(cache: map<ComponentID, bool>, height: nat)
      requires WellFormed()
      ensures Grown(schema, rank, cache, cache, height)
    {
    }

    method GroupHasLocal(id: ComponentID, refLoc: Loc, ghost height: nat) returns (present: bool)
      requires WellFormed() && (GroupBody(schema, id).Some? ==> rank(id) < height)
      requires FinishedBelow(schema, rank, hasLocal, height)
      modifies this`hasLocal
      ensures Grown(schema, rank, old(hasLocal), hasLocal, height)
      ensures GroupBody(schema, id).Some? ==> id in hasLocal
      ensures GroupBody(schema, id).Some? ==> (present <==> AnyLocal(BodyEvents(schema, rank, id, refLoc)))
      ensures GroupBody(schema, id).None? ==> !present
      decreases height, 0
    {
      hide AnyLocal, Cached, Expand, BodyEvents;
      if GroupBody(schema, id).Some? {
        BodyHasLocalAnyVia(id, refLoc);
      }
      if id in hasLocal {
        return hasLocal[id];
      }
      var body := GroupBody(schema, id);
      if body.None? {
        return false;
      }
      BodyBelow(schema, rank, id);
      ghost var before := hasLocal;
      hasLocal := hasLocal[id := false];
      PlaceholderKeepsFinished(before, id);
      present := ParticleHasLocal(body.value, rank(id));
      assert AnyLocal(BodyEvents(schema, rank, id, NO_LOC)) <==> present by {
        BodyEventsMeans(id, NO_LOC);
      }
      PlaceholderResolved(schema, rank, before, hasLocal, id, present, height);
      hasLocal := hasLocal[id := present];
    }

    lemma BodyEventsMeans(id: ComponentID, via: Loc)
      requires WellFormed() && GroupBody(schema, id).Some?
      ensures Below(schema, rank, GroupBody(schema, id).value, rank(id))
      ensures BodyEvents(schema, rank, id, via) == Expand(schema, rank, rank(id), GroupBody(schema, id).value, via)
    {
      BodyBelow(schema, rank, id);
    }

    lemma BodyHasLocalAnyVia(id: ComponentID, via: Loc)
      requires WellFormed() && GroupBody(schema, id).Some?
      ensures AnyLocal(BodyEvents(schema, rank, id, via)) <==> AnyLocal(BodyEvents(schema, rank, id, NO_LOC))
    {
      BodyBelow(schema, rank, id);
      ViaKeepsShape(schema, rank, rank(id), GroupBody(schema, id).value, via, NO_LOC);
    }

    lemma PlaceholderKeepsFinished(cache: map<ComponentID, bool>, id: ComponentID)
      requires WellFormed() && id !in cache && GroupBody(schema, id).Some?
      requires FinishedBelow(schema, rank, cache, rank(id) + 1)
      ensures FinishedBelow(schema, rank, cache[id := false], rank(id))
    {
      hide Entry;
      var with := cache[id := false];
      forall other | other in with && rank(other) < rank(id)
        ensures Entry(schema, rank, with, other)
      {
        EntryGrows(schema, rank, cache, with, other);
      }
    }

    method TermsHaveLocal(terms: seq<Particle>, ghost height: nat) returns (present: bool)
      requires WellFormed() && TermsBelow(schema, rank, terms, height)
      requires FinishedBelow(schema, rank, hasLocal, height)
      modifies this`hasLocal
      ensures Grown(schema, rank, old(hasLocal), hasLocal, height)
      ensures forall i :: 0 <= i < |terms| ==> Cached(schema, hasLocal.Keys, terms[i])
      ensures present <==> AnyLocal(ExpandTerms(schema, rank, height, terms, NO_LOC))
      decreases height, 1, terms
    {
      hide Entry, FinishedBelow, Grown, Expand, AnyLocal, Below;
      present := false;
      GrownTrivially(hasLocal, height);
      NoTermsNoLocal(height);
      for i := 0 to |terms|
        invariant Grown(schema, rank, old(hasLocal), hasLocal, height)
        invariant FinishedBelow(schema, rank, hasLocal, height)
        invariant forall k :: 0 <= k < i ==> Cached(schema, hasLocal.Keys, terms[k])
        invariant present <==> AnyLocal(ExpandTerms(schema, rank, height, terms[..i], NO_LOC))
      {
        ghost var before := hasLocal;
        var termHasLocal := ParticleHasLocal(terms[i], height);
        GrownTrivially(hasLocal, height);
        GrownTransitive(schema, rank, before, hasLocal, hasLocal, height);
        GrownTransitive(schema, rank, old(hasLocal), before, hasLocal, height);
        GrownKeys(before, hasLocal, height);
        forall k | 0 <= k < i
          ensures Cached(schema, hasLocal.Keys, terms[k])
        {
          CachedGrows(schema, before.Keys, hasLocal.Keys, terms[k]);
        }
        assert terms[..i + 1] == terms[..i] + [terms[i]];
        ExpandTermsAppend(schema, rank, height, terms[..i], terms[i], NO_LOC);
        AnyLocalConcat(ExpandTerms(schema, rank, height, terms[..i], NO_LOC),
          Expand(schema, rank, height, terms[i], NO_LOC));
        if termHasLocal {
          present := true;
        }
      }
      assert terms[..|terms|] == terms;
    }

    lemma NoTermsNoLocal(height: nat)
      requires WellFormed()
      ensures !AnyLocal(ExpandTerms(schema, rank, height, [], NO_LOC))
    {
    }

    lemma GrownKeys(before: map<ComponentID, bool>, after: map<ComponentID, bool>, height: nat)
      requires WellFormed() && Grown(schema, rank, before, after, height)
      ensures before.Keys <= after.Keys
    {
    }

    // the walk over one group

    method VisitLeaf(leaf: Leaf) returns (verdict: Verdict)
      requires Tracks(schema.records, processed, seen, seenReferences)
      modifies this`seen, this`seenReferences, this`processed
      ensures verdict == Naive(schema.records, old(processed), [Visit(leaf)])
      ensures verdict.Clean? ==>
        processed == old(processed) + [leaf] && Tracks(schema.records, processed, seen, seenReferences)
    {
      hide Clash, HasReference, NoClashes;
      ghost var records := schema.records;
      DistinctKeepsFirstClash(records, processed, leaf);
      NaiveOne(records, processed, leaf);
      if leaf.Reference? && leaf.name in seenReferences {
        RepeatedReferenceIsClean(records, processed, leaf);
        TracksRepeat(records, processed, seen, seenReferences, leaf);
        processed := processed + [leaf];
        return Clean;
      }
      var leaves := seen;
      for i := 0 to |leaves|
        invariant seen == leaves && processed == old(processed) && seenReferences == old(seenReferences)
        invariant FirstClash(records, leaves[..i], leaf).None?
      {
        assert leaves[..i + 1][..i] == leaves[..i];
        var conflict := LeafConflict(schema.records, leaves[i], leaf);
        if !conflict.Clean? {
          FirstClashStable(records, leaves, i + 1, leaf);
          return conflict;
        }
      }
      assert leaves[..|leaves|] == leaves;
      TracksAppend(records, processed, seen, seenReferences, leaf);
      seen := seen + [leaf];
      processed := processed + [leaf];
      if leaf.Reference? {
        seenReferences := seenReferences + {leaf.name};
      }
      return Clean;
    }

    method WalkLeaves(p: Particle, via: Loc, ghost height: nat) returns (verdict: Verdict)
      requires WellFormed() && Below(schema, rank, p, height)
      requires AllFinished() && Cached(schema, hasLocal.Keys, p)
      requires Tracks(schema.records, processed, seen, seenReferences)
      requires RepeatsBelow(schema, rank, processed, visitedRefOnly, height)
      modifies this`seen, this`seenReferences, this`processed, this`visitedRefOnly
      ensures verdict == Naive(schema.records, old(processed), Expand(schema, rank, height, p, via))
      ensures verdict.Clean? ==>
        && processed == old(processed) + Leaves(Expand(schema, rank, height, p, via))
        && Tracks(schema.records, processed, seen, seenReferences)
        && VisitedGrown(schema, rank, processed, old(visitedRefOnly), visitedRefOnly, height)
      decreases height, 1, p
    {
      hide Tracks, Entry, RepeatsBelow, VisitedGrown, FirstClash;
      VisitedTrivially(visitedRefOnly, height);
      match p
      case Element(name, declaredType, loc) =>
        verdict := VisitLeaf(Local(name, declaredType, LeafLoc(loc, via)));
        VisitedTrivially(visitedRefOnly, height);
      case ElementReference(ref, target, refLoc) =>
        var index := RecordByID(schema.records, target);
        if index == |schema.records| || schema.records[index].element.None? {
          return Fault(refLoc);
        }
        verdict := VisitLeaf(Reference(ref, schema.records[index].element.value.declaredType, LeafLoc(refLoc, via)));
        VisitedTrivially(visitedRefOnly, height);
      case GroupReference(target, refLoc) =>
        verdict := WalkGroup(target, refLoc, height);
      case Choice(terms) =>
        verdict := WalkTerms(terms, via, height);
      case Sequence(terms) =>
        verdict := WalkTerms(terms, via, height);
      case OtherParticle(loc) =>
        return Fault(loc);
    }

    /** Every cache entry is finished. */
    ghost predicate AllFinished()
      requires WellFormed()
      reads this`hasLocal
    {
      forall id :: id in hasLocal ==> Entry(schema, rank, hasLocal, id)
    }

    lemma VisitedTrivially(visited: set<ComponentID>, height: nat)
      requires WellFormed()
      ensures forall leaves :: VisitedGrown(schema, rank, leaves, visited, visited, height)
    {
    }

    ghost function ReferenceEvents(target: ComponentID, refLoc: Loc): seq<Event>
      requires WellFormed()
    {
      if GroupBody(schema, target).None? then [Broken(refLoc)] else BodyEvents(schema, rank, target, refLoc)
    }

    method WalkGroup(target: ComponentID, refLoc: Loc, ghost height: nat) returns (verdict: Verdict)
      requires WellFormed() && (GroupBody(schema, target).Some? ==> rank(target) < height && target in hasLocal)
      requires AllFinished()
      requires Tracks(schema.records, processed, seen, seenReferences)
      requires RepeatsBelow(schema, rank, processed, visitedRefOnly, height)
      modifies this`seen, this`seenReferences, this`processed, this`visitedRefOnly
      ensures verdict == Naive(schema.records, old(processed), ReferenceEvents(target, refLoc))
      ensures verdict.Clean? ==>
        && processed == old(processed) + Leaves(ReferenceEvents(target, refLoc))
        && Tracks(schema.records, processed, seen, seenReferences)
        && VisitedGrown(schema, rank, processed, old(visitedRefOnly), visitedRefOnly, height)
      decreases height, 0
    {
      hide AnyLocal, HasReference, FirstClash, NoClashes, Distinct, Expand, BodyEvents, OnlyRepeats;
      var body := GroupBody(schema, target);
      if body.None? {
        return Fault(refLoc);
      }
      ghost var events := BodyEvents(schema, rank, target, refLoc);
      BodyEventsMeans(target, refLoc);
      BodyHasLocalAnyVia(target, refLoc);
      assert Entry(schema, rank, hasLocal, target);
      if !hasLocal[target] && target in visitedRefOnly {
        assert Repeats(schema, rank, processed, target);
        RepeatsAnyVia(target, refLoc, processed);
        RepeatsChangeNothing(schema.records, processed, events);
        VisitedTrivially(visitedRefOnly, height);
        processed := processed + Leaves(events);
        return Clean;
      }
      ghost var visitedBefore, processedBefore := visitedRefOnly, processed;
      if !hasLocal[target] {
        visitedRefOnly := visitedRefOnly + {target};
      }
      NestedRepeats(visitedBefore, visitedRefOnly, processed, target, height);
      verdict := WalkLeaves(body.value, refLoc, rank(target));
      if verdict.Clean? {
        if !hasLocal[target] {
          CleanWalkRepeats(schema.records, processedBefore, events);
          RepeatsFromVia(target, refLoc, processed);
        }
        NestedVisited(visitedBefore, visitedBefore + (if hasLocal[target] then {} else {target}), visitedRefOnly,
          processed, target, height);
      }
    }

    lemma NestedRepeats(before: set<ComponentID>, after: set<ComponentID>, leaves: seq<Leaf>, target: ComponentID,
      height: nat)
      requires WellFormed() && rank(target) < height
      requires RepeatsBelow(schema, rank, leaves, before, height) && (after == before || after == before + {target})
      ensures RepeatsBelow(schema, rank, leaves, after, rank(target))
    {
      hide Repeats;
    }

    lemma NestedVisited(before: set<ComponentID>, entered: set<ComponentID>, after: set<ComponentID>,
      leaves: seq<Leaf>, target: ComponentID, height: nat)
      requires WellFormed() && rank(target) < height
      requires entered == before || (entered == before + {target} && Repeats(schema, rank, leaves, target))
      requires VisitedGrown(schema, rank, leaves, entered, after, rank(target))
      ensures VisitedGrown(schema, rank, leaves, before, after, height)
    {
      hide Repeats;
    }

    lemma RepeatsAnyVia(id: ComponentID, via: Loc, leaves: seq<Leaf>)
      requires WellFormed() && Repeats(schema, rank, leaves, id)
      ensures OnlyRepeats(leaves, BodyEvents(schema, rank, id, via))
    {
      hide HasReference;
      BodyBelow(schema, rank, id);
      ViaKeepsShape(schema, rank, rank(id), GroupBody(schema, id).value, NO_LOC, via);
    }

    lemma RepeatsFromVia(id: ComponentID, via: Loc, leaves: seq<Leaf>)
      requires WellFormed() && GroupBody(schema, id).Some? && OnlyRepeats(leaves, BodyEvents(schema, rank, id, via))
      ensures Repeats(schema, rank, leaves, id)
    {
      hide HasReference;
      BodyBelow(schema, rank, id);
      ViaKeepsShape(schema, rank, rank(id), GroupBody(schema, id).value, NO_LOC, via);
    }

    method WalkTerms(terms: seq<Particle>, via: Loc, ghost height: nat) returns (verdict: Verdict)
      requires WellFormed() && TermsBelow(schema, rank, terms, height)
      requires AllFinished() && forall i :: 0 <= i < |terms| ==> Cached(schema, hasLocal.Keys, terms[i])
      requires Tracks(schema.records, processed, seen, seenReferences)
      requires RepeatsBelow(schema, rank, processed, visitedRefOnly, height)
      modifies this`seen, this`seenReferences, this`processed, this`visitedRefOnly
      ensures verdict == Naive(schema.records, old(processed), ExpandTerms(schema, rank, height, terms, via))
      ensures verdict.Clean? ==>
        && processed == old(processed) + Leaves(ExpandTerms(schema, rank, height, terms, via))
        && Tracks(schema.records, processed, seen, seenReferences)
        && VisitedGrown(schema, rank, processed, old(visitedRefOnly), visitedRefOnly, height)
      decreases height, 1, terms
    {
      hide Tracks, Entry, RepeatsBelow, VisitedGrown, FirstClash, Expand, Below, Cached, Leaves, AllFinished;
      VisitedTrivially(visitedRefOnly, height);
      ghost var start, visitedStart := processed, visitedRefOnly;
      LeavesOfNothing();
      for i := 0 to |terms|
        invariant AllFinished()
        invariant Naive(schema.records, start, ExpandTerms(schema, rank, height, terms[..i], via)).Clean?
        invariant processed == start + Leaves(ExpandTerms(schema, rank, height, terms[..i], via))
        invariant Tracks(schema.records, processed, seen, seenReferences)
        invariant RepeatsBelow(schema, rank, processed, visitedRefOnly, height)
        invariant VisitedGrown(schema, rank, processed, visitedStart, visitedRefOnly, height)
      {
        ghost var done := ExpandTerms(schema, rank, height, terms[..i], via);
        ghost var next := Expand(schema, rank, height, terms[i], via);
        ghost var before, visitedBefore := processed, visitedRefOnly;
        verdict := WalkLeaves(terms[i], via, height);
        assert terms[..i + 1] == terms[..i] + [terms[i]];
        ExpandTermsAppend(schema, rank, height, terms[..i], terms[i], via);
        NaiveConcat(schema.records, start, done, next);
        if !verdict.Clean? {
          ExpandTermsSplit(terms, i + 1, via, height);
          NaiveConcat(schema.records, start, ExpandTerms(schema, rank, height, terms[..i + 1], via),
                      ExpandTerms(schema, rank, height, terms[i + 1..], via));
          return;
        }
        assert processed == start + (Leaves(done) + Leaves(next));
        VisitedGrowsTransitively(schema, rank, before, Leaves(next), visitedStart, visitedBefore, visitedRefOnly,
          height);
        RepeatsBelowGrows(schema, rank, before, Leaves(next), visitedBefore, visitedRefOnly, height);
      }
      assert terms[..|terms|] == terms;
      return Clean;
    }

    lemma LeavesOfNothing()
      ensures Leaves([]) == []
    {
    }

    lemma {:induction false} ExpandTermsSplit(terms: seq<Particle>, i: nat, via: Loc, height: nat)
      requires WellFormed() && TermsBelow(schema, rank, terms, height) && i <= |terms|
      ensures TermsBelow(schema, rank, terms[..i], height) && TermsBelow(schema, rank, terms[i..], height)
      ensures ExpandTerms(schema, rank, height, terms, via) ==
        ExpandTerms(schema, rank, height, terms[..i], via) + ExpandTerms(schema, rank, height, terms[i..], via)
      decreases |terms| - i
    {
      hide Expand, Below;
      if i == |terms| {
        assert terms[..i] == terms && terms[i..] == [];
      } else {
        ExpandTermsSplit(terms, i + 1, via, height);
        assert terms[..i + 1] == terms[..i] + [terms[i]];
        ExpandTermsAppend(schema, rank, height, terms[..i], terms[i], via);
        assert terms[i..][0] == terms[i] && terms[i..][1..] == terms[i + 1..];
      }
    }

    // all groups

    method CheckGroup(index: nat) returns (verdict: Verdict)
      requires WellFormed() && AllFinished() && index < |schema.groups|
      modifies this
      ensures WellFormed() && AllFinished() && verdict == NaiveGroup(schema, rank, index)
    {
      hide Entry, Naive, Tracks, AnyLocal, Expand, Cached;
      if !schema.records[index].isModelGroup || schema.groups[index].None? {
        return Clean;
      }
      var particle := schema.groups[index].value;
      ghost var height := rank(schema.records[index].id);
      ghost var before := hasLocal;
      FinishedEverywhere(height);
      var present := ParticleHasLocal(particle, height);
      StillAllFinished(before, hasLocal, height);
      if !present {
        return Clean;
      }
      StartGroup();
      verdict := WalkLeaves(particle, NO_LOC, height);
    }

    lemma FinishedEverywhere(height: nat)
      requires WellFormed() && AllFinished()
      ensures FinishedBelow(schema, rank, hasLocal, height)
    {
    }

    lemma StillAllFinished(before: map<ComponentID, bool>, after: map<ComponentID, bool>, height: nat)
      requires WellFormed() && Grown(schema, rank, before, after, height)
      requires forall id :: id in before ==> Entry(schema, rank, before, id)
      ensures forall id :: id in after ==> Entry(schema, rank, after, id)
    {
      hide Entry;
      forall id | id in after
        ensures Entry(schema, rank, after, id)
      {
        if id in before {
          EntryGrows(schema, rank, before, after, id);
        }
      }
    }
  }

  lemma NaiveOne(records: seq<Record>, seen: seq<Leaf>, leaf: Leaf)
    ensures Naive(records, seen, [Visit(leaf)]) ==
      var clash := FirstClash(records, seen, leaf); if clash.Some? then ClashVerdict(clash.value, leaf) else Clean
  {
    assert [Visit(leaf)][1..] == [];
  }

  /** The first clash found in a prefix is the first clash of the whole. */
  lemma {:induction false} FirstClashStable(records: seq<Record>, seen: seq<Leaf>, n: nat, leaf: Leaf)
    requires n <= |seen| && FirstClash(records, seen[..n], leaf).Some?
    ensures FirstClash(records, seen, leaf) == FirstClash(records, seen[..n], leaf)
    decreases |seen|
  {
    hide Clash;
    if n < |seen| {
      var front := seen[..|seen| - 1];
      assert front[..n] == seen[..n];
      FirstClashStable(records, front, n, leaf);
    } else {
      assert seen[..n] == seen;
    }
  }

  /** The naive check is clean exactly when nothing is broken and no two leaves clash. */
  lemma {:induction false} NaiveFindsEveryClash(records: seq<Record>, seen: seq<Leaf>, events: seq<Event>)
    requires NoClashes(records, seen)
    ensures Naive(records, seen, events).Clean? <==>
      (forall i :: 0 <= i < |events| ==> events[i].Visit?) && NoClashes(records, seen + Leaves(events))
    decreases |events|
  {
    hide Clash, FirstClash;
    if events == [] {
      assert seen + Leaves(events) == seen;
    } else if events[0].Visit? {
      var leaf := events[0].leaf;
      var all := seen + Leaves(events);
      FirstClashFinds(records, seen, leaf);
      assert all == seen + [leaf] + Leaves(events[1..]);
      assert all[|seen|] == leaf && forall i :: 0 <= i < |seen| ==> all[i] == seen[i];
      if FirstClash(records, seen, leaf).None? {
        ExtendNoClashes(records, seen, leaf);
        NaiveFindsEveryClash(records, seen + [leaf], events[1..]);
        assert events == [events[0]] + events[1..];
      }
    }
  }

  /**
   * On every acyclic group graph the check with its cache, its once-only
   * reference groups and its skipped repeats reports what the naive check of
   * the full expansions reports: the same verdict with the same first pair.
   */
  method ValidateLocalOverlaps(schema: Schema, ghost rank: ComponentID -> nat) returns (verdict: Verdict)
    requires Parallel(schema) && Acyclic(schema, rank)
    ensures verdict == NaiveFrom(schema, rank, 0)
  {
    hide NaiveGroup, Acyclic;
    var walk := new OverlapWalk(schema, rank);
    for index := 0 to |schema.records|
      invariant walk.WellFormed() && walk.AllFinished()
      invariant NaiveFrom(schema, rank, 0) == NaiveFrom(schema, rank, index)
    {
      verdict := walk.CheckGroup(index);
      if !verdict.Clean? {
        return;
      }
    }
    return Clean;
  }
}
