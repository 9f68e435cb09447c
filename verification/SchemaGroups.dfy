/** Schema records, model-group particles and substitution affiliation (schema_group_local.go). */
module SchemaGroups {
  import opened Wrappers

  datatype QName = QName(namespace: string, local: string)

  type ComponentID = nat

  /** A source location; zero is no location. */
  type Loc = nat

  const NO_LOC: Loc := 0
  const NO_NAME := QName("", "")

  datatype Particle =
    | Element(name: QName, declaredType: QName, loc: Loc)
    | ElementReference(ref: QName, target: ComponentID, refLoc: Loc)
    | GroupReference(target: ComponentID, refLoc: Loc)
    | Choice(terms: seq<Particle>)
    | Sequence(terms: seq<Particle>)
    | OtherParticle(loc: Loc)

  datatype ElementInput = ElementInput(declaredType: QName, substitutionGroup: seq<QName>)

  datatype Record = Record(id: ComponentID, name: QName, isModelGroup: bool, element: Option<ElementInput>)

  /** The first record with an identity, or the number of records. */
  function RecordByID(records: seq<Record>, id: ComponentID): (index: nat)
    ensures index <= |records|
    ensures index < |records| ==> records[index].id == id
    ensures forall i :: 0 <= i < index ==> records[i].id != id
  {
    if records == [] || records[0].id == id then 0 else 1 + RecordByID(records[1..], id)
  }

  // ----- substitution affiliation

  /** `to` is a declared affiliation of some element named `from`. */
  ghost predicate Affiliated(records: seq<Record>, from: QName, to: QName) {
    exists r :: 0 <= r < |records| && records[r].element.Some? && records[r].name == from &&
      to in records[r].element.value.substitutionGroup
  }

  ghost predicate IsAffiliationPath(records: seq<Record>, path: seq<QName>) {
    path != [] && forall i :: 0 <= i < |path| - 1 ==> Affiliated(records, path[i], path[i + 1])
  }

  /** The member reaches the head in the reflexive and transitive closure of affiliation. */
  ghost predicate MayMatch(records: seq<Record>, head: QName, member: QName) {
    exists path :: IsAffiliationPath(records, path) && path[0] == member && path[|path| - 1] == head
  }

  lemma ReachesItself(records: seq<Record>, name: QName)
    ensures MayMatch(records, name, name)
  {
    assert IsAffiliationPath(records, [name]);
  }

  lemma ReachesFurther(records: seq<Record>, member: QName, middle: QName, next: QName)
    requires MayMatch(records, middle, member) && Affiliated(records, middle, next)
    ensures MayMatch(records, next, member)
  {
    var path :| IsAffiliationPath(records, path) && path[0] == member && path[|path| - 1] == middle;
    assert IsAffiliationPath(records, path + [next]);
  }

  /** A set that holds the member and is closed under affiliation holds every name reached. */
  lemma {:induction false} ClosedUnderAffiliation(records: seq<Record>, closed: set<QName>, path: seq<QName>)
    requires IsAffiliationPath(records, path) && path[0] in closed
    requires forall from, to :: from in closed && Affiliated(records, from, to) ==> to in closed
    ensures path[|path| - 1] in closed
    decreases |path|
  {
    if |path| > 1 {
      assert Affiliated(records, path[0], path[1]);
      var rest := path[1..];
      assert forall i :: 0 <= i < |rest| - 1 ==> Affiliated(records, rest[i], rest[i + 1]) by {
        assert forall i :: 0 <= i < |rest| ==> rest[i] == path[i + 1];
        forall i | 0 <= i < |rest| - 1
          ensures Affiliated(records, rest[i], rest[i + 1])
        {
          assert Affiliated(records, path[i + 1], path[i + 1 + 1]);
        }
      }
      ClosedUnderAffiliation(records, closed, rest);
    }
  }

  function ElementNames(records: seq<Record>): set<QName> {
    set r | 0 <= r < |records| && records[r].element.Some? :: records[r].name
  }

  /** Appends the affiliations of every element with the current name, repeats included. */
  method EnqueueAffiliations(records: seq<Record>, current: QName, queue: seq<QName>) returns (pending: seq<QName>)
    ensures queue <= pending
    ensures forall name :: name in pending[|queue|..] <==> Affiliated(records, current, name)
    ensures current !in ElementNames(records) ==> pending == queue
  {
    pending := queue;
    for r := 0 to |records|
      invariant queue <= pending
      invariant forall name :: name in pending[|queue|..] <==> Affiliated(records[..r], current, name)
      invariant current !in ElementNames(records) ==> pending == queue
    {
      var record := records[r];
      ghost var before := pending;
      AffiliatedByLast(records, r, current);
      if record.element.None? || record.name != current {
        continue;
      }
      assert current in ElementNames(records);
      var affiliations := record.element.value.substitutionGroup;
      for a := 0 to |affiliations|
        invariant pending == before + affiliations[..a]
      {
        pending := pending + [affiliations[a]];
      }
      assert pending[|queue|..] == before[|queue|..] + affiliations;
    }
    assert records[..|records|] == records;
  }

  lemma AffiliatedByLast(records: seq<Record>, r: nat, current: QName)
    requires r < |records|
    ensures forall name :: Affiliated(records[..r + 1], current, name) <==>
      || Affiliated(records[..r], current, name)
      || (records[r].element.Some? && records[r].name == current && name in records[r].element.value.substitutionGroup)
  {
    var longer, shorter := records[..r + 1], records[..r];
    assert longer == shorter + [records[r]];
    forall name | Affiliated(shorter, current, name)
      ensures Affiliated(longer, current, name)
    {
      var k :| 0 <= k < |shorter| && shorter[k].element.Some? && shorter[k].name == current &&
        name in shorter[k].element.value.substitutionGroup;
      assert longer[k] == shorter[k];
    }
    assert longer[r] == records[r];
  }

  /** Breadth-first search that may enqueue a name many times, on any affiliation relation. */
  method SubstitutionMayMatch(records: seq<Record>, head: QName, member: QName) returns (matches: bool)
    ensures matches <==> MayMatch(records, head, member)
  {
    hide Affiliated, MayMatch;
    var pending := [member];
    var seen: set<QName> := {};
    ReachesItself(records, member);
    while |pending| > 0
      invariant member in seen || member in pending
      invariant head !in seen
      invariant forall name <- pending :: MayMatch(records, name, member)
      invariant forall from, to :: from in seen && Affiliated(records, from, to) ==> to in seen || to in pending
      decreases ElementNames(records) - seen, |pending|
    {
      var current := pending[0];
      var rest := pending[1..];
      assert forall name :: name in pending <==> name == current || name in rest;
      if current == head {
        return true;
      }
      pending := rest;
      if current in seen {
        continue;
      }
      seen := seen + {current};
      pending := EnqueueAffiliations(records, current, rest);
      assert pending == rest + pending[|rest|..];
      forall name | name in pending[|rest|..]
        ensures MayMatch(records, name, member)
      {
        ReachesFurther(records, member, current, name);
      }
    }
    NotReached(records, seen, head, member);
    return false;
  }

  lemma NotReached(records: seq<Record>, closed: set<QName>, head: QName, member: QName)
    requires member in closed && head !in closed
    requires forall from, to :: from in closed && Affiliated(records, from, to) ==> to in closed
    ensures !MayMatch(records, head, member)
  {
    if MayMatch(records, head, member) {
      var path :| IsAffiliationPath(records, path) && path[0] == member && path[|path| - 1] == head;
      ClosedUnderAffiliation(records, closed, path);
    }
  }
}
