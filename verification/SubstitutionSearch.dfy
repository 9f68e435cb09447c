/**
 * The depth-first search for substitution-group members over arbitrary, possibly cyclic, affiliations
 * (codegen_substitution.go).
 */
module SubstitutionSearch {
  import opened Wrappers

  type Loc = nat

  datatype ComponentID = ComponentID(source: string, ordinal: nat)

  datatype Declaration = Declaration(id: ComponentID, isAbstract: bool, hasFacts: bool, affiliations: seq<ComponentID>,
    affiliationLocs: seq<Loc>)

  /** A schema component; only element components carry a declaration. */
  datatype Component = Component(id: ComponentID, isElement: bool, declaration: Option<Declaration>)

  type Schema = seq<Component>

  datatype FactError = MismatchedFacts | InvalidTarget | AbsentTarget | TargetKind | IncompleteFacts

  function Lookup(schema: Schema, id: ComponentID): (component: Option<Component>)
    ensures component.Some? ==> component.value in schema && component.value.id == id
  {
    if schema == [] then None else if schema[0].id == id then Some(schema[0]) else Lookup(schema[1..], id)
  }

  /** The declaration an affiliation leads to, or what is wrong with it. */
  function Target(schema: Schema, id: ComponentID): Result<Declaration, FactError> {
    if id.source == "" || id.ordinal == 0 then Err(InvalidTarget)
    else
      var component := Lookup(schema, id);
      if component.None? then Err(AbsentTarget)
      else if !component.value.isElement then Err(TargetKind)
      else
        var declaration := component.value.declaration;
        if declaration.None? || !declaration.value.hasFacts || declaration.value.id != id then Err(IncompleteFacts)
        else Ok(declaration.value)
  }

  predicate GoodFacts(schema: Schema, d: Declaration) {
    && |d.affiliations| == |d.affiliationLocs|
    && forall i :: 0 <= i < |d.affiliations| ==> Target(schema, d.affiliations[i]).Ok?
  }

  /** Completed schemas: identities are unique and every element has good facts. */
  predicate WellFormed(schema: Schema) {
    forall c <- schema :: c.declaration.Some? ==>
      Target(schema, c.id) == Ok(c.declaration.value) && GoodFacts(schema, c.declaration.value)
  }

  // ----- chains of affiliations

  /** `path` lists the affiliation locations of a real chain from the member to the head. */
  ghost predicate ChainTo(schema: Schema, member: Declaration, head: ComponentID, path: seq<Loc>)
    decreases |path|
  {
    if path == [] then member.id == head
    else
      exists i :: 0 <= i < |member.affiliations| && i < |member.affiliationLocs|
        && member.affiliationLocs[i] == path[0]
        && Target(schema, member.affiliations[i]).Ok?
        && ChainTo(schema, Target(schema, member.affiliations[i]).value, head, path[1..])
  }

  ghost predicate Reaches(schema: Schema, member: Declaration, head: ComponentID) {
    exists path :: ChainTo(schema, member, head, path)
  }

  /** Every affiliation of the node leads into the set. */
  ghost predicate Leads(schema: Schema, id: ComponentID, into: set<ComponentID>) {
    && Target(schema, id).Ok?
    && forall a <- Target(schema, id).value.affiliations :: a in into
  }

  /** Nodes closed under affiliation that avoid the head never reach it. */
  lemma {:induction false} ClosedSetAvoidsHead(schema: Schema, closed: set<ComponentID>, member: Declaration,
    head: ComponentID, path: seq<Loc>)
    requires head !in closed && forall id <- closed :: Leads(schema, id, closed)
    requires member.id in closed && Target(schema, member.id) == Ok(member)
    ensures !ChainTo(schema, member, head, path)
    decreases |path|
  {
    hide Target;
    if path != [] {
      assert Leads(schema, member.id, closed);
      forall i | 0 <= i < |member.affiliations| && Target(schema, member.affiliations[i]).Ok?
        ensures !ChainTo(schema, Target(schema, member.affiliations[i]).value, head, path[1..])
      {
        assert member.affiliations[i] in closed;
        TargetIdentity(schema, member.affiliations[i]);
        ClosedSetAvoidsHead(schema, closed, Target(schema, member.affiliations[i]).value, head, path[1..]);
      }
    }
  }

  lemma TargetIdentity(schema: Schema, id: ComponentID)
    ensures Target(schema, id).Ok? ==> Target(schema, id).value.id == id
  {
  }

  // ----- the search

  function Identities(schema: Schema): set<ComponentID> {
    set c <- schema :: c.id
  }

  class Search {
    const schema: Schema
    const head: ComponentID
    var visited: set<ComponentID>

    constructor (schema: Schema, head: ComponentID)
      ensures this.schema == schema && this.head == head && visited == {}
    {
      this.schema, this.head, this.visited := schema, head, {};
    }

    /** Nodes finished since `before`: none is the head and all their affiliations have been visited. */
    ghost predicate Finished(before: set<ComponentID>)
      reads this
    {
      before <= visited && forall id :: id in visited && id !in before ==> id != head && Leads(schema, id, visited)
    }

    /**
     * Finds a path from the member to the head. On a well-formed schema it never
     * fails; when it finds nothing all newly visited nodes are finished.
     */
    method FindPath(member: Declaration) returns (result: Result<Option<seq<Loc>>, FactError>)
      modifies this`visited
      ensures result.Ok? && result.value.Some? ==> ChainTo(schema, member, head, result.value.value)
      ensures WellFormed(schema) && Target(schema, member.id) == Ok(member) && GoodFacts(schema, member) ==> result.Ok?
      ensures old(visited) <= visited
      ensures result == Ok(None) && Target(schema, member.id) == Ok(member) ==>
        Finished(old(visited)) && member.id in visited
      ensures result == Ok(None) ==> member.id in visited && member.id != head
      decreases Identities(schema) + {member.id} - visited
    {
      hide Target, ChainTo, GoodFacts;
      if member.id == head {
        AtHead(member);
        return Ok(Some([]));
      }
      if member.id in visited {
        return Ok(None);
      }
      ghost var before := visited;
      visited := visited + {member.id};
      if |member.affiliations| != |member.affiliationLocs| {
        BadFacts(member, 0);
        return Err(MismatchedFacts);
      }
      for i := 0 to |member.affiliations|
        invariant before + {member.id} <= visited
        invariant Target(schema, member.id) == Ok(member) ==>
          forall id :: id in visited && id !in before && id != member.id ==> id != head && Leads(schema, id, visited)
        invariant forall k :: 0 <= k < i ==> member.affiliations[k] in visited
      {
        var target := Target(schema, member.affiliations[i]);
        if target.Err? {
          BadFacts(member, i);
          return Err(target.error);
        }
        var parent := target.value;
        TargetFacts(member, i);
        if parent.id == head {
          AtHead(parent);
          OneStep(member, i, []);
          assert [member.affiliationLocs[i]] + [] == [member.affiliationLocs[i]];
          return Ok(Some([member.affiliationLocs[i]]));
        }
        ghost var visitedBefore := visited;
        var deeper := FindPath(parent);
        if deeper.Err? {
          return Err(deeper.error);
        }
        if deeper.value.Some? {
          OneStep(member, i, deeper.value.value);
          return Ok(Some([member.affiliationLocs[i]] + deeper.value.value));
        }
        LeadsGrow(visitedBefore, visited);
      }
      return Ok(None);
    }

    lemma LeadsGrow(smaller: set<ComponentID>, larger: set<ComponentID>)
      requires smaller <= larger
      ensures forall id :: Leads(schema, id, smaller) ==> Leads(schema, id, larger)
    {
    }

    lemma AtHead(d: Declaration)
      ensures d.id == head ==> ChainTo(schema, d, head, [])
    {
    }

    lemma OneStep(member: Declaration, i: nat, path: seq<Loc>)
      requires i < |member.affiliations| == |member.affiliationLocs| && Target(schema, member.affiliations[i]).Ok?
      requires ChainTo(schema, Target(schema, member.affiliations[i]).value, head, path)
      ensures ChainTo(schema, member, head, [member.affiliationLocs[i]] + path)
    {
      hide Target;
      assert ([member.affiliationLocs[i]] + path)[1..] == path;
    }

    lemma BadFacts(member: Declaration, i: nat)
      requires |member.affiliations| != |member.affiliationLocs| || (i < |member.affiliations| &&
        Target(schema, member.affiliations[i]).Err?)
      ensures !GoodFacts(schema, member)
    {
    }

    /**
     * A target is the declaration of its identity, within the schema and, when the schema is well formed, of good
     * facts.
     */
    lemma TargetFacts(member: Declaration, i: nat)
      requires i < |member.affiliations| && Target(schema, member.affiliations[i]).Ok?
      ensures var parent := Target(schema, member.affiliations[i]).value;
        && parent.id == member.affiliations[i] && parent.id in Identities(schema)
        && Target(schema, parent.id) == Ok(parent)
        && (WellFormed(schema) ==> GoodFacts(schema, parent))
    {
      hide GoodFacts;
    }
  }

  /** The search decides reachability, and its path is a real chain. */
  method FindSubstitutionPath(schema: Schema, member: Declaration, head: ComponentID)
    returns (result: Result<Option<seq<Loc>>, FactError>)
    ensures result.Ok? && result.value.Some? ==> ChainTo(schema, member, head, result.value.value)
    ensures WellFormed(schema) && Target(schema, member.id) == Ok(member) && GoodFacts(schema, member) ==>
      result.Ok? && (result.value.Some? <==> Reaches(schema, member, head))
  {
    hide Target, ChainTo, GoodFacts;
    var search := new Search(schema, head);
    result := search.FindPath(member);
    if result == Ok(None) && Target(schema, member.id) == Ok(member) {
      forall path
        ensures !ChainTo(schema, member, head, path)
      {
        ClosedSetAvoidsHead(schema, search.visited, member, head, path);
      }
    }
  }

  /** Component `i` is a concrete element other than the head that reaches it. */
  ghost predicate IsMember(schema: Schema, i: nat, head: ComponentID)
    requires i < |schema|
  {
    && schema[i].isElement && schema[i].id != head
    && schema[i].declaration.Some? && !schema[i].declaration.value.isAbstract
    && Reaches(schema, schema[i].declaration.value, head)
  }

  /** Reports the first non-abstract member in schema order, with a chain to the head. */
  method FirstSubstitutionMember(schema: Schema, head: ComponentID)
    returns (result: Result<Option<(nat, seq<Loc>)>, FactError>)
    ensures WellFormed(schema) ==> result.Ok?
    ensures WellFormed(schema) && result.value.None? ==> forall i :: 0 <= i < |schema| ==> !IsMember(schema, i, head)
    ensures result.Ok? && result.value.Some? ==>
      var (index, path) := result.value.value;
      && index < |schema| && IsMember(schema, index, head)
      && ChainTo(schema, schema[index].declaration.value, head, path)
      && (WellFormed(schema) ==> forall i :: 0 <= i < index ==> !IsMember(schema, i, head))
  {
    hide Target, ChainTo, GoodFacts;
    for i := 0 to |schema|
      invariant WellFormed(schema) ==> forall k :: 0 <= k < i ==> !IsMember(schema, k, head)
    {
      var component := schema[i];
      if !component.isElement || component.id == head {
        continue;
      }
      if component.declaration.None? || component.declaration.value.isAbstract {
        continue;
      }
      var member := component.declaration.value;
      if WellFormed(schema) {
        assert component in schema;
        ComponentTarget(schema, component);
      }
      var found := FindSubstitutionPath(schema, member, head);
      if found.Err? {
        return Err(found.error);
      }
      if found.value.Some? {
        return Ok(Some((i, found.value.value)));
      }
    }
    return Ok(None);
  }

  lemma ComponentTarget(schema: Schema, c: Component)
    requires WellFormed(schema) && c in schema && c.declaration.Some?
    ensures var d := c.declaration.value;
      Target(schema, d.id) == Ok(d) && GoodFacts(schema, d)
  {
    TargetIdentity(schema, c.id);
    hide Target, GoodFacts;
  }
}
