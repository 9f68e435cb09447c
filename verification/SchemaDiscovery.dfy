/** First-in-first-out schema discovery with exactly-once closing (discovery.go). */
module SchemaDiscovery {
  import opened Wrappers

  type SourceID = string

  datatype Reference = Reference(namespaceURN: string, schemaLocation: string)

  /** A resolved source; the handle tells apart the readers that resolver calls return. */
  datatype Source = Source(id: SourceID, hasContext: bool, hasReader: bool, handle: nat)

  /** What a resolver call returns: a source, possibly together with an error. */
  datatype Resolution = Resolution(id: SourceID, hasContext: bool, hasReader: bool, failed: bool)

  /** The later phases of one document, in order; decoding closes its own source. */
  datatype Decoding =
    | DecodeFails
    | ConditionalsFail
    | StructureFails
    | ReferencesFail
    | Decoded(references: seq<Reference>)

  /** The resolver at each call, the decoder, and whether closing a reader succeeds. */
  datatype Environment = Environment(
    hasResolver: bool,
    resolve: (nat, Reference) -> Resolution,
    decode: Source -> Decoding,
    closes: nat -> bool)

  datatype Edge = Edge(source: SourceID, target: SourceID, reference: Reference)

  datatype Document = Document(id: SourceID, references: seq<Reference>)

  datatype Problem =
    | InvalidPolicy | InvalidSource | NoResolver | ResolveFailed | CloseFailed(handle: nat) | DocumentFailed

  /** All problems of a failed discovery, the primary one first. */
  type Problems = seq<Problem>

  const ROOT_HANDLE: nat := 0

  predicate ValidSource(source: Source) {
    source.hasContext && source.id != "" && source.hasReader
  }

  // ----- breadth-first order

  /** The list without repeats, keeping first occurrences. */
  function FirstOccurrences(ids: seq<SourceID>): (firsts: seq<SourceID>)
    ensures forall id :: id in firsts <==> id in ids
    ensures forall i, j :: 0 <= i < j < |firsts| ==> firsts[i] != firsts[j]
  {
    if ids == [] then []
    else
      var front := FirstOccurrences(ids[..|ids| - 1]);
      assert ids == ids[..|ids| - 1] + [ids[|ids| - 1]];
      if ids[|ids| - 1] in front then front else front + [ids[|ids| - 1]]
  }

  function Targets(edges: seq<Edge>): seq<SourceID> {
    seq(|edges|, i requires 0 <= i < |edges| => edges[i].target)
  }

  function DocumentIDs(documents: seq<Document>): seq<SourceID> {
    seq(|documents|, i requires 0 <= i < |documents| => documents[i].id)
  }

  function QueuedIDs(queue: seq<Source>): seq<SourceID> {
    seq(|queue|, i requires 0 <= i < |queue| => queue[i].id)
  }

  /** The reference that each edge follows, with the document that makes it. */
  function Followed(edges: seq<Edge>): seq<(SourceID, Reference)> {
    seq(|edges|, i requires 0 <= i < |edges| => (edges[i].source, edges[i].reference))
  }

  function MadeBy(id: SourceID, references: seq<Reference>): seq<(SourceID, Reference)> {
    seq(|references|, i requires 0 <= i < |references| => (id, references[i]))
  }

  /** All references of all documents, in document order. */
  function Made(documents: seq<Document>): seq<(SourceID, Reference)> {
    if documents == [] then []
    else
      var last := documents[|documents| - 1];
      Made(documents[..|documents| - 1]) + MadeBy(last.id, last.references)
  }

  lemma AppendOccurrence(ids: seq<SourceID>, id: SourceID)
    ensures FirstOccurrences(ids + [id]) == if id in ids then FirstOccurrences(ids) else FirstOccurrences(ids) + [id]
  {
    assert (ids + [id])[..|ids|] == ids;
  }

  // ----- what a run did, as its documents and edges tell it

  datatype Found = Found(documents: seq<Document>, edges: seq<Edge>)

  /** The position of the first edge to an identity, or the number of edges. */
  function FirstMention(edges: seq<Edge>, id: SourceID): (m: nat)
    ensures m <= |edges| && (m < |edges| ==> edges[m].target == id)
    ensures forall k :: 0 <= k < m ==> edges[k].target != id
  {
    if edges == [] || edges[0].target == id then 0 else 1 + FirstMention(edges[1..], id)
  }

  /** The source decoded for an identity: the root, or what the call at its first mention returned. */
  function SourceOf(root: Source, edges: seq<Edge>, id: SourceID): Source {
    if id == root.id then root else Source(id, true, true, FirstMention(edges, id) + 1)
  }

  predicate ValidResolution(resolution: Resolution) {
    !resolution.failed && resolution.hasContext && resolution.id != "" && resolution.hasReader
  }

  /** Each edge ends at the valid source that the resolver gave for its reference, call after call. */
  ghost predicate Resolved(environment: Environment, edges: seq<Edge>) {
    forall k :: 0 <= k < |edges| ==>
      var resolution := environment.resolve(k, edges[k].reference);
      && environment.hasResolver && !resolution.failed && resolution.hasContext && resolution.hasReader
      && edges[k].target == resolution.id != ""
  }

  /** Every document is its source as decoded. */
  ghost predicate AsDecoded(environment: Environment, root: Source, at: Found) {
    forall i :: 0 <= i < |at.documents| ==>
      environment.decode(SourceOf(root, at.edges, at.documents[i].id)) == Decoded(at.documents[i].references)
  }

  /** Every document but the first is the target of an edge from an earlier document. */
  ghost predicate Grounded(documents: seq<Document>, edges: seq<Edge>) {
    forall k :: 0 < k < |documents| ==> GroundedAt(documents, edges, k)
  }

  ghost predicate GroundedAt(documents: seq<Document>, edges: seq<Edge>, k: int)
    requires 0 < k < |documents|
  {
    exists m, j :: 0 <= m < |edges| && 0 <= j < k && MentionedBy(documents, edges, m, j, k)
  }

  ghost predicate MentionedBy(documents: seq<Document>, edges: seq<Edge>, m: int, j: int, k: int)
    requires 0 <= m < |edges| && 0 <= j < |documents| && 0 <= k < |documents|
  {
    edges[m].source == documents[j].id && edges[m].target == documents[k].id
  }

  predicate Mentioned(root: SourceID, edges: seq<Edge>, id: SourceID) {
    id == root || id in Targets(edges)
  }

  /** The edge at `m` repeats a source, whose reader is closed at once. */
  predicate Repeats(root: SourceID, edges: seq<Edge>, m: nat)
    requires m < |edges|
  {
    Mentioned(root, edges[..m], edges[m].target)
  }

  /** Every close of a repeated source's reader succeeded. */
  ghost predicate RepeatsClosed(environment: Environment, root: SourceID, edges: seq<Edge>) {
    forall m :: 0 <= m < |edges| && Repeats(root, edges, m) ==> environment.closes(m + 1)
  }

  /** An unfinished run: decoding and following go on in breadth-first order, one reference after the other. */
  ghost predicate PartialRun(environment: Environment, root: Source, at: Found) {
    && Resolved(environment, at.edges) && AsDecoded(environment, root, at) && Grounded(at.documents, at.edges)
    && DocumentIDs(at.documents) <= FirstOccurrences([root.id] + Targets(at.edges))
    && Followed(at.edges) <= Made(at.documents) && InOrder(at)
  }

  /** The references of all documents before the last have been followed. */
  predicate InOrder(at: Found) {
    at.documents != [] ==> |Made(at.documents[..|at.documents| - 1])| <= |at.edges|
  }

  /** A finished run: all first mentions decoded, all references followed, every later document mentioned earlier. */
  ghost predicate Discovered(root: SourceID, at: Found) {
    && DocumentIDs(at.documents) == FirstOccurrences([root] + Targets(at.edges))
    && Followed(at.edges) == Made(at.documents)
    && Grounded(at.documents, at.edges)
  }

  /** The next reference to follow. */
  function Next(at: Found): Option<Reference> {
    if |at.edges| < |Made(at.documents)| then Some(Made(at.documents)[|at.edges|].1) else None
  }

  /** The run goes on with the next reference, nothing having failed before. */
  ghost predicate AtReference(environment: Environment, root: SourceID, at: Found) {
    Next(at).Some? && RepeatsClosed(environment, root, at.edges)
  }

  /** The problem is what went wrong at the point that the run had reached, and nothing went wrong before. */
  ghost predicate Explains(environment: Environment, root: Source, at: Found, problem: Problem) {
    match problem
    case InvalidPolicy => false
    case NoResolver => AtReference(environment, root.id, at) && !environment.hasResolver
    case ResolveFailed =>
      && AtReference(environment, root.id, at) && environment.hasResolver
      && environment.resolve(|at.edges|, Next(at).value).failed
    case InvalidSource =>
      && AtReference(environment, root.id, at) && environment.hasResolver
      && var resolution := environment.resolve(|at.edges|, Next(at).value);
         !resolution.failed && (!resolution.hasContext || resolution.id == "" || !resolution.hasReader)
    case CloseFailed(handle) =>
      && at.edges != [] && handle == |at.edges| && Repeats(root.id, at.edges, handle - 1) && !environment.closes(handle)
      && RepeatsClosed(environment, root.id, at.edges[..handle - 1])
      && InOrder(Found(at.documents, at.edges[..handle - 1]))
    case DocumentFailed =>
      var ids := FirstOccurrences([root.id] + Targets(at.edges));
      && Followed(at.edges) == Made(at.documents) && RepeatsClosed(environment, root.id, at.edges)
      && |at.documents| < |ids| && !environment.decode(SourceOf(root, at.edges, ids[|at.documents|])).Decoded?
  }

  /** The reader of a source that the last call returned and the run refused. */
  function Refused(environment: Environment, at: Found, problem: Problem): seq<nat> {
    if (problem.ResolveFailed? || problem.InvalidSource?) && Next(at).Some? &&
      environment.resolve(|at.edges|, Next(at).value).hasReader
    then [|at.edges| + 1] else []
  }

  /** The readers of the first mentions not yet taken; a document that fails has been taken, and closes its own. */
  function Waiting(root: Source, at: Found, problem: Problem): seq<nat> {
    var ids := FirstOccurrences([root.id] + Targets(at.edges));
    var taken := |at.documents| + if problem.DocumentFailed? then 1 else 0;
    if taken <= |ids| then SourceHandles(root, at.edges, ids[taken..]) else []
  }

  function SourceHandles(root: Source, edges: seq<Edge>, ids: seq<SourceID>): seq<nat> {
    seq(|ids|, i requires 0 <= i < |ids| => SourceOf(root, edges, ids[i]).handle)
  }

  /** The handles up to a number: that of the root, and those of so many calls. */
  function UpTo(n: nat): (handles: set<nat>)
    ensures forall handle: nat :: handle in handles <==> handle <= n
  {
    if n == 0 then {0} else UpTo(n - 1) + {n}
  }

  /** The readers obtained: those of the root and of every edge, and that of a refused source. */
  function ReadersObtained(environment: Environment, at: Found, problem: Problem): set<nat> {
    UpTo(|at.edges|) + set handle | handle in Refused(environment, at, problem)
  }

  /** The run is finished, or the problem stopped it. */
  ghost predicate EndsBy(environment: Environment, root: Source, at: Found, problem: Option<Problem>) {
    && PartialRun(environment, root, at)
    && match problem
       case None => Discovered(root.id, at) && RepeatsClosed(environment, root.id, at.edges)
       case Some(primary) => Explains(environment, root, at, primary)
  }

  /** What a run comes to: everything that was found, or all that went wrong at the point reached. */
  ghost predicate Answers(environment: Environment, root: Source, at: Found, result: Result<Found, Problems>) {
    match result
    case Ok(found) => found == at && EndsBy(environment, root, at, None)
    case Err(problems) =>
      && problems != [] && EndsBy(environment, root, at, Some(problems[0]))
      && problems == Failure(environment, root, at, problems[0])
  }

  /** The primary problem, a failed close of the refused source, and the failed closes of what waits in the queue. */
  function Failure(environment: Environment, root: Source, at: Found, primary: Problem): Problems {
    [primary] + CloseFailures(environment, Refused(environment, at, primary))
    + CloseFailures(environment, Waiting(root, at, primary))
  }

  /** The failed closes of a list of readers, in order. */
  function CloseFailures(environment: Environment, handles: seq<nat>): Problems {
    if handles == [] then []
    else
      CloseFailures(environment, handles[..|handles| - 1])
      + if environment.closes(handles[|handles| - 1]) then [] else [CloseFailed(handles[|handles| - 1])]
  }

  lemma OneCloseFailure(environment: Environment, handle: nat)
    ensures CloseFailures(environment, [handle]) == if environment.closes(handle) then [] else [CloseFailed(handle)]
  {
    assert [handle][..0] == [];
  }

  // ----- one more edge

  lemma MentionStays(edges: seq<Edge>, edge: Edge, id: SourceID)
    ensures id in Targets(edges + [edge]) <==> id in Targets(edges) || edge.target == id
    ensures id in Targets(edges) <==> FirstMention(edges, id) < |edges|
    ensures FirstMention(edges + [edge], id) ==
      if id in Targets(edges) then FirstMention(edges, id)
      else if edge.target == id then |edges| else |edges| + 1
  {
    var all := edges + [edge];
    var m, n := FirstMention(edges, id), FirstMention(all, id);
    assert Targets(all) == Targets(edges) + [edge.target];
    assert id in Targets(edges) <==> m < |edges| by {
      if m < |edges| { assert Targets(edges)[m] == id; }
      if id in Targets(edges) {
        var k :| 0 <= k < |edges| && Targets(edges)[k] == id;
        assert edges[k].target == id;
      }
    }
    if m < |edges| {
      assert all[m] == edges[m];
      assert n < |edges| ==> all[n] == edges[n];
    } else {
      assert all[|edges|] == edge;
      assert forall k :: 0 <= k < |edges| ==> all[k].target == edges[k].target != id;
    }
  }

  lemma DecodedStays(environment: Environment, root: Source, at: Found, edge: Edge)
    requires AsDecoded(environment, root, at)
    requires forall d <- at.documents :: Mentioned(root.id, at.edges, d.id)
    ensures AsDecoded(environment, root, Found(at.documents, at.edges + [edge]))
  {
    forall i | 0 <= i < |at.documents|
      ensures SourceOf(root, at.edges + [edge], at.documents[i].id) == SourceOf(root, at.edges, at.documents[i].id)
    {
      assert Mentioned(root.id, at.edges, at.documents[i].id);
      MentionStays(at.edges, edge, at.documents[i].id);
    }
  }

  lemma GroundedStays(documents: seq<Document>, edges: seq<Edge>, edge: Edge)
    requires Grounded(documents, edges)
    ensures Grounded(documents, edges + [edge])
  {
    forall k | 0 < k < |documents|
      ensures GroundedAt(documents, edges + [edge], k)
    {
      assert GroundedAt(documents, edges, k);
      var m, j :| 0 <= m < |edges| && 0 <= j < k && MentionedBy(documents, edges, m, j, k);
      assert MentionedBy(documents, edges + [edge], m, j, k);
    }
  }

  /** A document with an edge from an earlier one keeps the run grounded. */
  lemma GroundedGrows(documents: seq<Document>, edges: seq<Edge>, last: Document)
    requires Grounded(documents, edges)
    requires documents != [] ==>
      exists m, j :: 0 <= m < |edges| && 0 <= j < |documents|
        && edges[m].source == documents[j].id && edges[m].target == last.id
    ensures Grounded(documents + [last], edges)
  {
    var all := documents + [last];
    forall k | 0 < k < |all|
      ensures GroundedAt(all, edges, k)
    {
      if k < |documents| {
        assert GroundedAt(documents, edges, k);
        var m, j :| 0 <= m < |edges| && 0 <= j < k && MentionedBy(documents, edges, m, j, k);
        assert MentionedBy(all, edges, m, j, k);
      } else {
        var m, j :| 0 <= m < |edges| && 0 <= j < |documents|
          && edges[m].source == documents[j].id && edges[m].target == last.id;
        assert MentionedBy(all, edges, m, j, k);
      }
    }
  }

  /** Documents and edges are as the resolver and the decoder gave them, and queued sources wait for theirs. */
  ghost predicate GoesOn(environment: Environment, start: Source, at: Found, queue: seq<Source>) {
    && Resolved(environment, at.edges) && AsDecoded(environment, start, at) && Grounded(at.documents, at.edges)
    && (forall i :: 0 <= i < |queue| ==> queue[i] == SourceOf(start, at.edges, queue[i].id))
    && (forall e <- at.edges :: e.source in DocumentIDs(at.documents))
  }

  lemma GoesOnAtFirst(environment: Environment, start: Source)
    ensures GoesOn(environment, start, Found([], []), [start])
  {
  }

  lemma OnlyRoot(root: Source)
    ensures FirstOccurrences([root.id] + Targets([])) == DocumentIDs([]) + QueuedIDs([root])
    ensures forall id :: id in [root.id] + Targets([]) <==> id == root.id
    ensures multiset(HandlesOf([root])) == multiset{root.handle} == multiset({root.handle})
  {
    OneOccurrence(root.id);
    hide FirstOccurrences;
    assert [root.id] + Targets([]) == [root.id];
    assert DocumentIDs([]) + QueuedIDs([root]) == [root.id];
    assert HandlesOf([root]) == [root.handle];
  }

  lemma OneOccurrence(id: SourceID)
    ensures FirstOccurrences([id]) == [id]
  {
    assert [id][..0] == [];
  }

  lemma GoesOnWithEdge(environment: Environment, start: Source, at: Found, queue: seq<Source>, edge: Edge)
    requires GoesOn(environment, start, at, queue) && edge.source in DocumentIDs(at.documents)
    requires forall d <- at.documents :: Mentioned(start.id, at.edges, d.id)
    requires forall source <- queue :: Mentioned(start.id, at.edges, source.id)
    requires var resolution := environment.resolve(|at.edges|, edge.reference);
      environment.hasResolver && ValidResolution(resolution) && edge.target == resolution.id
    ensures GoesOn(environment, start, Found(at.documents, at.edges + [edge]), queue)
  {
    DecodedStays(environment, start, at, edge);
    GroundedStays(at.documents, at.edges, edge);
    ResolvedGrows(environment, at.edges, edge);
    hide AsDecoded, Grounded, Mentioned, Resolved, SourceOf, DocumentIDs;
    forall i | 0 <= i < |queue|
      ensures SourceOf(start, at.edges + [edge], queue[i].id) == SourceOf(start, at.edges, queue[i].id)
    {
      assert Mentioned(start.id, at.edges, queue[i].id);
      MentionedSourceStays(start, at.edges, edge, queue[i].id);
    }
  }

  lemma ResolvedGrows(environment: Environment, edges: seq<Edge>, edge: Edge)
    requires Resolved(environment, edges)
    requires var resolution := environment.resolve(|edges|, edge.reference);
      environment.hasResolver && ValidResolution(resolution) && edge.target == resolution.id
    ensures Resolved(environment, edges + [edge])
  {
  }

  lemma MentionedSourceStays(start: Source, edges: seq<Edge>, edge: Edge, id: SourceID)
    requires Mentioned(start.id, edges, id)
    ensures SourceOf(start, edges + [edge], id) == SourceOf(start, edges, id)
  {
    MentionStays(edges, edge, id);
  }

  lemma GoesOnWithDocument(environment: Environment, start: Source, at: Found, queue: seq<Source>,
                           references: seq<Reference>)
    requires GoesOn(environment, start, at, queue) && queue != []
    requires environment.decode(queue[0]) == Decoded(references)
    requires at.documents == [] || queue[0].id in Targets(at.edges)
    ensures GoesOn(environment, start, Found(at.documents + [Document(queue[0].id, references)], at.edges), queue[1..])
  {
    hide Resolved;
    var last := Document(queue[0].id, references);
    if at.documents != [] {
      var m :| 0 <= m < |at.edges| && Targets(at.edges)[m] == last.id;
      assert at.edges[m] in at.edges;
      var j :| 0 <= j < |at.documents| && DocumentIDs(at.documents)[j] == at.edges[m].source;
    }
    GroundedGrows(at.documents, at.edges, last);
    assert DocumentIDs(at.documents + [last]) == DocumentIDs(at.documents) + [last.id];
  }

  lemma FirstIsFirst(root: SourceID, ids: seq<SourceID>)
    ensures FirstOccurrences([root] + ids)[0] == root
    decreases |ids|
  {
    var all := [root] + ids;
    if ids == [] {
      AppendOccurrence([], root);
      assert all == [] + [root];
    } else {
      var front := ids[..|ids| - 1];
      FirstIsFirst(root, front);
      AppendOccurrence([root] + front, ids[|ids| - 1]);
      assert all == [root] + front + [ids[|ids| - 1]];
    }
  }

  /** Closing repeats, one edge further. */
  lemma RepeatsAppend(environment: Environment, root: SourceID, edges: seq<Edge>, edge: Edge)
    requires RepeatsClosed(environment, root, edges)
    ensures Repeats(root, edges + [edge], |edges|) <==> Mentioned(root, edges, edge.target)
    ensures RepeatsClosed(environment, root, edges + [edge]) <==>
      (Mentioned(root, edges, edge.target) ==> environment.closes(|edges| + 1))
  {
    hide Mentioned;
    var all := edges + [edge];
    assert all[..|edges|] == edges;
    forall m | 0 <= m < |edges|
      ensures Repeats(root, all, m) <==> Repeats(root, edges, m)
    {
      assert all[..m] == edges[..m];
    }
  }

  lemma CloseFailuresAppend(environment: Environment, handles: seq<nat>, handle: nat)
    ensures CloseFailures(environment, handles + [handle]) ==
      CloseFailures(environment, handles) + if environment.closes(handle) then [] else [CloseFailed(handle)]
  {
    assert (handles + [handle])[..|handles|] == handles;
  }

  lemma NewSource(start: Source, edges: seq<Edge>, edge: Edge)
    requires !Mentioned(start.id, edges, edge.target)
    ensures SourceOf(start, edges + [edge], edge.target) == Source(edge.target, true, true, |edges| + 1)
  {
    MentionStays(edges, edge, edge.target);
  }

  /** The reference to follow after `i` references of the last document. */
  lemma NextIs(at: Found, before: seq<(SourceID, Reference)>, id: SourceID, references: seq<Reference>, i: nat)
    requires Made(at.documents) == before + MadeBy(id, references) && i < |references|
    requires Followed(at.edges) == before + MadeBy(id, references[..i])
    requires at.documents != [] && before == Made(at.documents[..|at.documents| - 1])
    ensures Next(at) == Some(references[i]) && InOrder(at)
    ensures Followed(at.edges) <= Made(at.documents) && Followed(at.edges) + [(id, references[i])] <= Made(at.documents)
  {
    hide Made;
    assert |Followed(at.edges)| == |at.edges| == |before| + i;
    assert MadeBy(id, references)[i] == (id, references[i]);
    assert MadeBy(id, references)[..i] == MadeBy(id, references[..i]);
    var made := Made(at.documents);
    assert made[|before| + i] == (id, references[i]);
    assert made[..|before| + i] == before + MadeBy(id, references)[..i];
  }

  lemma {:induction false} CloseFailuresMean(environment: Environment, handles: seq<nat>)
    ensures forall p <- CloseFailures(environment, handles) ::
      p.CloseFailed? && !environment.closes(p.handle) && p.handle in handles
  {
    if handles != [] {
      CloseFailuresMean(environment, handles[..|handles| - 1]);
    }
  }

  // ----- the discovery state

  class Discovery {
    const environment: Environment
    const start: Source
    const root: SourceID := start.id
    var seen: set<SourceID>
    var queue: seq<Source>
    var documents: seq<Document>
    var edges: seq<Edge>
    var calls: nat
    /** Handles of all readers obtained, and every closing of one. */
    ghost var obtained: set<nat>
    ghost var closed: multiset<nat>

    ghost function Handles(): multiset<nat>
      reads this`queue
    {
      multiset(HandlesOf(queue))
    }

    /** Every reader obtained has been closed once, waits in the queue, or is `pending`. */
    ghost predicate Accounted(pending: multiset<nat>)
      reads this`obtained, this`closed, this`queue, this`calls
    {
      && multiset(obtained) == closed + Handles() + pending
      && (forall handle :: handle in obtained ==> handle <= calls)
      && (forall source <- queue :: source.hasReader)
    }

    function At(): Found
      reads this`documents, this`edges
    {
      Found(documents, edges)
    }

    /** Documents and edges are as the resolver and the decoder gave them, and queued sources wait for theirs. */
    ghost predicate Going()
      reads this`documents, this`edges, this`queue
    {
      GoesOn(environment, start, At(), queue)
    }

    /** Decoded and queued sources, in this order, are the first mentions from the root on. */
    ghost predicate BreadthFirst()
      reads this`documents, this`queue, this`edges, this`seen
    {
      && FirstOccurrences([root] + Targets(edges)) == DocumentIDs(documents) + QueuedIDs(queue)
      && (forall id :: id in seen <==> id in [root] + Targets(edges))
    }

    /** Every call gave an edge, and every reader obtained is that of the root or of an edge. */
    ghost predicate Counted()
      reads this`edges, this`calls, this`obtained
    {
      calls == |edges| && obtained == UpTo(calls)
    }

    /** The problems of the call that stopped the run, and the readers obtained by then. */
    ghost predicate StoppedBy(problems: Problems)
      reads this`documents, this`edges, this`obtained
    {
      && problems != [] && Explains(environment, start, At(), problems[0])
      && problems == [problems[0]] + CloseFailures(environment, Refused(environment, At(), problems[0]))
      && obtained == ReadersObtained(environment, At(), problems[0])
    }

    constructor (environment: Environment, root: Source)
      requires root.hasReader && root.handle == ROOT_HANDLE
      ensures this.environment == environment && start == root
      ensures Accounted(multiset{}) && BreadthFirst() && Going() && Counted()
      ensures queue == [root] && documents == [] && edges == [] && seen == {root.id}
    {
      this.environment, start := environment, root;
      seen, queue, documents, edges, calls := {root.id}, [root], [], [], 0;
      obtained, closed := {ROOT_HANDLE}, multiset{};
      new;
      hide FirstOccurrences, GoesOn, Targets, HandlesOf, QueuedIDs, DocumentIDs;
      GoesOnAtFirst(environment, root);
      OnlyRoot(root);
    }

    lemma Drained()
      requires Accounted(multiset{}) && queue == []
      ensures closed == multiset(obtained)
      ensures BreadthFirst() ==> FirstOccurrences([root] + Targets(edges)) == DocumentIDs(documents)
    {
      assert HandlesOf(queue) == [] && QueuedIDs(queue) == [];
      assert DocumentIDs(documents) + [] == DocumentIDs(documents);
    }

    method CloseSource(source: Source) returns (problem: Option<Problem>)
      modifies this`closed
      ensures closed == old(closed) + Reader(source)
      ensures problem == if source.hasReader && !environment.closes(source.handle) then Some(CloseFailed(source.handle))
        else None
    {
      if !source.hasReader {
        return None;
      }
      closed := closed + multiset{source.handle};
      if !environment.closes(source.handle) {
        return Some(CloseFailed(source.handle));
      }
      return None;
    }

    method CloseSourceOnError(source: Source, primary: Problem) returns (problems: Problems)
      modifies this`closed
      ensures closed == old(closed) + Reader(source)
      ensures problems == [primary] + CloseFailures(environment, if source.hasReader then [source.handle] else [])
    {
      OneCloseFailure(environment, source.handle);
      var problem := CloseSource(source);
      return if problem.None? then [primary] else [primary, problem.value];
    }

    /** Calls the resolver; the returned source's reader is now pending. */
    method Obtain(reference: Reference) returns (source: Source, failed: bool)
      requires Accounted(multiset{})
      modifies this`calls, this`obtained
      ensures calls == old(calls) + 1
      ensures Accounted(Reader(source))
      ensures obtained == old(obtained) + if source.hasReader then {source.handle} else {}
      ensures var resolution := environment.resolve(old(calls), reference);
        && source == Source(resolution.id, resolution.hasContext, resolution.hasReader, calls)
        && failed == resolution.failed
    {
      var resolution := environment.resolve(calls, reference);
      calls := calls + 1;
      source := Source(resolution.id, resolution.hasContext, resolution.hasReader, calls);
      failed := resolution.failed;
      if source.hasReader {
        NewHandle(obtained, source.handle);
        obtained := obtained + {source.handle};
      }
    }

    /** Closes a pending source. */
    method Release(source: Source) returns (problem: Option<Problem>)
      requires Accounted(Reader(source))
      modifies this`closed
      ensures Accounted(multiset{})
      ensures problem == if source.hasReader && !environment.closes(source.handle) then Some(CloseFailed(source.handle))
        else None
    {
      problem := CloseSource(source);
    }

    method ReleaseOnError(source: Source, primary: Problem) returns (problems: Problems)
      requires Accounted(Reader(source))
      modifies this`closed
      ensures Accounted(multiset{})
      ensures problems == [primary] + CloseFailures(environment, if source.hasReader then [source.handle] else [])
    {
      problems := CloseSourceOnError(source, primary);
    }

    /** The next first mention, not yet queued, is `id`. */
    ghost predicate Awaits(id: SourceID)
      reads this`documents, this`queue, this`edges, this`seen
    {
      && FirstOccurrences([root] + Targets(edges)) == DocumentIDs(documents) + QueuedIDs(queue) + [id]
      && forall other :: other in [root] + Targets(edges) <==> other in seen || other == id
    }

    lemma AllMentioned()
      requires BreadthFirst()
      ensures forall d <- documents :: Mentioned(root, edges, d.id)
      ensures forall source <- queue :: Mentioned(root, edges, source.id)
      ensures forall id :: id in seen <==> Mentioned(root, edges, id)
    {
      hide FirstOccurrences, Targets;
      forall d | d in documents
        ensures Mentioned(root, edges, d.id)
      {
        DocumentIDsContain(documents, d.id);
        assert d.id in DocumentIDs(documents) + QueuedIDs(queue);
      }
      forall source | source in queue
        ensures Mentioned(root, edges, source.id)
      {
        var i :| 0 <= i < |queue| && queue[i] == source;
        assert QueuedIDs(queue)[i] == source.id;
        assert source.id in DocumentIDs(documents) + QueuedIDs(queue);
      }
    }

    method RecordEdge(edge: Edge)
      requires BreadthFirst()
      modifies this`edges
      ensures edges == old(edges) + [edge]
      ensures Followed(edges) == Followed(old(edges)) + [(edge.source, edge.reference)]
      ensures if edge.target in seen then BreadthFirst() else Awaits(edge.target)
    {
      hide FirstOccurrences;
      EdgeAdded(edges, edge);
      AppendOccurrence([root] + Targets(edges), edge.target);
      edges := edges + [edge];
    }

    /** Queues a pending source of a new identity. */
    method Intern(source: Source, ghost ids: set<SourceID>)
      requires Accounted(Reader(source)) && source.hasReader
      requires Awaits(source.id) && source.id in ids - seen
      requires Going() && source == SourceOf(start, edges, source.id)
      modifies this`seen, this`queue
      ensures Accounted(multiset{}) && BreadthFirst() && Going()
      ensures seen == old(seen) + {source.id} && |ids - seen| + |queue| == |ids - old(seen)| + |old(queue)|
    {
      hide FirstOccurrences, Resolved, AsDecoded, Grounded, SourceOf, Targets;
      ghost var queueBefore := queue;
      seen := seen + {source.id};
      queue := queue + [source];
      assert ids - old(seen) == (ids - seen) + {source.id};
      assert HandlesOf(queue) == HandlesOf(queueBefore) + [source.handle];
      assert QueuedIDs(queue) == QueuedIDs(queueBefore) + [source.id];
    }

    /** Follows one reference: resolves it, records its edge, and queues the source when it is new. */
    method Enqueue(sourceID: SourceID, reference: Reference, ghost ids: set<SourceID>) returns (problems: Problems)
      requires forall call: nat, r :: environment.resolve(call, r).id in ids
      requires Accounted(multiset{}) && BreadthFirst() && Going() && seen <= ids && Counted()
      requires sourceID in DocumentIDs(documents) && Next(At()) == Some(reference) && InOrder(At())
      requires RepeatsClosed(environment, root, edges)
      modifies this`seen, this`queue, this`edges, this`calls, this`obtained, this`closed
      ensures Accounted(multiset{}) && BreadthFirst() && Going() && seen <= ids && InOrder(At())
      ensures problems == [] ==>
        && Counted() && Followed(edges) == Followed(old(edges)) + [(sourceID, reference)]
        && RepeatsClosed(environment, root, edges)
        && |ids - seen| + |queue| == |ids - old(seen)| + |old(queue)|
      ensures problems != [] ==>
        && StoppedBy(problems) && !problems[0].DocumentFailed?
        && (edges == old(edges) || Followed(edges) == Followed(old(edges)) + [(sourceID, reference)])
    {
      hide Accounted, BreadthFirst, GoesOn, Awaits, Followed, Made, Targets, Mentioned, RepeatsClosed, Reader;
      hide SourceOf, CloseFailures, InOrder, Next, StoppedBy, Explains, UpTo;
      if !environment.hasResolver {
        StoppedWithoutResolver();
        return [NoResolver];
      }
      var source, failed := Obtain(reference);
      if failed {
        problems := ReleaseOnError(source, ResolveFailed);
        StoppedByRefusal(reference, source, ResolveFailed);
        return;
      }
      if !ValidSource(source) {
        problems := ReleaseOnError(source, InvalidSource);
        StoppedByRefusal(reference, source, InvalidSource);
        return;
      }
      OneMoreReader(|edges|);
      problems := Follow(sourceID, reference, source, ids);
    }

    /** Records the edge to a pending valid source, and queues the source when it is new. */
    method Follow(sourceID: SourceID, reference: Reference, source: Source, ghost ids: set<SourceID>)
      returns (problems: Problems)
      requires Accounted(Reader(source)) && BreadthFirst() && Going() && seen <= ids
      requires calls == |edges| + 1 && obtained == UpTo(calls) && InOrder(At())
      requires sourceID in DocumentIDs(documents) && RepeatsClosed(environment, root, edges)
      requires source == Source(source.id, true, true, calls) && source.id in ids
      requires var resolution := environment.resolve(|edges|, reference);
        environment.hasResolver && ValidResolution(resolution) && source.id == resolution.id
      modifies this`seen, this`queue, this`edges, this`closed
      ensures Accounted(multiset{}) && BreadthFirst() && Going() && seen <= ids && InOrder(At())
      ensures Counted() && Followed(edges) == Followed(old(edges)) + [(sourceID, reference)]
      ensures problems == [] ==>
        RepeatsClosed(environment, root, edges) && |ids - seen| + |queue| == |ids - old(seen)| + |old(queue)|
      ensures problems != [] ==> StoppedBy(problems) && problems == [CloseFailed(|edges|)]
    {
      hide Accounted, BreadthFirst, GoesOn, Awaits, Reader, Followed, Made, Targets, Mentioned, RepeatsClosed, SourceOf;
      hide Repeats, CloseFailures, StoppedBy, Explains, InOrder, FirstOccurrences;
      ghost var edge := Edge(sourceID, source.id, reference);
      AllMentioned();
      RecordEdge(Edge(sourceID, source.id, reference));
      GoesOnWithEdge(environment, start, Found(documents, old(edges)), queue, edge);
      RepeatsAppend(environment, root, old(edges), edge);
      StaysInOrder(documents, old(edges), edge);
      if source.id in seen {
        var problem := Release(source);
        if problem.None? {
          return [];
        }
        StoppedByRepeat(old(edges), edge);
        return [problem.value];
      }
      NewSource(start, old(edges), edge);
      Intern(source, ids);
      return [];
    }

    /** A problem without a refused source stops the run alone. */
    lemma StoppedAtOnce(problem: Problem)
      requires Counted() && Explains(environment, start, At(), problem)
      requires !problem.ResolveFailed? && !problem.InvalidSource?
      ensures StoppedBy([problem])
    {
      hide Explains, CloseFailures;
      NoCloseFailures(environment);
      assert [problem] + [] == [problem];
      assert (set handle | handle in Refused(environment, At(), problem)) == {};
    }

    lemma StoppedByRepeat(before: seq<Edge>, edge: Edge)
      requires edges == before + [edge] && Counted() && InOrder(Found(documents, before))
      requires RepeatsClosed(environment, root, before) && Mentioned(root, before, edge.target)
      requires !environment.closes(|edges|)
      ensures StoppedBy([CloseFailed(|edges|)])
    {
      hide RepeatsClosed, Mentioned, InOrder;
      assert edges[..|edges| - 1] == before;
      StoppedAtOnce(CloseFailed(|edges|));
    }

    lemma StoppedWithoutResolver()
      requires Counted() && Next(At()).Some? && RepeatsClosed(environment, root, edges) && !environment.hasResolver
      ensures StoppedBy([NoResolver])
    {
      hide RepeatsClosed, Next;
      StoppedAtOnce(NoResolver);
    }

    /** A refused source stops the run with its own failed close. */
    lemma StoppedByRefusal(reference: Reference, source: Source, primary: Problem)
      requires primary.ResolveFailed? || primary.InvalidSource?
      requires Next(At()) == Some(reference) && RepeatsClosed(environment, root, edges) && environment.hasResolver
      requires var resolution := environment.resolve(|edges|, reference);
        && source.hasReader == resolution.hasReader && source.handle == |edges| + 1
        && if primary.ResolveFailed? then resolution.failed else !resolution.failed && !ValidResolution(resolution)
      requires obtained == UpTo(|edges|) + if source.hasReader then {source.handle} else {}
      ensures
        StoppedBy([primary] + CloseFailures(environment, if source.hasReader then [source.handle] else []))
    {
      hide RepeatsClosed, CloseFailures, Next, UpTo;
      var refused := Refused(environment, At(), primary);
      assert refused == if source.hasReader then [source.handle] else [];
      assert (set handle | handle in refused) == if source.hasReader then {source.handle} else {};
    }

    /** The queue holds the first mentions that wait to be decoded. */
    lemma QueueWaits(problem: Problem)
      requires Going() && BreadthFirst()
      ensures !problem.DocumentFailed? ==> HandlesOf(queue) == Waiting(start, At(), problem)
      ensures problem.DocumentFailed? && queue != [] ==> HandlesOf(queue[1..]) == Waiting(start, At(), problem)
    {
      hide FirstOccurrences, Targets, Resolved, AsDecoded, Grounded, SourceOf;
      var ids := FirstOccurrences([root] + Targets(edges));
      assert ids[|documents|..] == QueuedIDs(queue);
      if queue != [] {
        assert ids[|documents| + 1..] == QueuedIDs(queue)[1..];
      }
    }

    lemma EdgeAdded(before: seq<Edge>, edge: Edge)
      ensures [root] + Targets(before + [edge]) == [root] + Targets(before) + [edge.target]
      ensures Followed(before + [edge]) == Followed(before) + [(edge.source, edge.reference)]
    {
    }

    /** Closes every queued source; close problems follow the primary ones. */
    method Finish(primary: Problems) returns (problems: Problems)
      requires Accounted(multiset{})
      modifies this`queue, this`closed
      ensures queue == [] && Accounted(multiset{})
      ensures problems == primary + CloseFailures(environment, HandlesOf(old(queue)))
    {
      hide CloseFailures, HandlesOf;
      problems := primary;
      var items := queue;
      assert forall source <- items :: source.hasReader;
      NoHandles(items[..0]);
      NoCloseFailures(environment);
      for i := 0 to |items|
        invariant closed == old(closed) + multiset(HandlesOf(items[..i]))
        invariant problems == primary + CloseFailures(environment, HandlesOf(items[..i]))
      {
        var problem := CloseSource(items[i]);
        OneMoreHandle(items, i);
        CloseFailuresAppend(environment, HandlesOf(items[..i]), items[i].handle);
        if problem.Some? {
          problems := problems + [problem.value];
        }
      }
      assert items[..|items|] == items;
      queue := [];
      NoHandles(queue);
    }

    /** Takes the first queued source and decodes it, which closes it. */
    method DecodeNext() returns (references: Option<seq<Reference>>)
      requires queue != [] && Accounted(multiset{}) && BreadthFirst() && Going() && Counted()
      requires Followed(edges) == Made(documents) && RepeatsClosed(environment, root, edges)
      modifies this`queue, this`documents, this`closed
      ensures Accounted(multiset{})
      ensures references.Some? ==>
        && BreadthFirst() && Going() && queue == old(queue)[1..]
        && documents == old(documents) + [Document(old(queue)[0].id, references.value)]
      ensures references.None? ==>
        && documents == old(documents) && StoppedBy([DocumentFailed])
        && HandlesOf(queue) == Waiting(start, At(), DocumentFailed)
    {
      hide FirstOccurrences, Targets, GoesOn, SourceOf, HandlesOf, QueuedIDs, DocumentIDs, Followed, Made, MadeBy,
        Mentioned, RepeatsClosed, Waiting, StoppedBy;
      FirstQueued();
      QueueWaits(DocumentFailed);
      var item := queue[0];
      FirstOff(queue);
      queue := queue[1..];
      var decoding := environment.decode(item);
      closed := closed + multiset{item.handle};
      if !decoding.Decoded? {
        StoppedAtOnce(DocumentFailed);
        return None;
      }
      documents := documents + [Document(item.id, decoding.references)];
      LastIsDocument(old(documents), Document(item.id, decoding.references));
      assert DocumentIDs(documents) + QueuedIDs(queue) == DocumentIDs(old(documents)) + QueuedIDs(old(queue));
      GoesOnWithDocument(environment, start, Found(old(documents), edges), old(queue), decoding.references);
      return Some(decoding.references);
    }

    lemma FirstQueued()
      requires Going() && BreadthFirst() && queue != []
      ensures queue[0] == SourceOf(start, edges, queue[0].id)
      ensures |documents| < |FirstOccurrences([root] + Targets(edges))|
      ensures FirstOccurrences([root] + Targets(edges))[|documents|] == queue[0].id
      ensures documents == [] || queue[0].id in Targets(edges)
    {
      hide FirstOccurrences, Targets, Resolved, AsDecoded, Grounded, SourceOf;
      var ids := FirstOccurrences([root] + Targets(edges));
      assert QueuedIDs(queue)[0] == queue[0].id;
      assert ids[|documents|] == queue[0].id;
      FirstIsFirst(root, Targets(edges));
      assert queue[0].id in [root] + Targets(edges);
    }

    /** Between two steps, the run so far is a partial run. */
    lemma Underway()
      requires Going() && BreadthFirst() && Followed(edges) <= Made(documents) && InOrder(At())
      ensures PartialRun(environment, start, At())
      ensures queue == [] && Followed(edges) == Made(documents) ==> Discovered(root, At())
    {
      assert queue == [] ==> DocumentIDs(documents) + QueuedIDs(queue) == DocumentIDs(documents);
      hide FirstOccurrences, Targets, Resolved, AsDecoded, Grounded, SourceOf, Followed, Made, InOrder;
    }

    lemma QueueObtained()
      requires Accounted(multiset{})
      ensures forall handle <- HandlesOf(queue) :: handle in obtained
    {
      forall handle | handle in HandlesOf(queue)
        ensures handle in obtained
      {
        assert handle in Handles();
        assert handle in multiset(obtained);
      }
    }

    /** Takes the first queued source through decoding and follows all its references. */
    method Process(ghost ids: set<SourceID>) returns (problems: Problems)
      requires forall call: nat, r :: environment.resolve(call, r).id in ids
      requires queue != [] && Accounted(multiset{}) && BreadthFirst() && Going() && seen <= ids && Counted()
      requires Followed(edges) == Made(documents) && RepeatsClosed(environment, root, edges)
      modifies this
      ensures Accounted(multiset{})
      ensures problems == [] ==>
        && BreadthFirst() && Going() && seen <= ids && Counted()
        && Followed(edges) == Made(documents) && RepeatsClosed(environment, root, edges)
        && |ids - seen| + |queue| == |ids - old(seen)| + |old(queue)| - 1
      ensures problems != [] ==>
        && PartialRun(environment, start, At()) && StoppedBy(problems)
        && HandlesOf(queue) == Waiting(start, At(), problems[0])
    {
      hide Accounted, BreadthFirst, GoesOn, Followed, Made, MadeBy, RepeatsClosed, PartialRun, StoppedBy, Waiting;
      hide InOrder, HandlesOf, Counted, DocumentIDs, QueuedIDs;
      var id := queue[0].id;
      AllInOrder(At());
      Underway();
      var decoded := DecodeNext();
      if decoded.None? {
        return [DocumentFailed];
      }
      MadeByLast(old(documents), Document(id, decoded.value));
      problems := FollowAll(old(documents), id, decoded.value, ids);
    }

    /** Follows the references of the last document, in order. */
    method FollowAll(ghost before: seq<Document>, id: SourceID, references: seq<Reference>, ghost ids: set<SourceID>)
      returns (problems: Problems)
      requires forall call: nat, r :: environment.resolve(call, r).id in ids
      requires Accounted(multiset{}) && BreadthFirst() && Going() && seen <= ids && Counted()
      requires documents == before + [Document(id, references)] && Followed(edges) == Made(before)
      requires RepeatsClosed(environment, root, edges)
      modifies this`seen, this`queue, this`edges, this`calls, this`obtained, this`closed
      ensures Accounted(multiset{})
      ensures problems == [] ==>
        && BreadthFirst() && Going() && seen <= ids && Counted()
        && Followed(edges) == Followed(old(edges)) + MadeBy(id, references) && RepeatsClosed(environment, root, edges)
        && |ids - seen| + |queue| == |ids - old(seen)| + |old(queue)|
      ensures problems != [] ==>
        && PartialRun(environment, start, At()) && StoppedBy(problems)
        && HandlesOf(queue) == Waiting(start, At(), problems[0])
    {
      hide Accounted, BreadthFirst, GoesOn, Followed, Made, MadeBy, RepeatsClosed, PartialRun, StoppedBy, Waiting;
      hide InOrder, HandlesOf, Counted, DocumentIDs, QueuedIDs, Next;
      MadeNothing(id);
      MadeByLast(before, Document(id, references));
      LastIsDocument(before, Document(id, references));
      assert documents[..|documents| - 1] == before;
      for i := 0 to |references|
        invariant Accounted(multiset{}) && BreadthFirst() && Going() && seen <= ids && Counted()
        invariant RepeatsClosed(environment, root, edges)
        invariant Followed(edges) == Made(before) + MadeBy(id, references[..i])
        invariant |ids - seen| + |queue| == |ids - old(seen)| + |old(queue)|
      {
        MadeOneMore(id, references, i);
        NextIs(At(), Made(before), id, references, i);
        problems := Enqueue(id, references[i], ids);
        if problems != [] {
          Underway();
          QueueWaits(problems[0]);
          return;
        }
      }
      assert references[..|references|] == references;
      return [];
    }
  }

  lemma AllInOrder(at: Found)
    requires Followed(at.edges) == Made(at.documents)
    ensures InOrder(at)
  {
    assert |Followed(at.edges)| == |at.edges|;
  }

  lemma StaysInOrder(documents: seq<Document>, edges: seq<Edge>, edge: Edge)
    requires InOrder(Found(documents, edges))
    ensures InOrder(Found(documents, edges + [edge]))
  {
  }

  lemma OneMoreReader(n: nat)
    ensures UpTo(n + 1) == UpTo(n) + {n + 1}
  {
  }

  lemma NoHandles(queue: seq<Source>)
    requires queue == []
    ensures HandlesOf(queue) == []
  {
  }

  lemma FirstOff(queue: seq<Source>)
    requires queue != []
    ensures HandlesOf(queue) == [queue[0].handle] + HandlesOf(queue[1..])
    ensures multiset(HandlesOf(queue)) == multiset{queue[0].handle} + multiset(HandlesOf(queue[1..]))
    ensures QueuedIDs(queue) == [queue[0].id] + QueuedIDs(queue[1..])
  {
    assert HandlesOf(queue) == [queue[0].handle] + HandlesOf(queue[1..]);
  }

  lemma OneMoreHandle(items: seq<Source>, i: nat)
    requires i < |items|
    ensures HandlesOf(items[..i + 1]) == HandlesOf(items[..i]) + [items[i].handle]
    ensures multiset(HandlesOf(items[..i + 1])) == multiset(HandlesOf(items[..i])) + multiset{items[i].handle}
  {
    assert HandlesOf(items[..i + 1]) == HandlesOf(items[..i]) + [items[i].handle];
  }

  lemma NoCloseFailures(environment: Environment)
    ensures CloseFailures(environment, []) == []
  {
  }

  lemma MadeNothing(id: SourceID)
    ensures MadeBy(id, []) == []
  {
  }

  lemma LastIsDocument(documents: seq<Document>, last: Document)
    ensures DocumentIDs(documents + [last]) == DocumentIDs(documents) + [last.id]
    ensures last.id in DocumentIDs(documents + [last])
  {
    assert DocumentIDs(documents + [last])[|documents|] == last.id;
  }

  lemma MadeOneMore(id: SourceID, references: seq<Reference>, i: nat)
    requires i < |references|
    ensures MadeBy(id, references[..i + 1]) == MadeBy(id, references[..i]) + [(id, references[i])]
  {
  }

  lemma MadeByLast(documents: seq<Document>, last: Document)
    ensures Made(documents + [last]) == Made(documents) + MadeBy(last.id, last.references)
  {
    assert (documents + [last])[..|documents|] == documents;
  }

  lemma NewHandle(handles: set<nat>, handle: nat)
    requires handle !in handles
    ensures multiset(handles + {handle}) == multiset(handles) + multiset{handle}
  {
  }

  function HandlesOf(queue: seq<Source>): seq<nat> {
    seq(|queue|, i requires 0 <= i < |queue| => queue[i].handle)
  }

  /** The reader that a source holds. */
  function Reader(source: Source): multiset<nat> {
    if source.hasReader then multiset{source.handle} else multiset{}
  }

  /**
   * Discovers all documents from the root, over any resolver whose source
   * identities come from a finite set. On every exit each reader obtained has
   * been closed exactly once, and the readers obtained are that of the root,
   * those of the edges, and that of a source refused last. On success the
   * documents are the sources first mentioned from the root on, in
   * breadth-first order, each decoded once, the edges are exactly the
   * references of the documents, in order, and every close succeeded. On
   * failure `at` is how far the run came, the primary problem is what went
   * wrong there, and exactly the failed closes follow: that of the refused
   * source, then those of the sources still waiting, in order.
   */
  method DiscoverSyntax(environment: Environment, validPolicy: bool, root: Source, ghost ids: set<SourceID>)
    returns (result: Result<Found, Problems>, ghost at: Found, ghost obtained: set<nat>, ghost closed: multiset<nat>)
    requires root.handle == ROOT_HANDLE && root.id in ids
    requires forall call: nat, r :: environment.resolve(call, r).id in ids
    ensures closed == multiset(obtained)
    ensures !validPolicy || !root.hasContext || root.id == "" || !root.hasReader ==>
      result == Err([if validPolicy then InvalidSource else InvalidPolicy] +
                    CloseFailures(environment, if root.hasReader then [ROOT_HANDLE] else []))
    ensures !validPolicy || !root.hasContext || root.id == "" || !root.hasReader ==>
      obtained == (if root.hasReader then {ROOT_HANDLE} else {}) && at == Found([], [])
    ensures validPolicy && root.hasContext && root.id != "" && root.hasReader ==>
      Answers(environment, root, at, result)
    ensures validPolicy && root.hasContext && root.id != "" && root.hasReader ==>
      obtained == if result.Ok? then UpTo(|at.edges|) else ReadersObtained(environment, at, result.error[0])
    ensures PartialRun(environment, root, at)
    ensures result.Err? ==> result.error != [] && forall i :: 0 < i < |result.error| ==>
      var later := result.error[i];
      later.CloseFailed? && !environment.closes(later.handle) && later.handle in obtained
  {
    hide Discovery.Accounted, Discovery.BreadthFirst, Discovery.Going, FirstOccurrences, Followed, Made, Targets,
      DocumentIDs;
    hide PartialRun, Discovered, RepeatsClosed, Explains, CloseFailures, Refused, Waiting, HandlesOf;
    at := Found([], []);
    NothingFollowed(environment, root);
    if !validPolicy {
      result, closed := CloseInvalidRoot(environment, root, InvalidPolicy);
      obtained := if root.hasReader then {root.handle} else {};
      CloseFailuresMean(environment, if root.hasReader then [root.handle] else []);
      return;
    }
    if !ValidSource(root) {
      result, closed := CloseInvalidRoot(environment, root, InvalidSource);
      obtained := if root.hasReader then {root.handle} else {};
      CloseFailuresMean(environment, if root.hasReader then [root.handle] else []);
      return;
    }
    var discovery := new Discovery(environment, root);
    while |discovery.queue| > 0
      invariant discovery.environment == environment && discovery.start == root
      invariant discovery.Accounted(multiset{}) && discovery.BreadthFirst() && discovery.Going() &&
        discovery.seen <= ids && discovery.Counted()
      invariant Followed(discovery.edges) == Made(discovery.documents)
      invariant RepeatsClosed(environment, root.id, discovery.edges)
      decreases |ids - discovery.seen| + |discovery.queue|
    {
      var problems := discovery.Process(ids);
      if problems != [] {
        at := discovery.At();
        discovery.QueueObtained();
        problems := discovery.Finish(problems);
        discovery.Drained();
        LaterProblems(environment, root, at, problems[0]);
        return Err(problems), at, discovery.obtained, discovery.closed;
      }
    }
    at := discovery.At();
    discovery.Drained();
    AllInOrder(at);
    discovery.Underway();
    return Ok(discovery.At()), at, discovery.obtained, discovery.closed;
  }

  /** After the primary problem come failed closes of readers refused or waiting. */
  lemma LaterProblems(environment: Environment, root: Source, at: Found, primary: Problem)
    ensures var problems := Failure(environment, root, at, primary);
      forall i :: 0 < i < |problems| ==>
        && problems[i].CloseFailed? && !environment.closes(problems[i].handle)
        && (problems[i].handle in Refused(environment, at, primary) || problems[i].handle in Waiting(root, at, primary))
  {
    hide CloseFailures, Refused, Waiting;
    CloseFailuresMean(environment, Refused(environment, at, primary));
    CloseFailuresMean(environment, Waiting(root, at, primary));
  }

  method CloseInvalidRoot(environment: Environment, root: Source, primary: Problem)
    returns (result: Result<Found, Problems>, ghost closed: multiset<nat>)
    ensures result == Err([primary] + CloseFailures(environment, if root.hasReader then [root.handle] else []))
    ensures closed == Reader(root)
  {
    OneCloseFailure(environment, root.handle);
    NoCloseFailures(environment);
    assert [primary] + [] == [primary];
    assert [primary] + [CloseFailed(root.handle)] == [primary, CloseFailed(root.handle)];
    closed := Reader(root);
    if root.hasReader && !environment.closes(root.handle) {
      return Err([primary, CloseFailed(root.handle)]), closed;
    }
    return Err([primary]), closed;
  }

  lemma NothingFollowed(environment: Environment, root: Source)
    ensures Followed([]) == Made([]) && RepeatsClosed(environment, root.id, [])
    ensures PartialRun(environment, root, Found([], []))
  {
  }

  // ----- what the success contract means

  lemma {:induction false} MadeContains(documents: seq<Document>)
    ensures forall d <- documents, r <- d.references :: (d.id, r) in Made(documents)
    ensures forall made <- Made(documents) :: exists d <- documents :: d.id == made.0 && made.1 in d.references
  {
    if documents != [] {
      var front, last := documents[..|documents| - 1], documents[|documents| - 1];
      MadeContains(front);
      assert documents == front + [last];
      forall r | r in last.references
        ensures (last.id, r) in MadeBy(last.id, last.references)
      {
        var i :| 0 <= i < |last.references| && last.references[i] == r;
        assert MadeBy(last.id, last.references)[i] == (last.id, r);
      }
      forall made | made in Made(documents)
        ensures exists d <- documents :: d.id == made.0 && made.1 in d.references
      {
        if made in Made(front) {
          var d :| d in front && d.id == made.0 && made.1 in d.references;
          assert d in documents;
        } else {
          assert last in documents;
        }
      }
    }
  }

  lemma TargetsContain(edges: seq<Edge>, id: SourceID)
    ensures id in Targets(edges) <==> exists e <- edges :: e.target == id
  {
    if id in Targets(edges) {
      var k :| 0 <= k < |edges| && Targets(edges)[k] == id;
      assert edges[k] in edges;
    }
    forall e | e in edges && e.target == id
      ensures id in Targets(edges)
    {
      var k :| 0 <= k < |edges| && edges[k] == e;
      assert Targets(edges)[k] == id;
    }
  }

  lemma FollowedContain(edges: seq<Edge>, id: SourceID, r: Reference)
    ensures (id, r) in Followed(edges) <==> exists e <- edges :: e.source == id && e.reference == r
  {
    if (id, r) in Followed(edges) {
      var k :| 0 <= k < |edges| && Followed(edges)[k] == (id, r);
      assert edges[k] in edges;
    }
    forall e | e in edges && e.source == id && e.reference == r
      ensures (id, r) in Followed(edges)
    {
      var k :| 0 <= k < |edges| && edges[k] == e;
      assert Followed(edges)[k] == (id, r);
    }
  }

  lemma DocumentIDsContain(documents: seq<Document>, id: SourceID)
    ensures id in DocumentIDs(documents) <==> exists d <- documents :: d.id == id
    ensures |DocumentIDs(documents)| == |documents|
    ensures forall i :: 0 <= i < |documents| ==> DocumentIDs(documents)[i] == documents[i].id
  {
    forall d | d in documents && d.id == id
      ensures id in DocumentIDs(documents)
    {
      var k :| 0 <= k < |documents| && documents[k] == d;
      assert DocumentIDs(documents)[k] == id;
    }
  }

  /**
   * No source is decoded twice, every edge joins decoded documents, and every document but the root is the target of an
   * edge.
   */
  lemma DiscoveredGraphIsClosed(root: SourceID, documents: seq<Document>, edges: seq<Edge>)
    requires DocumentIDs(documents) == FirstOccurrences([root] + Targets(edges))
    requires Followed(edges) == Made(documents)
    ensures forall i, j :: 0 <= i < j < |documents| ==> documents[i].id != documents[j].id
    ensures forall e <- edges :: e.source in DocumentIDs(documents) && e.target in DocumentIDs(documents)
    ensures forall id <- DocumentIDs(documents) :: id == root || exists e <- edges :: e.target == id
    ensures forall d <- documents, r <- d.references :: exists e <- edges :: e.source == d.id && e.reference == r
  {
    hide FirstOccurrences, Made, Followed, Targets, DocumentIDs;
    MadeContains(documents);
    var ids := DocumentIDs(documents);
    DocumentIDsContain(documents, root);
    forall i, j | 0 <= i < j < |documents|
      ensures documents[i].id != documents[j].id
    {
      assert ids[i] != ids[j];
    }
    forall e | e in edges
      ensures e.source in ids && e.target in ids
    {
      TargetsContain(edges, e.target);
      FollowedContain(edges, e.source, e.reference);
      DocumentIDsContain(documents, e.source);
    }
    forall id | id in ids && id != root
      ensures exists e <- edges :: e.target == id
    {
      TargetsContain(edges, id);
    }
    forall d, r | d in documents && r in d.references
      ensures exists e <- edges :: e.source == d.id && e.reference == r
    {
      FollowedContain(edges, d.id, r);
    }
  }
}
