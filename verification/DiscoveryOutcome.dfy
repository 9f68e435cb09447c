/** Discovery has one outcome: what it comes to is determined by its environment and root (discovery.go). */
module DiscoveryOutcome {
  import opened Wrappers
  import opened SchemaDiscovery
  import opened DiscoveryOrder

  // ----- prefixes

  lemma {:induction false} FirstsOfPrefix(ids: seq<SourceID>, n: nat)
    requires n <= |ids|
    ensures FirstOccurrences(ids[..n]) <= FirstOccurrences(ids)
    decreases |ids|
  {
    if n < |ids| {
      var front := ids[..|ids| - 1];
      FirstsOfPrefix(front, n);
      assert front[..n] == ids[..n] && front + [ids[|ids| - 1]] == ids;
      AppendOccurrence(front, ids[|ids| - 1]);
    } else {
      assert ids[..n] == ids;
    }
  }

  lemma {:induction false} MadeOfPrefix(documents: seq<Document>, k: nat)
    requires k <= |documents|
    ensures Made(documents[..k]) <= Made(documents)
    decreases |documents|
  {
    if k < |documents| {
      var front := documents[..|documents| - 1];
      MadeOfPrefix(front, k);
      assert front[..k] == documents[..k];
    } else {
      assert documents[..k] == documents;
    }
  }

  /** What an early document makes comes early. */
  lemma {:induction false} MadeEarly(documents: seq<Document>, k: nat, m: nat)
    requires k <= |documents| && m < |Made(documents)| && Maker(documents, m) < k
    ensures m < |Made(documents[..k])|
    decreases |documents|
  {
    var front := documents[..|documents| - 1];
    if k < |documents| {
      MadeEarly(front, k, m);
      assert front[..k] == documents[..k];
    } else {
      assert documents[..k] == documents;
    }
  }

  lemma FirstMentionOfPrefix(edges: seq<Edge>, n: nat, m: nat)
    requires m < n <= |edges|
    ensures FirstMention(edges[..n], edges[m].target) == FirstMention(edges, edges[m].target)
    ensures edges[m].target in Targets(edges[..n])
  {
    var id := edges[m].target;
    var i, j := FirstMention(edges[..n], id), FirstMention(edges, id);
    assert edges[..n][m] == edges[m];
    assert Targets(edges[..n])[m] == id;
    assert i < n ==> edges[..n][i] == edges[i];
    assert j < n ==> edges[..n][j] == edges[j];
  }

  // ----- what is taken when

  /** The identity that is decoded after `k` documents, once `edges` have been followed. */
  ghost predicate TakenAfter(root: Source, edges: seq<Edge>, k: nat, source: Source) {
    var ids := FirstOccurrences([root.id] + Targets(edges));
    k < |ids| && source == SourceOf(root, edges, ids[k])
  }

  lemma SameTaken(root: Source, edges: seq<Edge>, k: nat, one: Source, other: Source)
    requires TakenAfter(root, edges, k, one) && TakenAfter(root, edges, k, other)
    ensures one == other
  {
  }

  /** An edge to document `k` stands among the references of the documents before it. */
  lemma EarlyMention(environment: Environment, root: Source, at: Found, k: nat) returns (m: nat)
    requires PartialRun(environment, root, at) && 0 < k < |at.documents|
    ensures m < |Made(at.documents[..k])| && m < |at.edges| && at.edges[m].target == at.documents[k].id
  {
    hide Resolved, AsDecoded, FirstOccurrences, Made;
    assert GroundedAt(at.documents, at.edges, k);
    var mention, j :| 0 <= mention < |at.edges| && 0 <= j < k && MentionedBy(at.documents, at.edges, mention, j, k);
    m := mention;
    assert Followed(at.edges)[m] == Made(at.documents)[m];
    var maker := Maker(at.documents, m);
    assert DocumentIDs(at.documents)[maker] == DocumentIDs(at.documents)[j];
    MadeEarly(at.documents, k, m);
  }

  lemma EnoughEdges(at: Found, k: nat)
    requires InOrder(at) && k < |at.documents|
    ensures |Made(at.documents[..k])| <= |at.edges|
  {
    var front := at.documents[..|at.documents| - 1];
    MadeOfPrefix(front, k);
    assert front[..k] == at.documents[..k];
  }

  /** Document `k` is the source taken once the references of the documents before it have been followed. */
  lemma DocumentIsTaken(environment: Environment, root: Source, at: Found, k: nat) returns (source: Source)
    requires PartialRun(environment, root, at) && k < |at.documents|
    ensures |Made(at.documents[..k])| <= |at.edges|
    ensures
      && TakenAfter(root, at.edges[..|Made(at.documents[..k])|], k, source)
      && source.id == at.documents[k].id && environment.decode(source) == Decoded(at.documents[k].references)
  {
    hide Resolved, Grounded, FirstOccurrences, Made, Targets;
    EnoughEdges(at, k);
    var n := |Made(at.documents[..k])|;
    var early := at.edges[..n];
    var id := at.documents[k].id;
    var all, ids := FirstOccurrences([root.id] + Targets(at.edges)), FirstOccurrences([root.id] + Targets(early));
    FirstsOfTargets(root.id, at.edges, n);
    assert DocumentIDs(at.documents)[k] == id;
    assert id == all[k];
    source := SourceOf(root, at.edges, id);
    FirstIsFirst(root.id, Targets(at.edges));
    FirstIsFirst(root.id, Targets(early));
    if k > 0 {
      var m := EarlyMention(environment, root, at, k);
      FirstMentionOfPrefix(at.edges, n, m);
      assert id in [root.id] + Targets(early);
      var p :| 0 <= p < |ids| && ids[p] == id;
      assert all[p] == id;
      assert p == k;
    } else {
      assert root.id in [root.id] + Targets(early);
    }
    assert TakenAfter(root, early, k, source);
  }

  lemma FirstsOfTargets(root: SourceID, edges: seq<Edge>, n: nat)
    requires n <= |edges|
    ensures FirstOccurrences([root] + Targets(edges[..n])) <= FirstOccurrences([root] + Targets(edges))
  {
    var ids := [root] + Targets(edges);
    FirstsOfPrefix(ids, n + 1);
    assert ids[..n + 1] == [root] + Targets(edges[..n]);
  }

  // ----- two runs agree as far as both go

  lemma SameEdges(environment: Environment, root: Source, a: Found, b: Found, n: nat)
    requires PartialRun(environment, root, a) && PartialRun(environment, root, b)
    requires n <= |a.edges| && n <= |b.edges| && n <= |Made(a.documents)| && n <= |Made(b.documents)|
    requires Made(a.documents)[..n] == Made(b.documents)[..n]
    ensures a.edges[..n] == b.edges[..n]
  {
    hide AsDecoded, Grounded, FirstOccurrences, Made, InOrder;
    forall k | 0 <= k < n
      ensures a.edges[k] == b.edges[k]
    {
      assert Made(a.documents)[..n][k] == Made(b.documents)[..n][k];
      assert Followed(a.edges)[k] == Made(a.documents)[k];
      assert Followed(b.edges)[k] == Made(b.documents)[k];
    }
  }

  lemma {:induction false} SameDocuments(environment: Environment, root: Source, a: Found, b: Found, k: nat)
    requires PartialRun(environment, root, a) && PartialRun(environment, root, b)
    requires k <= |a.documents| && k <= |b.documents|
    ensures a.documents[..k] == b.documents[..k]
  {
    hide PartialRun;
    if k > 0 {
      SameDocuments(environment, root, a, b, k - 1);
      SameDocument(environment, root, a, b, k - 1);
      assert a.documents[..k] == a.documents[..k - 1] + [a.documents[k - 1]];
      assert b.documents[..k] == b.documents[..k - 1] + [b.documents[k - 1]];
    }
  }

  lemma SameDocument(environment: Environment, root: Source, a: Found, b: Found, k: nat)
    requires PartialRun(environment, root, a) && PartialRun(environment, root, b)
    requires k < |a.documents| && k < |b.documents| && a.documents[..k] == b.documents[..k]
    ensures a.documents[k] == b.documents[k]
  {
    var one := DocumentIsTaken(environment, root, a, k);
    var other := DocumentIsTaken(environment, root, b, k);
    EarlyEdges(environment, root, a, b, k);
    hide PartialRun, TakenAfter, Made, FirstOccurrences, SourceOf;
    SameTaken(root, a.edges[..|Made(a.documents[..k])|], k, one, other);
  }

  lemma EarlyEdges(environment: Environment, root: Source, a: Found, b: Found, k: nat)
    requires PartialRun(environment, root, a) && PartialRun(environment, root, b)
    requires k < |a.documents| && k < |b.documents| && a.documents[..k] == b.documents[..k]
    ensures |Made(a.documents[..k])| <= |a.edges| && |Made(a.documents[..k])| <= |b.edges|
    ensures a.edges[..|Made(a.documents[..k])|] == b.edges[..|Made(a.documents[..k])|]
  {
    EnoughEdges(a, k);
    EnoughEdges(b, k);
    MadeOfPrefix(a.documents, k);
    MadeOfPrefix(b.documents, k);
    hide PartialRun, Made;
    SameEdges(environment, root, a, b, |Made(a.documents[..k])|);
  }

  /** Of two runs, the one with fewer documents is the beginning of the other, as far as its edges go. */
  lemma Agree(environment: Environment, root: Source, a: Found, b: Found)
    requires PartialRun(environment, root, a) && PartialRun(environment, root, b)
    requires |a.documents| <= |b.documents|
    ensures a.documents <= b.documents && Made(a.documents) <= Made(b.documents)
    ensures |a.edges| <= |Made(a.documents)| && |b.edges| <= |Made(b.documents)|
    ensures |a.documents| < |b.documents| ==> |Made(a.documents)| <= |b.edges|
    ensures |a.edges| <= |b.edges| ==> a.edges <= b.edges
    ensures |b.edges| <= |a.edges| ==> b.edges <= a.edges
  {
    hide Resolved, AsDecoded, Grounded, FirstOccurrences, Made;
    var k := |a.documents|;
    SameDocuments(environment, root, a, b, k);
    assert a.documents[..k] == a.documents;
    MadeOfPrefix(b.documents, k);
    assert |Followed(a.edges)| == |a.edges| && |Followed(b.edges)| == |b.edges|;
    if k < |b.documents| {
      EnoughEdges(b, k);
    }
    var n := if |a.edges| <= |b.edges| then |a.edges| else |b.edges|;
    SameEdges(environment, root, a, b, n);
  }

  // ----- where a run ends

  /** The run goes further than the other. */
  predicate Further(b: Found, a: Found) {
    |a.documents| < |b.documents| || (|a.documents| == |b.documents| && |a.edges| < |b.edges|)
  }

  /** A run that goes further than all references decodes the next first mention. */
  lemma DecodesNext(environment: Environment, root: Source, a: Found, b: Found)
    requires PartialRun(environment, root, a) && PartialRun(environment, root, b)
    requires Followed(a.edges) == Made(a.documents) && Further(b, a)
    ensures exists source :: TakenAfter(root, a.edges, |a.documents|, source) && environment.decode(source).Decoded?
  {
    Agree(environment, root, a, b);
    assert |Followed(a.edges)| == |a.edges|;
    hide PartialRun, Made, TakenAfter, Followed;
    var k := |a.documents|;
    assert k == |b.documents| ==> a.documents == b.documents;
    var source := DocumentIsTaken(environment, root, b, k);
    assert b.documents[..k] == a.documents && b.edges[..|a.edges|] == a.edges;
  }

  /** No run goes on where nothing is left to decode, or where the next source fails to decode. */
  lemma NoneAfterLast(environment: Environment, root: Source, a: Found, p: Option<Problem>, b: Found)
    requires EndsBy(environment, root, a, p) && (p == None || p == Some(DocumentFailed))
    requires PartialRun(environment, root, b)
    ensures !Further(b, a)
  {
    hide PartialRun, FirstOccurrences, Made, Targets, RepeatsClosed, Grounded, Further, Followed, SourceOf;
    assert |DocumentIDs(a.documents)| == |a.documents|;
    if Further(b, a) {
      DecodesNext(environment, root, a, b);
    }
  }

  /** A run that goes further follows the next reference. */
  lemma FollowsNext(environment: Environment, root: Source, a: Found, b: Found)
    requires PartialRun(environment, root, a) && PartialRun(environment, root, b)
    requires Next(a).Some? && Further(b, a)
    ensures |a.edges| < |b.edges| && b.edges[|a.edges|].reference == Next(a).value
  {
    Agree(environment, root, a, b);
    hide Resolved, AsDecoded, FirstOccurrences, Made, Targets, Grounded, InOrder;
    var m := |a.edges|;
    assert Followed(b.edges)[m] == Made(b.documents)[m] == Made(a.documents)[m];
  }

  /** No run goes on after a reference that cannot be followed. */
  lemma NoneAfterReference(environment: Environment, root: Source, a: Found, p: Problem, b: Found)
    requires EndsBy(environment, root, a, Some(p)) && (p.NoResolver? || p.ResolveFailed? || p.InvalidSource?)
    requires PartialRun(environment, root, b)
    ensures !Further(b, a)
  {
    hide AsDecoded, FirstOccurrences, Made, Targets, RepeatsClosed, Grounded, InOrder, Next, Further, Followed;
    if Further(b, a) {
      FollowsNext(environment, root, a, b);
    }
  }

  lemma RepeatsOfPrefix(root: SourceID, edges: seq<Edge>, n: nat, m: nat)
    requires m < n <= |edges|
    ensures Repeats(root, edges[..n], m) <==> Repeats(root, edges, m)
  {
    assert edges[..n][..m] == edges[..m];
  }

  /** A repeated source that is not the last of a run was closed. */
  lemma RepeatClosed(environment: Environment, root: Source, b: Found, q: Option<Problem>, m: nat)
    requires EndsBy(environment, root, b, q) && m < |b.edges| && Repeats(root.id, b.edges, m)
    requires q.Some? && q.value.CloseFailed? ==> m < |b.edges| - 1
    ensures environment.closes(m + 1)
  {
    hide PartialRun, FirstOccurrences, Made, Targets, Discovered, Repeats, InOrder, Followed;
    if q.Some? && q.value.CloseFailed? {
      RepeatsOfPrefix(root.id, b.edges, |b.edges| - 1, m);
    }
  }

  /** No run goes on after a repeated source that cannot be closed. */
  lemma NoneAfterClose(environment: Environment, root: Source, a: Found, p: Problem, b: Found, q: Option<Problem>)
    requires EndsBy(environment, root, a, Some(p)) && p.CloseFailed? && EndsBy(environment, root, b, q)
    ensures !Further(b, a)
  {
    hide PartialRun, FirstOccurrences, Made, Targets, Discovered, Repeats, RepeatsClosed, InOrder, Followed;
    if Further(b, a) {
      Agree(environment, root, a, b);
      assert b.edges[..|a.edges|] == a.edges;
      RepeatsOfPrefix(root.id, b.edges, |a.edges|, |a.edges| - 1);
      if q.Some? && q.value.CloseFailed? {
        MoreEdges(environment, root, a, b);
      }
      RepeatClosed(environment, root, b, q, |a.edges| - 1);
    }
  }

  lemma MoreEdges(environment: Environment, root: Source, a: Found, b: Found)
    requires PartialRun(environment, root, a) && PartialRun(environment, root, b) && Further(b, a)
    requires b.edges != [] && InOrder(Found(b.documents, b.edges[..|b.edges| - 1]))
    ensures |a.edges| < |b.edges|
  {
    Agree(environment, root, a, b);
    hide PartialRun, Made;
    if |a.documents| < |b.documents| {
      EnoughEdges(Found(b.documents, b.edges[..|b.edges| - 1]), |a.documents|);
      assert b.documents[..|a.documents|] == a.documents;
    }
  }

  lemma NoneAfter(environment: Environment, root: Source, a: Found, p: Option<Problem>, b: Found, q: Option<Problem>)
    requires EndsBy(environment, root, a, p) && EndsBy(environment, root, b, q)
    ensures !Further(b, a)
  {
    hide PartialRun, Explains, Discovered;
    match p {
      case None => NoneAfterLast(environment, root, a, p, b);
      case Some(DocumentFailed) => NoneAfterLast(environment, root, a, p, b);
      case Some(CloseFailed(_)) => NoneAfterClose(environment, root, a, p.value, b, q);
      case Some(InvalidPolicy) => NotByPolicy(environment, root, a);
      case Some(_) => NoneAfterReference(environment, root, a, p.value, b);
    }
  }

  lemma NotByPolicy(environment: Environment, root: Source, at: Found)
    ensures !Explains(environment, root, at, InvalidPolicy)
  {
  }

  /** At one point a run ends in one way. */
  lemma OneEnd(environment: Environment, root: Source, at: Found, p: Option<Problem>, q: Option<Problem>)
    requires EndsBy(environment, root, at, p) && EndsBy(environment, root, at, q)
    ensures p == q
  {
    hide PartialRun, FirstOccurrences, Made, Targets, Grounded;
    assert |Followed(at.edges)| == |at.edges| && |DocumentIDs(at.documents)| == |at.documents|;
  }

  /** An environment and a root have one stopping point, and one primary problem if any. */
  lemma OnePrimaryProblem(environment: Environment, root: Source, a: Found, p: Option<Problem>, b: Found,
                          q: Option<Problem>)
    requires EndsBy(environment, root, a, p) && EndsBy(environment, root, b, q)
    ensures a == b && p == q
  {
    NoneAfter(environment, root, a, p, b, q);
    NoneAfter(environment, root, b, q, a, p);
    Agree(environment, root, a, b);
    hide PartialRun, Explains, Discovered, RepeatsClosed, Made;
    assert a.documents == b.documents && a.edges == b.edges;
    OneEnd(environment, root, a, p, q);
  }

  /** What discovery comes to is determined: the graph found, or all problems in their order. */
  lemma OneAnswer(environment: Environment, root: Source, a: Found, one: Result<Found, Problems>, b: Found,
                  other: Result<Found, Problems>)
    requires Answers(environment, root, a, one) && Answers(environment, root, b, other)
    ensures a == b && one == other
  {
    hide PartialRun, Explains, Discovered, RepeatsClosed, Failure;
    var p := if one.Ok? then None else Some(one.error[0]);
    var q := if other.Ok? then None else Some(other.error[0]);
    OnePrimaryProblem(environment, root, a, p, b, q);
  }
}
