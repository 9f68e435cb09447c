/** Reachability and distance in the graph that discovery finds (discovery.go). */
module DiscoveryOrder {
  import opened SchemaDiscovery

  // ----- chains of edges

  ghost predicate Joins(edges: seq<Edge>, from: SourceID, to: SourceID) {
    exists m :: 0 <= m < |edges| && edges[m].source == from && edges[m].target == to
  }

  /** A chain of edges from the first identity of the path to its last. */
  ghost predicate IsChain(edges: seq<Edge>, path: seq<SourceID>) {
    path != [] && forall i :: 0 <= i < |path| - 1 ==> Joins(edges, path[i], path[i + 1])
  }

  ghost predicate ChainTo(edges: seq<Edge>, root: SourceID, id: SourceID, path: seq<SourceID>) {
    IsChain(edges, path) && path[0] == root && path[|path| - 1] == id
  }

  ghost predicate Reachable(edges: seq<Edge>, root: SourceID, id: SourceID) {
    exists path :: ChainTo(edges, root, id, path)
  }

  /** Chains to the identity have at least this many edges, and one has exactly as many. */
  ghost predicate Distance(edges: seq<Edge>, root: SourceID, id: SourceID, n: nat) {
    && (exists path :: ChainTo(edges, root, id, path) && |path| == n + 1)
    && forall path :: ChainTo(edges, root, id, path) ==> |path| > n
  }

  lemma ExtendChain(edges: seq<Edge>, root: SourceID, from: SourceID, to: SourceID, path: seq<SourceID>)
    requires ChainTo(edges, root, from, path) && Joins(edges, from, to)
    ensures ChainTo(edges, root, to, path + [to])
  {
    var longer := path + [to];
    forall i | 0 <= i < |longer| - 1
      ensures Joins(edges, longer[i], longer[i + 1])
    {
      assert longer[i] == path[i];
    }
  }

  // ----- the order of documents and edges

  /** The document that makes the reference at a position. */
  function Maker(documents: seq<Document>, m: nat): (j: nat)
    requires m < |Made(documents)|
    ensures j < |documents| && documents[j].id == Made(documents)[m].0
  {
    var front, last := documents[..|documents| - 1], documents[|documents| - 1];
    if m < |Made(front)| then Maker(front, m) else |documents| - 1
  }

  lemma {:induction false} MakersInOrder(documents: seq<Document>, m: nat, n: nat)
    requires m <= n < |Made(documents)|
    ensures Maker(documents, m) <= Maker(documents, n)
  {
    var front := documents[..|documents| - 1];
    if n < |Made(front)| {
      MakersInOrder(front, m, n);
    }
  }

  function IndexIn(ids: seq<SourceID>, id: SourceID): (i: nat)
    ensures i <= |ids| && (i < |ids| ==> ids[i] == id) && (i == |ids| <==> id !in ids)
    ensures forall k :: 0 <= k < i ==> ids[k] != id
  {
    if ids == [] || ids[0] == id then 0 else 1 + IndexIn(ids[1..], id)
  }

  /** First occurrences keep the order in which they occur first. */
  lemma {:induction false} OccurrencesInOrder(ids: seq<SourceID>, i: nat, j: nat)
    requires i < j < |FirstOccurrences(ids)|
    ensures IndexIn(ids, FirstOccurrences(ids)[i]) < IndexIn(ids, FirstOccurrences(ids)[j])
    decreases |ids|
  {
    var before, last := ids[..|ids| - 1], ids[|ids| - 1];
    var firsts := FirstOccurrences(before);
    AppendOccurrence(before, last);
    assert ids == before + [last];
    var a, b := FirstOccurrences(ids)[i], FirstOccurrences(ids)[j];
    assert a == firsts[i] && a in before;
    IndexOfPrefix(before, last, a);
    if j < |firsts| {
      OccurrencesInOrder(before, i, j);
      IndexOfPrefix(before, last, b);
    } else {
      assert b == last && b !in before;
      IndexOfLast(before, last);
    }
  }

  lemma IndexOfPrefix(ids: seq<SourceID>, last: SourceID, id: SourceID)
    requires id in ids
    ensures IndexIn(ids + [last], id) == IndexIn(ids, id) < |ids|
  {
    var all := ids + [last];
    var i, k := IndexIn(ids, id), IndexIn(all, id);
    assert all[i] == ids[i];
    assert k < |ids| ==> all[k] == ids[k];
  }

  lemma IndexOfLast(ids: seq<SourceID>, last: SourceID)
    requires last !in ids
    ensures IndexIn(ids + [last], last) == |ids|
  {
    var all := ids + [last];
    assert all[|ids|] == last;
    assert forall k :: 0 <= k < |ids| ==> all[k] == ids[k] != last;
  }

  // ----- the breadth-first tree

  /** The position of the first edge to a later document. */
  lemma MentionFound(root: SourceID, at: Found, k: nat)
    requires Discovered(root, at) && 0 < k < |at.documents|
    ensures at.documents[k].id != root
    ensures FirstMention(at.edges, at.documents[k].id) < |at.edges| == |Made(at.documents)|
    ensures IndexIn([root] + Targets(at.edges), at.documents[k].id) == FirstMention(at.edges, at.documents[k].id) + 1
  {
    hide FirstOccurrences;
    var id := at.documents[k].id;
    var ids := [root] + Targets(at.edges);
    DocumentIDsContain(at.documents, id);
    FirstIsFirst(root, Targets(at.edges));
    assert DocumentIDs(at.documents)[0] != DocumentIDs(at.documents)[k];
    assert |Followed(at.edges)| == |at.edges|;
    var i, m := IndexIn(ids, id), FirstMention(at.edges, id);
    assert id in DocumentIDs(at.documents);
    assert ids[i] == Targets(at.edges)[i - 1] == at.edges[i - 1].target;
    assert m < |at.edges| ==> ids[m + 1] == id;
  }

  /** The document whose edge mentions document `k` first. */
  ghost function Parent(root: SourceID, at: Found, k: nat): (j: nat)
    requires Discovered(root, at) && 0 < k < |at.documents|
    ensures j < |at.documents|
  {
    MentionFound(root, at, k);
    Maker(at.documents, FirstMention(at.edges, at.documents[k].id))
  }

  lemma EdgeMaker(root: SourceID, at: Found, m: nat)
    requires Discovered(root, at) && m < |at.edges|
    ensures m < |Made(at.documents)| && at.documents[Maker(at.documents, m)].id == at.edges[m].source
  {
    hide FirstOccurrences, Grounded;
    assert Followed(at.edges)[m] == (at.edges[m].source, at.edges[m].reference);
  }

  lemma DocumentsDistinct(root: SourceID, at: Found, i: nat, j: nat)
    requires Discovered(root, at) && i < |at.documents| && j < |at.documents| &&
      at.documents[i].id == at.documents[j].id
    ensures i == j
  {
    hide FirstOccurrences, Grounded, Followed, Made;
    assert DocumentIDs(at.documents)[i] == DocumentIDs(at.documents)[j];
  }

  /** An edge from document `j` to document `k` comes no earlier than the first mention of `k`. */
  lemma ParentIsFirst(root: SourceID, at: Found, k: nat, m: nat, j: nat)
    requires Discovered(root, at) && 0 < k < |at.documents| && m < |at.edges| && j < |at.documents|
    requires at.edges[m].source == at.documents[j].id && at.edges[m].target == at.documents[k].id
    ensures Parent(root, at, k) <= j
  {
    MentionFound(root, at, k);
    EdgeMaker(root, at, m);
    DocumentsDistinct(root, at, Maker(at.documents, m), j);
    MakersInOrder(at.documents, FirstMention(at.edges, at.documents[k].id), m);
  }

  lemma ParentIsEarlier(root: SourceID, at: Found, k: nat)
    requires Discovered(root, at) && 0 < k < |at.documents|
    ensures Parent(root, at, k) < k
    ensures Joins(at.edges, at.documents[Parent(root, at, k)].id, at.documents[k].id)
  {
    assert GroundedAt(at.documents, at.edges, k);
    var m, j :| 0 <= m < |at.edges| && 0 <= j < k && MentionedBy(at.documents, at.edges, m, j, k);
    ParentIsFirst(root, at, k, m, j);
    MentionFound(root, at, k);
    EdgeMaker(root, at, FirstMention(at.edges, at.documents[k].id));
  }

  lemma ParentsInOrder(root: SourceID, at: Found, i: nat, k: nat)
    requires Discovered(root, at) && 0 < i <= k < |at.documents|
    ensures Parent(root, at, i) <= Parent(root, at, k)
  {
    if i < k {
      MentionFound(root, at, i);
      MentionFound(root, at, k);
      assert DocumentIDs(at.documents)[i] == at.documents[i].id && DocumentIDs(at.documents)[k] == at.documents[k].id;
      OccurrencesInOrder([root] + Targets(at.edges), i, k);
      MakersInOrder(at.documents, FirstMention(at.edges, at.documents[i].id),
        FirstMention(at.edges, at.documents[k].id));
    }
  }

  /** The depth of document `k` in the tree of first mentions. */
  ghost function Depth(root: SourceID, at: Found, k: nat): nat
    requires Discovered(root, at) && k < |at.documents|
    decreases k
  {
    if k == 0 then 0
    else
      ParentIsEarlier(root, at, k);
      Depth(root, at, Parent(root, at, k)) + 1
  }

  lemma {:induction false} DepthsInOrder(root: SourceID, at: Found, i: nat, k: nat)
    requires Discovered(root, at) && i <= k < |at.documents|
    ensures Depth(root, at, i) <= Depth(root, at, k)
    decreases k
  {
    hide Discovered;
    if 0 < i {
      ParentIsEarlier(root, at, i);
      ParentIsEarlier(root, at, k);
      ParentsInOrder(root, at, i, k);
      DepthsInOrder(root, at, Parent(root, at, i), Parent(root, at, k));
    }
  }

  /** The tree gives a chain of its depth. */
  lemma {:induction false} DepthChain(root: SourceID, at: Found, k: nat) returns (path: seq<SourceID>)
    requires Discovered(root, at) && k < |at.documents|
    ensures ChainTo(at.edges, root, at.documents[k].id, path) && |path| == Depth(root, at, k) + 1
    decreases k
  {
    if k == 0 {
      RootIsFirst(root, at);
      path := [root];
    } else {
      ParentIsEarlier(root, at, k);
      var parent := Parent(root, at, k);
      var before := DepthChain(root, at, parent);
      ExtendChain(at.edges, root, at.documents[parent].id, at.documents[k].id, before);
      path := before + [at.documents[k].id];
    }
  }

  lemma RootIsFirst(root: SourceID, at: Found)
    requires Discovered(root, at)
    ensures at.documents != [] && at.documents[0].id == root
  {
    FirstIsFirst(root, Targets(at.edges));
    DocumentIDsContain(at.documents, root);
    assert root in [root] + Targets(at.edges);
  }

  /** Every chain ends at a document, and is at least as long as its depth. */
  lemma {:induction false} ChainEnds(root: SourceID, at: Found, path: seq<SourceID>) returns (k: nat)
    requires Discovered(root, at) && IsChain(at.edges, path) && path[0] == root
    ensures k < |at.documents| && at.documents[k].id == path[|path| - 1] && Depth(root, at, k) < |path|
    decreases |path|
  {
    RootIsFirst(root, at);
    if |path| == 1 {
      k := 0;
    } else {
      var front := path[..|path| - 1];
      assert forall i :: 0 <= i < |front| - 1 ==> Joins(at.edges, front[i], front[i + 1]) by {
        forall i | 0 <= i < |front| - 1
          ensures Joins(at.edges, front[i], front[i + 1])
        {
          assert Joins(at.edges, path[i], path[i + 1]);
        }
      }
      var j := ChainEnds(root, at, front);
      assert Joins(at.edges, path[|path| - 2], path[|path| - 1]);
      k := EdgeDeepens(root, at, j, path[|path| - 1]);
    }
  }

  /** An edge goes at most one step deeper. */
  lemma EdgeDeepens(root: SourceID, at: Found, j: nat, to: SourceID) returns (k: nat)
    requires Discovered(root, at) && j < |at.documents| && Joins(at.edges, at.documents[j].id, to)
    ensures k < |at.documents| && at.documents[k].id == to && Depth(root, at, k) <= Depth(root, at, j) + 1
  {
    var m :| 0 <= m < |at.edges| && at.edges[m].source == at.documents[j].id && at.edges[m].target == to;
    k := TargetIsDocument(root, at, m);
    hide Discovered;
    if k > 0 {
      ParentIsFirst(root, at, k, m, j);
      ParentIsEarlier(root, at, k);
      DepthsInOrder(root, at, Parent(root, at, k), j);
    }
  }

  lemma TargetIsDocument(root: SourceID, at: Found, m: nat) returns (k: nat)
    requires Discovered(root, at) && m < |at.edges|
    ensures k < |at.documents| && at.documents[k].id == at.edges[m].target
  {
    hide Grounded, Followed, Made, FirstOccurrences;
    assert Targets(at.edges)[m] == at.edges[m].target;
    assert at.edges[m].target in [root] + Targets(at.edges);
    k :| 0 <= k < |at.documents| && DocumentIDs(at.documents)[k] == at.edges[m].target;
  }

  // ----- the theorems

  /** A source is decoded if and only if a chain of references leads to it from the root. */
  lemma DocumentsAreTheReachable(root: SourceID, at: Found, id: SourceID)
    requires Discovered(root, at)
    ensures id in DocumentIDs(at.documents) <==> Reachable(at.edges, root, id)
  {
    DocumentIDsContain(at.documents, id);
    if id in DocumentIDs(at.documents) {
      var k :| 0 <= k < |at.documents| && DocumentIDs(at.documents)[k] == id;
      var path := DepthChain(root, at, k);
    }
    if Reachable(at.edges, root, id) {
      var path :| ChainTo(at.edges, root, id, path);
      var k := ChainEnds(root, at, path);
      assert DocumentIDs(at.documents)[k] == id;
    }
  }

  /** The depth of a document is the length of a shortest chain to it. */
  lemma DepthIsDistance(root: SourceID, at: Found, k: nat, n: nat)
    requires Discovered(root, at) && k < |at.documents|
    ensures Distance(at.edges, root, at.documents[k].id, n) <==> n == Depth(root, at, k)
  {
    hide Discovered;
    var id := at.documents[k].id;
    var shortest := DepthChain(root, at, k);
    forall path | ChainTo(at.edges, root, id, path)
      ensures |path| > Depth(root, at, k)
    {
      var j := ChainEnds(root, at, path);
      DocumentsDistinct(root, at, j, k);
    }
  }

  /** Shortest chains do not get shorter along the documents. */
  lemma DistancesInOrder(root: SourceID, at: Found, i: nat, k: nat, m: nat, n: nat)
    requires Discovered(root, at) && i <= k < |at.documents|
    requires Distance(at.edges, root, at.documents[i].id, m) && Distance(at.edges, root, at.documents[k].id, n)
    ensures m <= n
  {
    hide Discovered, Distance;
    DepthIsDistance(root, at, i, m);
    DepthIsDistance(root, at, k, n);
    DepthsInOrder(root, at, i, k);
  }
}
