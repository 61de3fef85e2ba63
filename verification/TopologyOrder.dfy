/** The order in which the flow compiler lists the nodes of a document is the only one that follows its queue. */
module TopologyOrder {
  import opened Wrappers
  import opened Graph
  import opened Topology

  /** An order that follows the queue and its edges. */
  ghost predicate FollowsQueue(nodeIds: seq<string>, edges: seq<Edge>, order: seq<string>) {
    order == Queued(nodeIds, edges, order) && Forward(edges, order)
  }

  lemma {:induction false} FreedByEdge(edges: seq<Edge>, listed: set<string>, targets: seq<string>, node: string)
    requires node in Freed(edges, listed, targets)
    ensures node in targets && AllBefore(edges, listed, node)
  {
    if node in Freed(edges, listed, targets[1..]) { FreedByEdge(edges, listed, targets[1..], node); }
  }

  /** What is queued early stays in front. */
  lemma {:induction false} QueuedGrows(nodeIds: seq<string>, edges: seq<Edge>, order: seq<string>, k: nat)
    requires k <= |order|
    ensures Queued(nodeIds, edges, order[..k]) <= Queued(nodeIds, edges, order)
    decreases |order|
  {
    hide Freed, Targets;
    if k == |order| {
      assert order[..k] == order;
    } else {
      var front := order[..|order| - 1];
      assert front[..k] == order[..k];
      QueuedGrows(nodeIds, edges, front, k);
    }
  }

  /** What is queued later was freed by a later node. */
  lemma {:induction false} QueuedLater(nodeIds: seq<string>, edges: seq<Edge>, order: seq<string>, k: nat, i: nat)
    returns (m: nat)
    requires k < |order| && |Queued(nodeIds, edges, order[..k])| <= i < |Queued(nodeIds, edges, order)|
    ensures k <= m < |order| && (order[m], Queued(nodeIds, edges, order)[i]) in edges
    decreases |order|
  {
    hide Freed, Targets;
    var n := |order| - 1;
    var front := order[..n];
    var before := Queued(nodeIds, edges, front);
    assert front[..k] == order[..k] && (k == n ==> order[..k] == front);
    if k < n && i < |before| {
      m := QueuedLater(nodeIds, edges, front, k, i);
    } else {
      m := n;
      var freed := Freed(edges, Elements(order), Targets(edges, order[n]));
      var node := Queued(nodeIds, edges, order)[i];
      assert node == freed[i - |before|] && node in freed;
      FreedByEdge(edges, Elements(order), Targets(edges, order[n]), node);
      TargetsAreEdges(edges, order[n], node);
    }
  }

  /** When a node is due it has been queued already. */
  lemma QueuedInTime(nodeIds: seq<string>, edges: seq<Edge>, order: seq<string>, k: nat)
    requires FollowsQueue(nodeIds, edges, order) && k < |order|
    ensures k < |Queued(nodeIds, edges, order[..k])| && Queued(nodeIds, edges, order[..k])[k] == order[k]
  {
    hide Queued;
    QueuedGrows(nodeIds, edges, order, k);
    if k >= |Queued(nodeIds, edges, order[..k])| {
      var m := QueuedLater(nodeIds, edges, order, k, k);
    }
  }

  lemma {:induction false} SamePrefix(nodeIds: seq<string>, edges: seq<Edge>, a: seq<string>, b: seq<string>, k: nat)
    requires FollowsQueue(nodeIds, edges, a) && FollowsQueue(nodeIds, edges, b) && k <= |a| && k <= |b|
    ensures a[..k] == b[..k]
  {
    hide Queued, FollowsQueue;
    if k > 0 {
      SamePrefix(nodeIds, edges, a, b, k - 1);
      QueuedInTime(nodeIds, edges, a, k - 1);
      QueuedInTime(nodeIds, edges, b, k - 1);
      assert a[..k] == a[..k - 1] + [a[k - 1]] && b[..k] == b[..k - 1] + [b[k - 1]];
    }
  }

  /** Main result: the document determines the order, also of unrelated nodes. */
  lemma OrderUnique(nodeIds: seq<string>, edges: seq<Edge>, a: seq<string>, b: seq<string>)
    requires FollowsQueue(nodeIds, edges, a) && FollowsQueue(nodeIds, edges, b)
    ensures a == b
  {
    hide Queued;
    if |a| < |b| {
      SamePrefix(nodeIds, edges, a, b, |a|);
      assert a[..|a|] == a;
      QueuedInTime(nodeIds, edges, b, |a|);
    } else {
      SamePrefix(nodeIds, edges, a, b, |b|);
      assert b[..|b|] == b;
      if |b| < |a| { QueuedInTime(nodeIds, edges, a, |b|); } else { assert a[..|a|] == a; }
    }
  }

  // ----- Edges and lists -----

  /** The edge of the document has this source and this target, and both are nodes. */
  predicate Fine(nodeIds: seq<string>, value: EdgeValue, edge: Edge) {
    value.source == Some(edge.0) && value.target == Some(edge.1) && edge.0 in nodeIds && edge.1 in nodeIds
  }

  predicate Bad(nodeIds: seq<string>, value: EdgeValue) {
    || value.source == None || value.target == None
    || value.source.value !in nodeIds || value.target.value !in nodeIds
  }

  /** What is wrong with an edge, called by its id if it has one: its source is missing, or else its target is, or else
      its source is not a node, or else its target is not. */
  ghost predicate Wrong(nodeIds: seq<string>, value: EdgeValue, error: TopologyError) {
    var id := if value.id == None then "unknown-edge" else value.id.value;
    match error
    case EdgeMissingSource(e) => e == id && value.source == None
    case EdgeMissingTarget(e) => e == id && value.source != None && value.target == None
    case UnknownSource(e, u) => e == id && value.source == Some(u) && value.target != None && u !in nodeIds
    case UnknownTarget(e, v) =>
      && e == id && value.target == Some(v) && v !in nodeIds
      && value.source != None && value.source.value in nodeIds
    case Cycle(_) => false
  }

  ghost predicate WrongAt(nodeIds: seq<string>, values: seq<EdgeValue>, i: nat, error: TopologyError)
    requires i < |values|
  {
    Wrong(nodeIds, values[i], error) && forall j | 0 <= j < i :: !Bad(nodeIds, values[j])
  }

  /** Edges are read one by one, parallel ones too; reading fails exactly at the first bad one. */
  lemma {:induction false} ReadEdgesIff(nodeIds: seq<string>, values: seq<EdgeValue>)
    ensures var r := ReadEdges(nodeIds, values);
            && (r.Success? ==>
                  |r.value| == |values| && forall i | 0 <= i < |values| :: Fine(nodeIds, values[i], r.value[i]))
            && (r.Failure? ==> exists i :: 0 <= i < |values| && WrongAt(nodeIds, values, i, r.error))
  {
    hide EdgeProblem, Wrong, Bad, Fine;
    if values != [] {
      var front, last := values[..|values| - 1], values[|values| - 1];
      ReadEdgesIff(nodeIds, front);
      EdgeProblemIff(nodeIds, last);
      match ReadEdges(nodeIds, front)
      case Failure(error) =>
        var i :| 0 <= i < |front| && WrongAt(nodeIds, front, i, error);
        assert values[i] == front[i] && forall j | 0 <= j < i :: values[j] == front[j];
        assert WrongAt(nodeIds, values, i, error);
        assert ReadEdges(nodeIds, values) == Failure(error);
      case Success(edges) =>
        forall j | 0 <= j < |front|
          ensures !Bad(nodeIds, values[j])
        {
          FineIsNotBad(nodeIds, front[j], edges[j]);
        }
        var problem := EdgeProblem(nodeIds, last);
        if problem.Some? {
          var i, error := |front|, problem.value;
          assert ReadEdges(nodeIds, values) == Failure(error);
          assert 0 <= i < |values| && WrongAt(nodeIds, values, i, error);
        } else {
          var edge := (last.source.value, last.target.value);
          assert ReadEdges(nodeIds, values) == Success(edges + [edge]);
        }
    }
  }

  lemma FineIsNotBad(nodeIds: seq<string>, value: EdgeValue, edge: Edge)
    requires Fine(nodeIds, value, edge)
    ensures !Bad(nodeIds, value)
  {
  }

  lemma EdgeProblemIff(nodeIds: seq<string>, value: EdgeValue)
    ensures var problem := EdgeProblem(nodeIds, value);
            if problem.Some? then Wrong(nodeIds, value, problem.value)
            else value.source.Some? && value.target.Some? &&
                 Fine(nodeIds, value, (value.source.value, value.target.value))
  {
  }

  /** A part of the document in document order: the nodes of the set, each once, and the earlier ones first. */
  lemma {:induction false} RestrictMeaning(nodeIds: seq<string>, nodes: set<string>)
    requires Distinct(nodeIds)
    ensures forall n :: n in Restrict(nodeIds, nodes) <==> n in nodeIds && n in nodes
    ensures forall i, j | 0 <= i < j < |Restrict(nodeIds, nodes)| ::
              Before(nodeIds, Restrict(nodeIds, nodes)[i], Restrict(nodeIds, nodes)[j])
  {
    if nodeIds != [] {
      var rest := Restrict(nodeIds[1..], nodes);
      RestrictMeaning(nodeIds[1..], nodes);
      var list := Restrict(nodeIds, nodes);
      forall i, j | 0 <= i < j < |list|
        ensures Before(nodeIds, list[i], list[j])
      {
        if nodeIds[0] in nodes && i == 0 {
          assert list[j] == rest[j - 1] && list[j] in nodeIds[1..];
          var b :| 0 <= b < |nodeIds[1..]| && nodeIds[1..][b] == list[j];
          assert nodeIds[b + 1] == list[j];
        } else {
          var k := if nodeIds[0] in nodes then 1 else 0;
          assert list[i] == rest[i - k] && list[j] == rest[j - k];
          var a, b :| 0 <= a < b < |nodeIds[1..]| && nodeIds[1..][a] == list[i] && nodeIds[1..][b] == list[j];
          assert nodeIds[a + 1] == list[i] && nodeIds[b + 1] == list[j];
        }
      }
    }
  }

  /** A list of nodes in document order, each once. */
  ghost predicate InDocumentOrder(nodeIds: seq<string>, list: seq<string>) {
    && (forall n <- list :: n in nodeIds)
    && forall i, j | 0 <= i < j < |list| :: Before(nodeIds, list[i], list[j])
  }

  /** What a node of the plan depends on and what depends on it: its direct neighbours, in document order. */
  lemma LinksMeaning(nodeIds: seq<string>, edges: seq<Edge>, ordered: Ordered, node: string)
    requires Distinct(nodeIds) && TopologyMeaning(nodeIds, edges, Success(ordered)) && node in nodeIds
    ensures node in ordered.links
    ensures var links := ordered.links[node];
            && (forall u :: u in links.dependencies <==> (u, node) in edges)
            && (forall v :: v in links.downstream <==> (node, v) in edges)
            && InDocumentOrder(nodeIds, links.dependencies) && InDocumentOrder(nodeIds, links.downstream)
  {
    assert node in Elements(nodeIds);
    assert ListsNeighbors(nodeIds, edges, node, ordered.links[node]);
    hide Cyclic, Forward, Queued, Before, Restrict;
    var links := ordered.links[node];
    RestrictMeaning(nodeIds, Elements(links.dependencies));
    RestrictMeaning(nodeIds, Elements(links.downstream));
  }

  /** The order: every node once, and along every edge. */
  lemma OrderedNodes(nodeIds: seq<string>, edges: seq<Edge>, ordered: Ordered)
    requires TopologyMeaning(nodeIds, edges, Success(ordered))
    ensures forall n :: n in ordered.order <==> n in nodeIds
    ensures |ordered.order| == |nodeIds| && forall i, j | 0 <= i < j < |ordered.order| ::
              ordered.order[i] != ordered.order[j] && (ordered.order[j], ordered.order[i]) !in edges
    ensures forall i | 0 <= i < |ordered.order| :: (ordered.order[i], ordered.order[i]) !in edges
    ensures forall path | Walk(edges, path) && |path| >= 2 :: path[0] != path[|path| - 1]
  {
    hide Queued, ListsNeighbors, Walk;
    forall n
      ensures n in ordered.order <==> n in nodeIds
    {
      assert n in Elements(ordered.order) <==> n in Elements(nodeIds);
    }
    forall path | Walk(edges, path) && |path| >= 2
      ensures path[0] != path[|path| - 1]
    {
      assert !ClosedWalk(edges, path);
    }
  }

  /** The report: the nodes on a cycle or behind one, in document order. */
  lemma CycleMeaning(nodeIds: seq<string>, edges: seq<Edge>, error: TopologyError)
    requires Distinct(nodeIds) && TopologyMeaning(nodeIds, edges, Failure(error))
    ensures error.Cycle? && error.nodes != [] && InDocumentOrder(nodeIds, error.nodes)
    ensures forall n :: n in error.nodes <==>
                        n in nodeIds && exists cycle, path ::
                          && Walk(edges, cycle) && |cycle| >= 2 && cycle[0] == cycle[|cycle| - 1]
                          && Walk(edges, path) && path[0] == cycle[0] && path[|path| - 1] == n
  {
    RestrictMeaning(nodeIds, Elements(error.nodes));
    WalksAreNotEmpty(edges);
    hide Stuck, Walk, Before, Restrict;
    forall n
      ensures AfterCycle(edges, n) <==>
              exists cycle, path ::
                && Walk(edges, cycle) && |cycle| >= 2 && cycle[0] == cycle[|cycle| - 1]
                && Walk(edges, path) && path[0] == cycle[0] && path[|path| - 1] == n
    {
      if cycle, path :| Walk(edges, cycle) && |cycle| >= 2 && cycle[0] == cycle[|cycle| - 1]
                        && Walk(edges, path) && path[0] == cycle[0] && path[|path| - 1] == n {
        assert ClosedWalk(edges, cycle);
      }
    }
  }

  lemma WalksAreNotEmpty(edges: seq<Edge>)
    ensures forall path | Walk(edges, path) :: path != []
  {
  }

  /** One node comes before another one in the document. */
  ghost predicate Before(nodeIds: seq<string>, m: string, n: string) {
    exists a, b :: 0 <= a < b < |nodeIds| && nodeIds[a] == m && nodeIds[b] == n
  }
}
