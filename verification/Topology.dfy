/** The topology step of the flow compiler (`build_nodes_and_topology` in orchestration-runtime/src/compiler.rs):
    edge validation, dependency lists, and Kahn's algorithm over the edge multigraph. */
module Topology {
  import opened Wrappers
  import opened Graph

  /** An edge of the document; a field is `None` when the JSON has no such string. */
  datatype EdgeValue = EdgeValue(id: Option<string>, source: Option<string>, target: Option<string>)

  datatype TopologyError =
    | EdgeMissingSource(edge: string)
    | EdgeMissingTarget(edge: string)
    | UnknownSource(edge: string, node: string)
    | UnknownTarget(edge: string, node: string)
    | Cycle(nodes: seq<string>)

  datatype Links = Links(dependencies: seq<string>, downstream: seq<string>)

  function EdgeProblem(nodeIds: seq<string>, e: EdgeValue): Option<TopologyError> {
    var id := if e.id.Some? then e.id.value else "unknown-edge";
    if e.source.None? then Some(EdgeMissingSource(id))
    else if e.target.None? then Some(EdgeMissingTarget(id))
    else if e.source.value !in nodeIds then Some(UnknownSource(id, e.source.value))
    else if e.target.value !in nodeIds then Some(UnknownTarget(id, e.target.value))
    else None
  }

  /** The edges of the document, or the problem of the first bad one. */
  function ReadEdges(nodeIds: seq<string>, values: seq<EdgeValue>): Result<seq<Edge>, TopologyError> {
    if values == [] then Success([])
    else
      match ReadEdges(nodeIds, values[..|values| - 1])
      case Failure(error) => Failure(error)
      case Success(edges) =>
        var e := values[|values| - 1];
        match EdgeProblem(nodeIds, e)
        case Some(error) => Failure(error)
        case None => Success(edges + [(e.source.value, e.target.value)])
  }

  // ----- Counting edges -----

  /** Number of edges into the node that do not start in `done`; parallel edges count separately. */
  ghost function CountInto(edges: seq<Edge>, node: string, done: set<string>): nat {
    if edges == [] then 0
    else
      var e := edges[|edges| - 1];
      CountInto(edges[..|edges| - 1], node, done) + if e.1 == node && e.0 !in done then 1 else 0
  }

  /** Targets of the edges out of the node, with multiplicity, in document order. */
  ghost function Targets(edges: seq<Edge>, node: string): seq<string> {
    if edges == [] then []
    else
      var e := edges[|edges| - 1];
      Targets(edges[..|edges| - 1], node) + if e.0 == node then [e.1] else []
  }

  lemma {:induction false} CountZero(edges: seq<Edge>, node: string, done: set<string>)
    ensures CountInto(edges, node, done) == 0 <==> forall e | e in edges && e.1 == node :: e.0 in done
  {
    if edges != [] {
      var front, last := edges[..|edges| - 1], edges[|edges| - 1];
      CountZero(front, node, done);
      assert forall e :: e in edges <==> e in front || e == last;
    }
  }

  /** Consuming the edges out of a node lowers the count of each target by its multiplicity. */
  lemma {:induction false} CountAfter(edges: seq<Edge>, node: string, done: set<string>, u: string)
    requires u !in done
    ensures CountInto(edges, node, done) == CountInto(edges, node, done + {u}) + multiset(Targets(edges, u))[node]
  {
    if edges != [] {
      CountAfter(edges[..|edges| - 1], node, done, u);
    }
  }

  lemma {:induction false} TargetsAreEdges(edges: seq<Edge>, u: string, v: string)
    ensures v in Targets(edges, u) <==> (u, v) in edges
  {
    if edges != [] {
      TargetsAreEdges(edges[..|edges| - 1], u, v);
      assert edges == edges[..|edges| - 1] + [edges[|edges| - 1]];
    }
  }

  // ----- Kahn's algorithm -----

  /** Listed and queued nodes are different nodes of the document, exactly those with no edge left to consume.
      What is listed so far is a forward order containing everything that leads to it. */
  ghost predicate KahnState(nodeIds: seq<string>, edges: seq<Edge>, order: seq<string>, queue: seq<string>,
                            indegree: map<string, nat>) {
    && Distinct(order + queue)
    && indegree.Keys == Elements(nodeIds)
    && (forall n | n in order + queue :: n in indegree && indegree[n] == 0)
    && (forall n | n in indegree && indegree[n] == 0 :: n in order + queue)
    && Forward(edges, order)
    && PredecessorClosed(edges, Elements(order))
  }

  ghost predicate CountsRemaining(edges: seq<Edge>, order: seq<string>, neighbors: seq<string>,
                                  indegree: map<string, nat>) {
    forall n | n in indegree :: indegree[n] == CountInto(edges, n, Elements(order)) + multiset(neighbors)[n]
  }

  lemma ListNode(nodeIds: seq<string>, edges: seq<Edge>, order: seq<string>, queue: seq<string>,
                 indegree: map<string, nat>)
    requires queue != [] && KahnState(nodeIds, edges, order, queue, indegree)
    requires CountsRemaining(edges, order, [], indegree)
    ensures KahnState(nodeIds, edges, order + [queue[0]], queue[1..], indegree)
    ensures CountsRemaining(edges, order + [queue[0]], Targets(edges, queue[0]), indegree)
  {
    var node, next := queue[0], order + [queue[0]];
    assert next + queue[1..] == order + queue;
    assert Elements(next) == Elements(order) + {node};
    QueuedNode(nodeIds, edges, order, queue, indegree);
    assert indegree[node] == CountInto(edges, node, Elements(order));
    CountZero(edges, node, Elements(order));
    forall i, j | 0 <= i < |next| && 0 <= j < |next| && (next[i], next[j]) in edges
      ensures i < j
    {
      assert next[j] in Elements(next);
    }
    forall n | n in indegree
      ensures indegree[n] == CountInto(edges, n, Elements(next)) + multiset(Targets(edges, node))[n]
    {
      CountAfter(edges, n, Elements(order), node);
    }
  }

  lemma ConsumeEdge(nodeIds: seq<string>, edges: seq<Edge>, order: seq<string>, queue: seq<string>,
                    neighbors: seq<string>, indegree: map<string, nat>)
    requires neighbors != [] && neighbors[0] in indegree
    requires KahnState(nodeIds, edges, order, queue, indegree) && CountsRemaining(edges, order, neighbors, indegree)
    ensures indegree[neighbors[0]] > 0
    ensures var after := indegree[neighbors[0] := indegree[neighbors[0]] - 1];
            && CountsRemaining(edges, order, neighbors[1..], after)
            && KahnState(nodeIds, edges, order, queue + if after[neighbors[0]] == 0 then [neighbors[0]] else [], after)
  {
    var neighbor := neighbors[0];
    assert neighbors == [neighbor] + neighbors[1..];
    assert indegree[neighbor] >= multiset(neighbors)[neighbor] > 0;
    var after := indegree[neighbor := indegree[neighbor] - 1];
    assert after.Keys == indegree.Keys;
    var next := queue + if after[neighbor] == 0 then [neighbor] else [];
    assert order + next == order + queue + if after[neighbor] == 0 then [neighbor] else [];
  }

  // ----- The order of the queue -----

  ghost predicate AllBefore(edges: seq<Edge>, listed: set<string>, node: string) {
    forall e | e in edges && e.1 == node :: e.0 in listed
  }

  /** The targets that have nothing left in front of them, each where its last edge is. */
  ghost function Freed(edges: seq<Edge>, listed: set<string>, targets: seq<string>): seq<string> {
    if targets == [] then []
    else
      (if targets[0] !in targets[1..] && AllBefore(edges, listed, targets[0]) then [targets[0]] else [])
      + Freed(edges, listed, targets[1..])
  }

  ghost function Roots(edges: seq<Edge>, nodes: set<string>): set<string> {
    set n | n in nodes && AllBefore(edges, {}, n)
  }

  /** All nodes that have ever been queued once these are listed: the nodes without edges into them in document order,
      and then what each listed node frees, in the order of the edges out of it. */
  ghost function Queued(nodeIds: seq<string>, edges: seq<Edge>, order: seq<string>): seq<string> {
    if order == [] then Restrict(nodeIds, Roots(edges, Elements(nodeIds)))
    else
      var last := order[|order| - 1];
      Queued(nodeIds, edges, order[..|order| - 1]) + Freed(edges, Elements(order), Targets(edges, last))
  }

  /** Listed and waiting nodes are those queued, in this order, but for what the remaining edges will free. */
  ghost predicate InQueueOrder(nodeIds: seq<string>, edges: seq<Edge>, order: seq<string>, queue: seq<string>,
                               neighbors: seq<string>)
  {
    order + queue + Freed(edges, Elements(order), neighbors) == Queued(nodeIds, edges, order)
  }

  lemma NothingFreed(edges: seq<Edge>, listed: set<string>)
    ensures Freed(edges, listed, []) == []
  {
  }

  lemma RootsQueued(nodeIds: seq<string>, edges: seq<Edge>, indegree: map<string, nat>, queue: seq<string>)
    requires indegree.Keys == Elements(nodeIds) && CountsRemaining(edges, [], [], indegree)
    requires queue == Restrict(nodeIds, ZeroDegree(indegree))
    ensures InQueueOrder(nodeIds, edges, [], queue, [])
  {
    forall n | n in indegree
      ensures indegree[n] == 0 <==> AllBefore(edges, {}, n)
    {
      assert Elements([]) == {};
      CountZero(edges, n, {});
    }
    assert ZeroDegree(indegree) == Roots(edges, Elements(nodeIds));
    NothingFreed(edges, Elements([]));
    assert [] + queue + [] == queue;
  }

  function ZeroDegree(indegree: map<string, nat>): set<string> {
    set n | n in indegree && indegree[n] == 0
  }

  lemma ListInOrder(nodeIds: seq<string>, edges: seq<Edge>, order: seq<string>, queue: seq<string>)
    requires queue != [] && InQueueOrder(nodeIds, edges, order, queue, [])
    ensures InQueueOrder(nodeIds, edges, order + [queue[0]], queue[1..], Targets(edges, queue[0]))
  {
    hide Targets, Freed;
    var next := order + [queue[0]];
    NothingFreed(edges, Elements(order));
    assert order + queue + [] == order + queue;
    assert next[..|order|] == order && next + queue[1..] == order + queue;
  }

  lemma FreeInOrder(nodeIds: seq<string>, edges: seq<Edge>, order: seq<string>, queue: seq<string>,
                    neighbors: seq<string>, indegree: map<string, nat>)
    requires neighbors != [] && neighbors[0] in indegree && indegree[neighbors[0]] > 0
    requires CountsRemaining(edges, order, neighbors, indegree)
    requires InQueueOrder(nodeIds, edges, order, queue, neighbors)
    ensures var freed := if indegree[neighbors[0]] == 1 then [neighbors[0]] else [];
            InQueueOrder(nodeIds, edges, order, queue + freed, neighbors[1..])
  {
    var node, rest := neighbors[0], neighbors[1..];
    assert neighbors == [node] + rest;
    assert indegree[node] == CountInto(edges, node, Elements(order)) + 1 + multiset(rest)[node];
    CountZero(edges, node, Elements(order));
    var freed := if indegree[node] == 1 then [node] else [];
    assert Freed(edges, Elements(order), neighbors) == freed + Freed(edges, Elements(order), rest);
    assert order + (queue + freed) + Freed(edges, Elements(order), rest) ==
           order + queue + (freed + Freed(edges, Elements(order), rest));
  }

  lemma WholeQueue(nodeIds: seq<string>, edges: seq<Edge>, order: seq<string>)
    requires InQueueOrder(nodeIds, edges, order, [], [])
    ensures order == Queued(nodeIds, edges, order)
  {
    NothingFreed(edges, Elements(order));
    assert order + [] + [] == order;
  }

  method InitialQueue(nodeIds: seq<string>, indegree: map<string, nat>, ghost edges: seq<Edge>)
    returns (queue: seq<string>)
    requires indegree.Keys == Elements(nodeIds) && Distinct(nodeIds)
    ensures KahnState(nodeIds, edges, [], queue, indegree) && queue == Restrict(nodeIds, ZeroDegree(indegree))
  {
    hide KahnState, Restrict, Distinct;
    queue := [];
    NoneRestricted(ZeroDegree(indegree));
    for i := 0 to |nodeIds|
      invariant queue == Restrict(nodeIds[..i], ZeroDegree(indegree))
    {
      assert nodeIds[..i + 1] == nodeIds[..i] + [nodeIds[i]];
      RestrictSnoc(nodeIds[..i], nodeIds[i], ZeroDegree(indegree));
      if indegree[nodeIds[i]] == 0 {
        queue := queue + [nodeIds[i]];
      }
    }
    assert nodeIds[..|nodeIds|] == nodeIds;
    FirstQueue(nodeIds, edges, indegree);
  }

  lemma NoneRestricted(nodes: set<string>)
    ensures Restrict([], nodes) == []
  {
  }

  lemma FirstQueue(nodeIds: seq<string>, edges: seq<Edge>, indegree: map<string, nat>)
    requires indegree.Keys == Elements(nodeIds) && Distinct(nodeIds)
    ensures KahnState(nodeIds, edges, [], Restrict(nodeIds, ZeroDegree(indegree)), indegree)
  {
    var queue := Restrict(nodeIds, ZeroDegree(indegree));
    RestrictDistinct(nodeIds, ZeroDegree(indegree));
    assert [] + queue == queue;
    hide Restrict;
  }

  lemma {:induction false} RestrictDistinct(nodeIds: seq<string>, nodes: set<string>)
    requires Distinct(nodeIds)
    ensures Distinct(Restrict(nodeIds, nodes))
  {
    if nodeIds != [] { RestrictDistinct(nodeIds[1..], nodes); }
  }

  lemma TargetsKnown(nodeIds: seq<string>, edges: seq<Edge>, u: string)
    requires forall e | e in edges :: e.0 in nodeIds && e.1 in nodeIds
    ensures forall v | v in Targets(edges, u) :: v in Elements(nodeIds)
  {
    forall v | v in Targets(edges, u)
      ensures v in Elements(nodeIds)
    {
      TargetsAreEdges(edges, u, v);
    }
  }

  /** Consumes the edges out of a listed node. As `indegree[n]` is always the number of edges into `n` that are not
      yet consumed, the decrement never underflows. */
  method ConsumeEdges(ghost nodeIds: seq<string>, ghost edges: seq<Edge>, ghost order: seq<string>,
                      queue0: seq<string>, neighbors: seq<string>, indegree0: map<string, nat>)
    returns (queue: seq<string>, indegree: map<string, nat>)
    requires forall n | n in neighbors :: n in Elements(nodeIds)
    requires indegree0.Keys == Elements(nodeIds)
    requires KahnState(nodeIds, edges, order, queue0, indegree0)
    requires CountsRemaining(edges, order, neighbors, indegree0)
    requires InQueueOrder(nodeIds, edges, order, queue0, neighbors)
    ensures InQueueOrder(nodeIds, edges, order, queue, [])
    ensures indegree.Keys == Elements(nodeIds)
    ensures KahnState(nodeIds, edges, order, queue, indegree)
    ensures CountsRemaining(edges, order, [], indegree)
  {
    hide KahnState, CountsRemaining, Elements, InQueueOrder;
    queue, indegree := queue0, indegree0;
    assert neighbors[0..] == neighbors;
    for i := 0 to |neighbors|
      invariant indegree.Keys == Elements(nodeIds)
      invariant KahnState(nodeIds, edges, order, queue, indegree)
      invariant CountsRemaining(edges, order, neighbors[i..], indegree)
      invariant InQueueOrder(nodeIds, edges, order, queue, neighbors[i..])
    {
      var neighbor := neighbors[i];
      assert neighbors[i..][1..] == neighbors[i + 1..];
      ConsumeEdge(nodeIds, edges, order, queue, neighbors[i..], indegree);
      FreeInOrder(nodeIds, edges, order, queue, neighbors[i..], indegree);
      indegree := indegree[neighbor := indegree[neighbor] - 1];
      if indegree[neighbor] == 0 {
        queue := queue + [neighbor];
      } else {
        assert queue + [] == queue;
      }
    }
    assert neighbors[|neighbors|..] == [];
  }

  /** Kahn's algorithm: works off a queue of nodes with no edge left to consume. */
  method OrderNodes(nodeIds: seq<string>, adjacency: map<string, seq<string>>, degrees: map<string, nat>,
                    ghost edges: seq<Edge>) returns (order: seq<string>)
    requires adjacency.Keys == degrees.Keys == Elements(nodeIds) && Distinct(nodeIds)
    requires forall e | e in edges :: e.0 in nodeIds && e.1 in nodeIds
    requires forall n | n in adjacency :: adjacency[n] == Targets(edges, n)
    requires forall n | n in degrees :: degrees[n] == CountInto(edges, n, {})
    ensures Distinct(order) && Elements(order) <= Elements(nodeIds)
    ensures Forward(edges, order) && PredecessorClosed(edges, Elements(order))
    ensures Stuck(edges, Elements(nodeIds) - Elements(order))
    ensures order == Queued(nodeIds, edges, order)
  {
    var indegree := degrees;
    var queue := InitialQueue(nodeIds, indegree, edges);
    order := [];
    NothingConsumed(edges, indegree);
    RootsQueued(nodeIds, edges, indegree, queue);
    hide KahnState, CountsRemaining, Targets, CountInto, Forward, PredecessorClosed, Stuck, Distinct, Elements,
         InQueueOrder, Queued;
    while queue != []
      invariant InQueueOrder(nodeIds, edges, order, queue, [])
      invariant KahnState(nodeIds, edges, order, queue, indegree)
      invariant CountsRemaining(edges, order, [], indegree)
      decreases Elements(nodeIds) - Elements(order)
    {
      var node := queue[0];
      QueuedNode(nodeIds, edges, order, queue, indegree);
      ListNode(nodeIds, edges, order, queue, indegree);
      ListInOrder(nodeIds, edges, order, queue);
      queue := queue[1..];
      ElementsSnoc(order, node);
      order := order + [node];
      TargetsKnown(nodeIds, edges, node);
      queue, indegree := ConsumeEdges(nodeIds, edges, order, queue, adjacency[node], indegree);
    }
    Exhausted(nodeIds, edges, order, indegree);
    WholeQueue(nodeIds, edges, order);
  }

  lemma NothingConsumed(edges: seq<Edge>, degrees: map<string, nat>)
    requires forall n | n in degrees :: degrees[n] == CountInto(edges, n, {})
    ensures CountsRemaining(edges, [], [], degrees)
  {
    assert Elements([]) == {};
  }

  lemma QueuedNode(nodeIds: seq<string>, edges: seq<Edge>, order: seq<string>, queue: seq<string>,
                   indegree: map<string, nat>)
    requires queue != [] && KahnState(nodeIds, edges, order, queue, indegree)
    ensures queue[0] in Elements(nodeIds) && queue[0] !in order
  {
    var all := order + queue;
    assert all[|order|] == queue[0] && queue[0] in all;
    forall i | 0 <= i < |order|
      ensures order[i] != queue[0]
    {
      assert all[i] == order[i];
    }
  }

  lemma Exhausted(nodeIds: seq<string>, edges: seq<Edge>, order: seq<string>, indegree: map<string, nat>)
    requires KahnState(nodeIds, edges, order, [], indegree) && CountsRemaining(edges, order, [], indegree)
    requires forall e | e in edges :: e.0 in nodeIds && e.1 in nodeIds
    ensures Distinct(order) && Elements(order) <= Elements(nodeIds)
    ensures Forward(edges, order) && PredecessorClosed(edges, Elements(order))
    ensures Stuck(edges, Elements(nodeIds) - Elements(order))
  {
    assert order + [] == order;
    var rest := Elements(nodeIds) - Elements(order);
    forall n | n in rest
      ensures HasPredecessorIn(edges, rest, n)
    {
      assert indegree[n] > 0;
      CountZero(edges, n, Elements(order));
      var e :| e in edges && e.1 == n && e.0 !in Elements(order);
      assert e.0 in rest;
    }
  }

  // ----- Document order -----

  /** The nodes of a set in document order. */
  function Restrict(nodeIds: seq<string>, nodes: set<string>): (r: seq<string>)
    ensures forall n :: n in r <==> n in nodeIds && n in nodes
  {
    if nodeIds == [] then []
    else (if nodeIds[0] in nodes then [nodeIds[0]] else []) + Restrict(nodeIds[1..], nodes)
  }

  /** Position in document order; unknown ids come last. */
  function NodeOrderIndex(nodeIds: seq<string>, node: string): (r: nat)
    ensures r <= |nodeIds| && (r < |nodeIds| ==> nodeIds[r] == node)
    ensures forall i | 0 <= i < r :: nodeIds[i] != node
  {
    if nodeIds == [] || nodeIds[0] == node then 0 else 1 + NodeOrderIndex(nodeIds[1..], node)
  }

  function InsertByIndex(nodeIds: seq<string>, node: string, sorted: seq<string>): seq<string> {
    if sorted == [] || NodeOrderIndex(nodeIds, node) < NodeOrderIndex(nodeIds, sorted[0]) then [node] + sorted
    else [sorted[0]] + InsertByIndex(nodeIds, node, sorted[1..])
  }

  /** A stable sort by position in the document. */
  function SortByIndex(nodeIds: seq<string>, nodes: seq<string>): seq<string> {
    if nodes == [] then []
    else InsertByIndex(nodeIds, nodes[|nodes| - 1], SortByIndex(nodeIds, nodes[..|nodes| - 1]))
  }

  lemma IndexOf(nodeIds: seq<string>, k: nat)
    requires Distinct(nodeIds) && k < |nodeIds|
    ensures NodeOrderIndex(nodeIds, nodeIds[k]) == k
  {
  }

  lemma RestrictStep(nodeIds: seq<string>, nodes: set<string>, k: nat)
    requires k < |nodeIds|
    ensures Restrict(nodeIds[k..], nodes) ==
            (if nodeIds[k] in nodes then [nodeIds[k]] else []) + Restrict(nodeIds[k + 1..], nodes)
  {
    assert nodeIds[k..][1..] == nodeIds[k + 1..];
  }

  lemma FirstOfRest(nodeIds: seq<string>, nodes: set<string>, k: nat)
    requires Distinct(nodeIds) && k <= |nodeIds| && Restrict(nodeIds[k..], nodes) != []
    ensures NodeOrderIndex(nodeIds, Restrict(nodeIds[k..], nodes)[0]) >= k
  {
    var first := Restrict(nodeIds[k..], nodes)[0];
    assert first in Restrict(nodeIds[k..], nodes) && first in nodeIds[k..];
    var j :| 0 <= j < |nodeIds[k..]| && nodeIds[k..][j] == first;
    assert nodeIds[k + j] == first;
    IndexOf(nodeIds, k + j);
  }

  lemma {:induction false} InsertIntoRestricted(nodeIds: seq<string>, node: string, nodes: set<string>, k: nat)
    requires Distinct(nodeIds) && k <= |nodeIds| && node !in nodes
    requires k <= NodeOrderIndex(nodeIds, node) < |nodeIds|
    ensures InsertByIndex(nodeIds, node, Restrict(nodeIds[k..], nodes)) == Restrict(nodeIds[k..], nodes + {node})
    decreases |nodeIds| - k
  {
    IndexOf(nodeIds, k);
    RestrictStep(nodeIds, nodes, k);
    RestrictStep(nodeIds, nodes + {node}, k);
    if nodeIds[k] == node {
      hide Restrict;
      assert node !in nodeIds[k + 1..];
      RestrictIgnores(nodeIds[k + 1..], node, nodes);
      if Restrict(nodeIds[k + 1..], nodes) != [] { FirstOfRest(nodeIds, nodes, k + 1); }
    } else {
      hide Restrict;
      InsertIntoRestricted(nodeIds, node, nodes, k + 1);
      if nodeIds[k] in nodes {
        assert ([nodeIds[k]] + Restrict(nodeIds[k + 1..], nodes))[1..] == Restrict(nodeIds[k + 1..], nodes);
      } else {
        assert forall s: seq<string> :: [] + s == s;
      }
    }
  }

  lemma {:induction false} RestrictIgnores(nodeIds: seq<string>, node: string, nodes: set<string>)
    requires node !in nodeIds
    ensures Restrict(nodeIds, nodes + {node}) == Restrict(nodeIds, nodes)
  {
    if nodeIds != [] { RestrictIgnores(nodeIds[1..], node, nodes); }
  }

  /** Sorting a duplicate-free list of nodes gives them in document order. */
  lemma {:induction false} SortIsRestrict(nodeIds: seq<string>, nodes: seq<string>)
    requires Distinct(nodeIds) && Distinct(nodes) && forall n | n in nodes :: n in nodeIds
    ensures SortByIndex(nodeIds, nodes) == Restrict(nodeIds, Elements(nodes))
  {
    if nodes == [] {
      RestrictNothing(nodeIds);
      assert Elements(nodes) == {};
    } else {
      var front, last := nodes[..|nodes| - 1], nodes[|nodes| - 1];
      SortIsRestrict(nodeIds, front);
      assert last in nodes && last in nodeIds;
      var k :| 0 <= k < |nodeIds| && nodeIds[k] == last;
      IndexOf(nodeIds, k);
      assert Elements(nodes) == Elements(front) + {last};
      assert nodeIds[0..] == nodeIds;
      InsertIntoRestricted(nodeIds, last, Elements(front), 0);
    }
  }

  lemma {:induction false} RestrictNothing(nodeIds: seq<string>)
    ensures Restrict(nodeIds, {}) == []
  {
    if nodeIds != [] { RestrictNothing(nodeIds[1..]); }
  }

  // ----- The whole step -----

  datatype Wiring = Wiring(links: map<string, Links>, adjacency: map<string, seq<string>>, indegree: map<string, nat>)

  /** Dependency lists name each node once, however many parallel edges there are; the other two maps count. */
  ghost predicate Wired(nodeIds: seq<string>, edges: seq<Edge>, w: Wiring) {
    && w.links.Keys == w.adjacency.Keys == w.indegree.Keys == Elements(nodeIds)
    && (forall n | n in w.adjacency :: w.adjacency[n] == Targets(edges, n))
    && (forall n | n in w.indegree :: w.indegree[n] == CountInto(edges, n, {}))
    && (forall n | n in w.links :: LinksOf(edges, n, w.links[n]))
  }

  ghost predicate LinksOf(edges: seq<Edge>, node: string, links: Links) {
    && Distinct(links.dependencies) && (forall u :: u in links.dependencies <==> (u, node) in edges)
    && Distinct(links.downstream) && (forall v :: v in links.downstream <==> (node, v) in edges)
  }

  function AddOnce(nodes: seq<string>, node: string): seq<string> {
    if node in nodes then nodes else nodes + [node]
  }

  lemma AddOnceProperties(nodes: seq<string>, node: string)
    requires Distinct(nodes)
    ensures Distinct(AddOnce(nodes, node))
    ensures forall n :: n in AddOnce(nodes, node) <==> n in nodes || n == node
  {
  }

  lemma AddedLinks(edges: seq<Edge>, source: string, target: string, node: string, links: Links)
    requires LinksOf(edges, node, links)
    ensures LinksOf(edges + [(source, target)], node,
                    Links(if node == target then AddOnce(links.dependencies, source) else links.dependencies,
                          if node == source then AddOnce(links.downstream, target) else links.downstream))
  {
    AddOnceProperties(links.dependencies, source);
    AddOnceProperties(links.downstream, target);
  }

  /** Records one edge. A self-loop makes a node its own dependency. */
  method Connect(nodeIds: seq<string>, ghost edges: seq<Edge>, w: Wiring, source: string, target: string)
    returns (r: Wiring)
    requires Wired(nodeIds, edges, w) && source in nodeIds && target in nodeIds
    ensures Wired(nodeIds, edges + [(source, target)], r)
  {
    hide LinksOf, AddOnce;
    ghost var after := edges + [(source, target)];
    assert after[..|edges|] == edges;
    var links := w.links;
    links := links[target := links[target].(dependencies := AddOnce(links[target].dependencies, source))];
    links := links[source := links[source].(downstream := AddOnce(links[source].downstream, target))];
    r := Wiring(links, w.adjacency[source := w.adjacency[source] + [target]],
                w.indegree[target := w.indegree[target] + 1]);
    forall n | n in r.links
      ensures LinksOf(after, n, r.links[n])
    {
      AddedLinks(edges, source, target, n, w.links[n]);
    }
  }

  method ConnectAll(nodeIds: seq<string>, values: seq<EdgeValue>) returns (r: Result<Wiring, TopologyError>)
    ensures match ReadEdges(nodeIds, values)
            case Failure(error) => r == Failure(error)
            case Success(edges) => r.Success? && Wired(nodeIds, edges, r.value)
  {
    var links := map n | n in nodeIds :: Links([], []);
    var adjacency: map<string, seq<string>> := map n | n in nodeIds :: [];
    var indegree: map<string, nat> := map n | n in nodeIds :: 0;
    var w := Wiring(links, adjacency, indegree);
    ghost var edges: seq<Edge> := [];
    for i := 0 to |values|
      invariant ReadEdges(nodeIds, values[..i]) == Success(edges)
      invariant Wired(nodeIds, edges, w)
    {
      assert values[..i + 1][..i] == values[..i];
      var problem := EdgeProblem(nodeIds, values[i]);
      if problem.Some? {
        FirstProblem(nodeIds, values, i + 1);
        return Failure(problem.value);
      }
      w := Connect(nodeIds, edges, w, values[i].source.value, values[i].target.value);
      edges := edges + [(values[i].source.value, values[i].target.value)];
    }
    assert values[..|values|] == values;
    r := Success(w);
  }

  lemma {:induction false} FirstProblem(nodeIds: seq<string>, values: seq<EdgeValue>, k: nat)
    requires k <= |values| && ReadEdges(nodeIds, values[..k]).Failure?
    ensures ReadEdges(nodeIds, values) == ReadEdges(nodeIds, values[..k])
    decreases |values|
  {
    if k < |values| {
      var front := values[..|values| - 1];
      assert front[..k] == values[..k];
      FirstProblem(nodeIds, front, k);
    } else {
      assert values[..k] == values;
    }
  }

  datatype Ordered = Ordered(links: map<string, Links>, order: seq<string>)

  /** The list holds the nodes that satisfy the relation, each once and in document order. */
  ghost predicate ListsNeighbors(nodeIds: seq<string>, edges: seq<Edge>, node: string, links: Links) {
    && links.dependencies == Restrict(nodeIds, Elements(links.dependencies))
    && links.downstream == Restrict(nodeIds, Elements(links.downstream))
    && (forall u :: u in links.dependencies <==> (u, node) in edges)
    && (forall v :: v in links.downstream <==> (node, v) in edges)
  }

  lemma SortedLinks(nodeIds: seq<string>, edges: seq<Edge>, node: string, links: Links)
    requires Distinct(nodeIds) && LinksOf(edges, node, links)
    requires forall e | e in edges :: e.0 in nodeIds && e.1 in nodeIds
    ensures ListsNeighbors(nodeIds, edges, node,
                           Links(SortByIndex(nodeIds, links.dependencies), SortByIndex(nodeIds, links.downstream)))
  {
    SortIsRestrict(nodeIds, links.dependencies);
    SortIsRestrict(nodeIds, links.downstream);
    SameElements(nodeIds, links.dependencies);
    SameElements(nodeIds, links.downstream);
  }

  lemma SameElements(nodeIds: seq<string>, nodes: seq<string>)
    requires forall n | n in nodes :: n in nodeIds
    ensures Elements(Restrict(nodeIds, Elements(nodes))) == Elements(nodes)
  {
  }

  lemma {:induction false} EdgesAreKnown(nodeIds: seq<string>, values: seq<EdgeValue>)
    requires ReadEdges(nodeIds, values).Success?
    ensures forall e | e in ReadEdges(nodeIds, values).value :: e.0 in nodeIds && e.1 in nodeIds
  {
    if values != [] { EdgesAreKnown(nodeIds, values[..|values| - 1]); }
  }

  /** Main result. An edge list without bad edges passes exactly when it has no cycle. The order then lists every
      node once, every edge leads forward, and unrelated nodes are in the order in which they were queued. Otherwise
      exactly the nodes on or behind a cycle are reported, in document order; a cycle among them is certain because each
      has a reported predecessor. */
  ghost predicate TopologyMeaning(nodeIds: seq<string>, edges: seq<Edge>, r: Result<Ordered, TopologyError>) {
    match r
    case Success(ordered) =>
      && !Cyclic(edges)
      && Distinct(ordered.order) && Elements(ordered.order) == Elements(nodeIds) && |ordered.order| == |nodeIds|
      && Forward(edges, ordered.order) && ordered.order == Queued(nodeIds, edges, ordered.order)
      && ordered.links.Keys == Elements(nodeIds)
      && (forall n | n in ordered.links :: ListsNeighbors(nodeIds, edges, n, ordered.links[n]))
    case Failure(error) =>
      && Cyclic(edges)
      && error.Cycle?
      && error.nodes == Restrict(nodeIds, Elements(error.nodes))
      && (forall n :: n in error.nodes <==> n in nodeIds && AfterCycle(edges, n))
      && Stuck(edges, Elements(error.nodes))
      && error.nodes != []
  }

  method BuildTopology(nodeIds: seq<string>, values: seq<EdgeValue>) returns (r: Result<Ordered, TopologyError>)
    requires Distinct(nodeIds)
    ensures match ReadEdges(nodeIds, values)
            case Failure(error) => r == Failure(error)
            case Success(edges) => TopologyMeaning(nodeIds, edges, r)
  {
    hide Cyclic, AfterCycle, Forward, PredecessorClosed, Stuck, Restrict, ListsNeighbors, Distinct, Queued;
    var wired := ConnectAll(nodeIds, values);
    if wired.Failure? {
      return Failure(wired.error);
    }
    var w := wired.value;
    ghost var edges := ReadEdges(nodeIds, values).value;
    EdgesAreKnown(nodeIds, values);
    var links := map n | n in w.links ::
      Links(SortByIndex(nodeIds, w.links[n].dependencies), SortByIndex(nodeIds, w.links[n].downstream));
    forall n | n in links
      ensures ListsNeighbors(nodeIds, edges, n, links[n])
    {
      SortedLinks(nodeIds, edges, n, w.links[n]);
    }
    var order := OrderNodes(nodeIds, w.adjacency, w.indegree, edges);
    OrderMeaning(nodeIds, edges, order);
    if |order| != |nodeIds| {
      var visited := set n | n in order;
      var cycleNodes := FilterUnvisited(nodeIds, visited);
      return Failure(Cycle(cycleNodes));
    }
    r := Success(Ordered(links, order));
  }

  /** The ids not visited, in document order. */
  method FilterUnvisited(nodeIds: seq<string>, visited: set<string>) returns (r: seq<string>)
    ensures r == Restrict(nodeIds, Elements(nodeIds) - visited)
    ensures Elements(r) == Elements(nodeIds) - visited
  {
    r := [];
    for i := 0 to |nodeIds|
      invariant r == Restrict(nodeIds[..i], Elements(nodeIds) - visited)
    {
      RestrictSnoc(nodeIds[..i], nodeIds[i], Elements(nodeIds) - visited);
      assert nodeIds[..i + 1] == nodeIds[..i] + [nodeIds[i]];
      if nodeIds[i] !in visited {
        r := r + [nodeIds[i]];
      }
    }
    assert nodeIds[..|nodeIds|] == nodeIds;
  }

  lemma {:induction false} RestrictSnoc(nodeIds: seq<string>, node: string, nodes: set<string>)
    ensures Restrict(nodeIds + [node], nodes) == Restrict(nodeIds, nodes) + if node in nodes then [node] else []
  {
    hide Restrict;
    if nodeIds == [] {
      RestrictHead(node, [], nodes);
      assert [] + [node] == [node] + [];
    } else {
      RestrictSnoc(nodeIds[1..], node, nodes);
      RestrictHead(nodeIds[0], nodeIds[1..], nodes);
      RestrictHead(nodeIds[0], nodeIds[1..] + [node], nodes);
      assert nodeIds == [nodeIds[0]] + nodeIds[1..] && nodeIds + [node] == [nodeIds[0]] + (nodeIds[1..] + [node]);
      var head := if nodeIds[0] in nodes then [nodeIds[0]] else [];
      var last := if node in nodes then [node] else [];
      var middle := Restrict(nodeIds[1..], nodes);
      assert (head + middle) + last == head + (middle + last);
    }
  }

  lemma RestrictHead(node: string, rest: seq<string>, nodes: set<string>)
    ensures Restrict([], nodes) == []
    ensures Restrict([node] + rest, nodes) == (if node in nodes then [node] else []) + Restrict(rest, nodes)
  {
    assert ([node] + rest)[1..] == rest;
  }

  /** What the order says about cycles. */
  lemma OrderMeaning(nodeIds: seq<string>, edges: seq<Edge>, order: seq<string>)
    requires Distinct(nodeIds) && Distinct(order) && Elements(order) <= Elements(nodeIds)
    requires Forward(edges, order) && PredecessorClosed(edges, Elements(order))
    requires Stuck(edges, Elements(nodeIds) - Elements(order))
    requires forall e | e in edges :: e.0 in nodeIds && e.1 in nodeIds
    ensures |order| == |nodeIds| <==> Elements(order) == Elements(nodeIds)
    ensures |order| == |nodeIds| <==> !Cyclic(edges)
    ensures forall n | n in nodeIds :: n !in order <==> AfterCycle(edges, n)
  {
    hide Forward, PredecessorClosed, Stuck, AfterCycle, Cyclic, Distinct;
    var rest := Elements(nodeIds) - Elements(order);
    forall n | n in nodeIds
      ensures n !in order <==> AfterCycle(edges, n)
    {
      if n in order {
        ForwardAvoidsCycles(edges, order, n);
      } else {
        StuckIsAfterCycle(edges, rest, n);
      }
    }
    DistinctSize(nodeIds);
    DistinctSize(order);
    CyclicIffAfterCycle(edges);
    AfterCycleIsKnown(nodeIds, edges);
    if Elements(order) != Elements(nodeIds) {
      SmallerSet(Elements(order), Elements(nodeIds));
      var n :| n in rest;
      assert AfterCycle(edges, n);
    } else {
      assert forall n :: n in order <==> n in Elements(order);
      assert forall n :: n in nodeIds <==> n in Elements(nodeIds);
    }
  }

  lemma SmallerSet(a: set<string>, b: set<string>)
    requires a <= b && a != b
    ensures |a| < |b| && b - a != {}
  {
    assert b == a + (b - a);
    assert b - a != {};
  }

  lemma AfterCycleIsKnown(nodeIds: seq<string>, edges: seq<Edge>)
    requires forall e | e in edges :: e.0 in nodeIds && e.1 in nodeIds
    ensures forall n | AfterCycle(edges, n) :: n in nodeIds
  {
    forall n | AfterCycle(edges, n)
      ensures n in nodeIds
    {
      var cycle, path :| ClosedWalk(edges, cycle) && Walk(edges, path) &&
                         path[0] == cycle[0] && path[|path| - 1] == n;
      assert (cycle[0], cycle[1]) in edges;
      if |path| > 1 { assert (path[|path| - 2], path[|path| - 1]) in edges; }
    }
  }
}
