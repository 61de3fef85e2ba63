/** Directed multigraphs as sequences of edges, and what a cycle in one is. */
module Graph {

  type Edge = (string, string)

  /** Every step of the path follows an edge. */
  ghost predicate Walk(edges: seq<Edge>, path: seq<string>) {
    path != [] && forall i, j | 0 <= i < j < |path| && j == i + 1 :: (path[i], path[j]) in edges
  }

  ghost predicate ClosedWalk(edges: seq<Edge>, path: seq<string>) {
    Walk(edges, path) && |path| >= 2 && path[0] == path[|path| - 1]
  }

  /** There is a cycle; a self-loop is one. */
  ghost predicate Cyclic(edges: seq<Edge>) {
    exists path :: ClosedWalk(edges, path)
  }

  /** The node lies on a cycle or can be reached from one. */
  ghost predicate AfterCycle(edges: seq<Edge>, node: string) {
    exists cycle, path :: ClosedWalk(edges, cycle) && Walk(edges, path) &&
                          path[0] == cycle[0] && path[|path| - 1] == node
  }

  /** No edge leads from a place in the list to an earlier or the same one. */
  ghost predicate Forward(edges: seq<Edge>, order: seq<string>) {
    forall i, j | 0 <= i < |order| && 0 <= j < |order| && (order[i], order[j]) in edges :: i < j
  }

  /** The order lists everything that leads to one of its nodes. */
  ghost predicate PredecessorClosed(edges: seq<Edge>, nodes: set<string>) {
    forall e | e in edges && e.1 in nodes :: e.0 in nodes
  }

  ghost predicate HasPredecessorIn(edges: seq<Edge>, nodes: set<string>, node: string) {
    exists u :: u in nodes && (u, node) in edges
  }

  ghost predicate Stuck(edges: seq<Edge>, nodes: set<string>) {
    forall v {:trigger HasPredecessorIn(edges, nodes, v)} | v in nodes :: HasPredecessorIn(edges, nodes, v)
  }

  ghost function Elements(s: seq<string>): set<string> {
    set x | x in s
  }

  lemma ElementsSnoc(s: seq<string>, x: string)
    ensures Elements(s + [x]) == Elements(s) + {x}
  {
  }

  predicate Distinct(s: seq<string>) {
    forall i, j | 0 <= i < j < |s| :: s[i] != s[j]
  }

  lemma {:induction false} DistinctSize(s: seq<string>)
    requires Distinct(s)
    ensures |Elements(s)| == |s|
  {
    if s != [] {
      DistinctSize(s[1..]);
      assert Elements(s) == Elements(s[1..]) + {s[0]};
    }
  }

  /** Walking backwards from a node of a predecessor-closed set stays in the set. */
  lemma {:induction false} WalkStaysInside(edges: seq<Edge>, nodes: set<string>, path: seq<string>)
    requires Walk(edges, path) && PredecessorClosed(edges, nodes) && path[|path| - 1] in nodes
    ensures forall i | 0 <= i < |path| :: path[i] in nodes
  {
    if |path| > 1 {
      assert (path[|path| - 2], path[|path| - 1]) in edges;
      WalkStaysInside(edges, nodes, path[..|path| - 1]);
    }
  }

  /** A walk along a forward order makes progress. */
  lemma {:induction false} WalkGoesForward(edges: seq<Edge>, order: seq<string>, path: seq<string>, i: nat, j: nat)
    requires Forward(edges, order) && Walk(edges, path) && |path| >= 2
    requires forall k | 0 <= k < |path| :: path[k] in order
    requires i < |order| && j < |order| && order[i] == path[0] && order[j] == path[|path| - 1]
    ensures i < j
  {
    assert (path[0], path[1]) in edges;
    if |path| > 2 {
      var k :| 0 <= k < |order| && order[k] == path[1];
      WalkGoesForward(edges, order, path[1..], k, j);
    }
  }

  /** Nothing in a predecessor-closed forward order lies behind a cycle. */
  lemma ForwardAvoidsCycles(edges: seq<Edge>, order: seq<string>, node: string)
    requires Forward(edges, order) && PredecessorClosed(edges, Elements(order)) && node in order
    ensures !AfterCycle(edges, node)
  {
    if AfterCycle(edges, node) {
      var cycle, path :| ClosedWalk(edges, cycle) && Walk(edges, path) &&
                         path[0] == cycle[0] && path[|path| - 1] == node;
      WalkStaysInside(edges, Elements(order), path);
      WalkStaysInside(edges, Elements(order), cycle);
      var i :| 0 <= i < |order| && order[i] == cycle[0];
      WalkGoesForward(edges, order, cycle, i, i);
      assert false;
    }
  }

  /** Steps backwards from a node through a set in which every node has a predecessor. */
  lemma {:induction false} WalkBack(edges: seq<Edge>, stuck: set<string>, node: string, n: nat)
    returns (path: seq<string>)
    requires node in stuck
    requires Stuck(edges, stuck)
    ensures Walk(edges, path) && |path| == n + 1 && path[n] == node
    ensures forall i | 0 <= i <= n :: path[i] in stuck
    decreases n
  {
    if n == 0 {
      path := [node];
    } else {
      assert HasPredecessorIn(edges, stuck, node);
      var u :| u in stuck && (u, node) in edges;
      var before := WalkBack(edges, stuck, u, n - 1);
      path := before + [node];
      forall i, j | 0 <= i < j < |path| && j == i + 1
        ensures (path[i], path[j]) in edges
      {
        if j < n { assert (before[i], before[j]) in edges; }
      }
    }
  }

  lemma {:induction false} Pigeonhole(s: seq<string>, holes: set<string>) returns (i: nat, j: nat)
    requires |s| > |holes| && forall k | 0 <= k < |s| :: s[k] in holes
    ensures i < j < |s| && s[i] == s[j]
  {
    if exists k :: 0 < k < |s| && s[k] == s[0] {
      j :| 0 < j < |s| && s[j] == s[0];
      i := 0;
    } else {
      i, j := Pigeonhole(s[1..], holes - {s[0]});
      i, j := i + 1, j + 1;
    }
  }

  lemma SubWalk(edges: seq<Edge>, path: seq<string>, i: nat, j: nat)
    requires Walk(edges, path) && i < j <= |path|
    ensures Walk(edges, path[i..j])
  {
    var part := path[i..j];
    forall k, l | 0 <= k < l < |part| && l == k + 1
      ensures (part[k], part[l]) in edges
    {
      assert part[k] == path[i + k] && part[l] == path[i + l];
    }
  }

  lemma LoopOnWalk(edges: seq<Edge>, path: seq<string>, i: nat, j: nat)
    requires Walk(edges, path) && i < j < |path| && path[i] == path[j]
    ensures AfterCycle(edges, path[|path| - 1])
  {
    hide Walk, AfterCycle;
    SubWalk(edges, path, i, j + 1);
    SubWalk(edges, path, i, |path|);
    ReachedFromCycle(edges, path[i..j + 1], path[i..|path|]);
  }

  lemma ReachedFromCycle(edges: seq<Edge>, cycle: seq<string>, tail: seq<string>)
    requires Walk(edges, cycle) && |cycle| >= 2 && cycle[0] == cycle[|cycle| - 1]
    requires Walk(edges, tail) && tail != [] && tail[0] == cycle[0]
    ensures AfterCycle(edges, tail[|tail| - 1])
  {
    hide Walk;
    assert ClosedWalk(edges, cycle);
  }

  /** If every node of a set has a predecessor in the set, all of it lies behind a cycle. */
  lemma StuckIsAfterCycle(edges: seq<Edge>, stuck: set<string>, node: string)
    requires node in stuck
    requires Stuck(edges, stuck)
    ensures AfterCycle(edges, node)
  {
    hide Walk, Stuck, AfterCycle;
    var path := WalkBack(edges, stuck, node, |stuck|);
    var i, j := Pigeonhole(path, stuck);
    LoopOnWalk(edges, path, i, j);
  }

  lemma CyclicIffAfterCycle(edges: seq<Edge>)
    ensures Cyclic(edges) <==> exists node :: AfterCycle(edges, node)
  {
    if Cyclic(edges) {
      var cycle :| ClosedWalk(edges, cycle);
      assert Walk(edges, [cycle[0]]);
      assert AfterCycle(edges, cycle[0]);
    }
  }
}
