/** Compiling a flow document into a plan, and preparing the plan for a run: the node loop of
    `build_nodes_and_topology` (orchestration-runtime/src/compiler.rs) followed by `freeze_failover_queue_routes`
    (control-plane/src/orchestration_runtime.rs). */
module FlowCompiler {
  import opened Wrappers
  import opened Graph
  import opened Json
  import opened LlmRouting
  import opened PluginNodes
  import opened Sorting
  import opened Topology

  /** A node of the document with its id and its type. */
  datatype NodeValue = NodeValue(id: string, nodeType: string, json: Value) {
    function Config(): Value {
      match Get(json, "config")
      case None => Object(map[])
      case Some(config) => config
    }
  }

  datatype CompiledNode = CompiledNode(nodeType: string, config: Value, llm: Option<LlmRuntime>,
                                       plugin: Option<PluginRuntime>, links: Links)

  datatype CompileError = DuplicateNode(id: string) | BadTopology(error: TopologyError)

  class CompiledPlan {
    var nodes: map<string, CompiledNode>
    var topologicalOrder: seq<string>
    var compileIssues: seq<Issue>

    constructor (nodes: map<string, CompiledNode>, topologicalOrder: seq<string>, compileIssues: seq<Issue>)
      ensures this.nodes == nodes && this.topologicalOrder == topologicalOrder && this.compileIssues == compileIssues
    {
      this.nodes, this.topologicalOrder, this.compileIssues := nodes, topologicalOrder, compileIssues;
    }

    /** Freezes the nodes in the order of their ids and stops at the first that cannot be frozen. Nodes frozen before
        it stay frozen; nodes behind it are not reached. */
    method FreezeFailoverQueueRoutes(repo: Repository) returns (ok: bool)
      modifies this`nodes
      ensures nodes.Keys == old(nodes.Keys)
      ensures ok <==> forall n | n in old(nodes) :: NodeFreezable(repo, n, old(nodes)[n])
      ensures FrozenInOrder(repo, old(nodes), nodes)
      ensures forall n | n in nodes :: ok ==> NodeFrozen(repo, n, old(nodes)[n], nodes[n])
    {
      hide FrozenFrom, Freezable, Lists, FailedRuntime, NodeFrozen, NodeFreezable, FrozenInOrder, OpenQueue, Precedes,
           FrozenUpTo;
      ghost var before := nodes;
      var ids := Sort(nodes.Keys);
      ListedIds(ids, before);
      NothingFrozen(repo, ids, before);
      for i := 0 to |ids|
        invariant FrozenUpTo(repo, ids, before, nodes, i)
      {
        NextToFreeze(repo, ids, before, nodes, i);
        var node, frozen := FreezeNode(repo, ids[i], nodes[ids[i]]);
        ghost var last := nodes;
        nodes := nodes[ids[i] := node];
        if !frozen {
          StoppedAt(repo, ids, before, last, node, i);
          return false;
        }
        FrozenOneMore(repo, ids, before, last, node, i);
      }
      AllFrozen(repo, ids, before, nodes);
      ok := true;
    }
  }

  /** One turn of the loop. */
  method FreezeNode(repo: Repository, n: string, before: CompiledNode) returns (after: CompiledNode, ok: bool)
    ensures ok <==> NodeFreezable(repo, n, before)
    ensures ok ==> NodeFrozen(repo, n, before, after)
    ensures !ok ==> OpenQueue(before) && after == before.(llm := Some(FailedRuntime(repo, n, before.llm.value)))
  {
    hide FrozenFrom, Freezable, FailedRuntime;
    after, ok := before, true;
    if before.llm.Some? {
      var runtime;
      runtime, ok := FreezeRuntime(repo, n, before.llm.value);
      after := before.(llm := Some(runtime));
    }
  }

  /** The node is as freezing leaves it: only its LLM runtime changed, as `FrozenFrom` says. */
  ghost predicate NodeFrozen(repo: Repository, n: string, before: CompiledNode, after: CompiledNode) {
    && after == before.(llm := after.llm)
    && (before.llm.None? ==> after.llm.None?)
    && (before.llm.Some? ==> after.llm.Some? && FrozenFrom(repo, n, before.llm.value, after.llm.value))
  }

  predicate OpenQueue(node: CompiledNode) {
    node.llm.Some? && NeedsFreezing(node.llm.value)
  }

  ghost predicate NodeFreezable(repo: Repository, n: string, node: CompiledNode) {
    OpenQueue(node) ==> Freezable(repo, n, node.llm.value)
  }

  ghost predicate Precedes(m: string, n: string) {
    LexLe(m, n) && m != n
  }

  /** All nodes with smaller ids can be frozen. */
  ghost predicate Reached(repo: Repository, before: map<string, CompiledNode>, n: string) {
    forall m | m in before && Precedes(m, n) :: NodeFreezable(repo, m, before[m])
  }

  /** What becomes of a node: nothing if it is not reached, the frozen node if it can be frozen, or what a failed freeze
      leaves. */
  ghost predicate NodeAfter(repo: Repository, before: map<string, CompiledNode>, n: string, after: CompiledNode)
    requires n in before
  {
    if !Reached(repo, before, n) then after == before[n]
    else if NodeFreezable(repo, n, before[n]) then NodeFrozen(repo, n, before[n], after)
    else after == before[n].(llm := Some(FailedRuntime(repo, n, before[n].llm.value)))
  }

  ghost predicate FrozenInOrder(repo: Repository, before: map<string, CompiledNode>, after: map<string, CompiledNode>) {
    after.Keys == before.Keys && forall n | n in before :: NodeAfter(repo, before, n, after[n])
  }

  lemma ListedIds(ids: seq<string>, nodes: map<string, CompiledNode>)
    requires Lists(ids, nodes.Keys)
    ensures forall i | 0 <= i < |ids| :: ids[i] in nodes
    ensures forall i, j | 0 <= i < j < |ids| :: ids[i] != ids[j]
    ensures forall n | n in nodes :: n in ids
    ensures forall i, j | 0 <= i < |ids| && 0 <= j < |ids| :: Precedes(ids[i], ids[j]) <==> i < j
  {
    hide LexLe;
    forall i, j | 0 <= i < |ids| && 0 <= j < |ids|
      ensures Precedes(ids[i], ids[j]) <==> i < j
    {
      if j < i && LexLe(ids[i], ids[j]) { LexAntisymmetric(ids[i], ids[j]); }
    }
  }

  /** The first `n` nodes are frozen and the others are not reached. */
  ghost predicate FrozenUpTo(repo: Repository, ids: seq<string>, before: map<string, CompiledNode>,
                             nodes: map<string, CompiledNode>, n: nat)
    requires forall i | 0 <= i < |ids| :: ids[i] in before
  {
    && nodes.Keys == before.Keys && n <= |ids|
    && (forall j | n <= j < |ids| :: nodes[ids[j]] == before[ids[j]])
    && (forall j | 0 <= j < n :: NodeFreezable(repo, ids[j], before[ids[j]]))
    && (forall j | 0 <= j < n :: NodeFrozen(repo, ids[j], before[ids[j]], nodes[ids[j]]))
  }

  lemma NothingFrozen(repo: Repository, ids: seq<string>, nodes: map<string, CompiledNode>)
    requires forall i | 0 <= i < |ids| :: ids[i] in nodes
    ensures FrozenUpTo(repo, ids, nodes, nodes, 0)
  {
  }

  lemma NextToFreeze(repo: Repository, ids: seq<string>, before: map<string, CompiledNode>,
                     nodes: map<string, CompiledNode>, i: nat)
    requires forall j | 0 <= j < |ids| :: ids[j] in before
    requires FrozenUpTo(repo, ids, before, nodes, i) && i < |ids|
    ensures nodes.Keys == before.Keys && nodes[ids[i]] == before[ids[i]]
  {
  }

  lemma FrozenOneMore(repo: Repository, ids: seq<string>, before: map<string, CompiledNode>,
                      nodes: map<string, CompiledNode>, node: CompiledNode, i: nat)
    requires forall j | 0 <= j < |ids| :: ids[j] in before
    requires forall j, k | 0 <= j < k < |ids| :: ids[j] != ids[k]
    requires FrozenUpTo(repo, ids, before, nodes, i) && i < |ids|
    requires NodeFreezable(repo, ids[i], before[ids[i]]) && NodeFrozen(repo, ids[i], before[ids[i]], node)
    ensures FrozenUpTo(repo, ids, before, nodes[ids[i] := node], i + 1)
  {
    hide NodeFreezable, NodeFrozen;
  }

  lemma StoppedAt(repo: Repository, ids: seq<string>, before: map<string, CompiledNode>,
                  nodes: map<string, CompiledNode>, node: CompiledNode, i: nat)
    requires Lists(ids, before.Keys) && i < |ids|
    requires forall j | 0 <= j < |ids| :: ids[j] in before
    requires FrozenUpTo(repo, ids, before, nodes, i)
    requires !NodeFreezable(repo, ids[i], before[ids[i]])
    requires node == before[ids[i]].(llm := Some(FailedRuntime(repo, ids[i], before[ids[i]].llm.value)))
    ensures FrozenInOrder(repo, before, nodes[ids[i] := node])
  {
    hide NodeFreezable, NodeFrozen, Precedes, Lists, FailedRuntime;
    ListedIds(ids, before);
    var after := nodes[ids[i] := node];
    forall n | n in before
      ensures NodeAfter(repo, before, n, after[n])
    {
      var k :| 0 <= k < |ids| && ids[k] == n;
      forall m | m in before && Precedes(m, n)
        ensures exists j | 0 <= j < k :: ids[j] == m
      {
        var j :| 0 <= j < |ids| && ids[j] == m;
      }
      if k > i { assert Precedes(ids[i], ids[k]); }
    }
  }

  lemma AllFrozen(repo: Repository, ids: seq<string>, before: map<string, CompiledNode>,
                  after: map<string, CompiledNode>)
    requires Lists(ids, before.Keys)
    requires forall j | 0 <= j < |ids| :: ids[j] in before
    requires FrozenUpTo(repo, ids, before, after, |ids|)
    ensures FrozenInOrder(repo, before, after)
    ensures after.Keys == before.Keys
    ensures forall n | n in before :: NodeFreezable(repo, n, before[n]) && NodeFrozen(repo, n, before[n], after[n])
  {
    hide NodeFreezable, NodeFrozen, Precedes, Lists;
    ListedIds(ids, before);
    forall n | n in before
      ensures NodeFreezable(repo, n, before[n]) && NodeFrozen(repo, n, before[n], after[n])
    {
      var k :| 0 <= k < |ids| && ids[k] == n;
    }
  }

  /** No snapshot is going to be stored for the open queue, or the queue has the id of that snapshot already. */
  predicate KeepsSnapshot(repo: Repository, n: string, queue: LlmRuntime)
    requires NeedsFreezing(queue)
  {
    SnapshotTaken(repo, n, queue) ==> queue.routing.value.snapshotId == Some(repo.snapshots[n])
  }

  lemma FailedChangesIff(repo: Repository, n: string, queue: LlmRuntime)
    requires NeedsFreezing(queue)
    ensures FailedRuntime(repo, n, queue) == queue <==> KeepsSnapshot(repo, n, queue)
  {
  }

  /** A failed freeze is not rolled back. The plan is as before exactly when no open queue has a smaller id than the one
      that failed and that one keeps its snapshot id. */
  lemma FailedFreezeUnchangedIff(repo: Repository, before: map<string, CompiledNode>, after: map<string, CompiledNode>,
                                 failed: string)
    requires FrozenInOrder(repo, before, after) && failed in before
    requires Reached(repo, before, failed) && !NodeFreezable(repo, failed, before[failed])
    ensures after == before <==>
            && (forall m | m in before && Precedes(m, failed) :: !OpenQueue(before[m]))
            && KeepsSnapshot(repo, failed, before[failed].llm.value)
    ensures forall m | m in before && Precedes(m, failed) && OpenQueue(before[m]) ::
              after[m].llm.Some? && Mirrored(after[m].llm.value)
  {
    FailedChangesIff(repo, failed, before[failed].llm.value);
    hide Freezable, FailedRuntime, KeepsSnapshot;
    forall m | m in before && Precedes(m, failed)
      ensures after[m] == before[m] <==> !OpenQueue(before[m])
      ensures OpenQueue(before[m]) ==> after[m].llm.Some? && Mirrored(after[m].llm.value)
    {
      EarlierReached(repo, before, m, failed);
      FrozenChangesIff(repo, m, before[m], after[m]);
    }
    if (forall m | m in before && Precedes(m, failed) :: !OpenQueue(before[m]))
       && KeepsSnapshot(repo, failed, before[failed].llm.value) {
      forall m | m in before
        ensures after[m] == before[m]
      {
        if m != failed && !Precedes(m, failed) {
          LexTotal(m, failed);
          assert Precedes(failed, m);
        }
      }
    }
  }

  /** A plan that a failed freeze changes: the first queue can be frozen, the second one names no template. */
  lemma FailedFreezeChanges(target: Target, links: Links, after: map<string, CompiledNode>)
    requires var (repo, before) := HalfFreezable(target, links); FrozenInOrder(repo, before, after)
    ensures var (repo, before) := HalfFreezable(target, links);
            && NodeFreezable(repo, "a", before["a"]) && !NodeFreezable(repo, "b", before["b"])
            && after["a"].llm.Some? && Mirrored(after["a"].llm.value) && after["a"].llm.value.top == target
            && after["b"] == before["b"] && after["a"] != before["a"]
  {
    var (repo, before) := HalfFreezable(target, links);
    var queue := before["a"].llm.value;
    var items := [QueueItem(target, true)];
    assert SnapshotTaken(repo, "a", queue) && QueueItems(repo, "a", queue) == items;
    assert items[0] in items && items[0].enabled;
    assert EnabledTargets(items) == [target] by { assert items[..0] == []; }
    assert !Precedes("b", "a") && !Precedes("a", "a") && !Precedes("b", "b");
    assert NodeAfter(repo, before, "a", after["a"]) && NodeAfter(repo, before, "b", after["b"]);
  }

  function HalfFreezable(target: Target, links: Links): (Repository, map<string, CompiledNode>) {
    (Repository(map["t" := "u"], map["u" := "active"], map["u" := [QueueItem(target, true)]], map["a" := "s"]),
     map["a" := OpenNode(Some("t"), links), "b" := OpenNode(None, links)])
  }

  function OpenNode(templateId: Option<string>, links: Links): CompiledNode {
    var queue := LlmRuntime(NO_TARGET, Some(FailoverQueue(templateId, None, [])));
    CompiledNode("llm", Object(map[]), Some(queue), None, links)
  }

  lemma EarlierReached(repo: Repository, before: map<string, CompiledNode>, m: string, n: string)
    requires Reached(repo, before, n) && m in before && Precedes(m, n)
    ensures Reached(repo, before, m) && NodeFreezable(repo, m, before[m])
  {
    hide NodeFreezable;
    forall l | l in before && Precedes(l, m)
      ensures NodeFreezable(repo, l, before[l])
    {
      LexTransitive(l, m, n);
      if l == n { LexAntisymmetric(m, n); }
    }
  }

  lemma FrozenChangesIff(repo: Repository, n: string, before: CompiledNode, after: CompiledNode)
    requires NodeFrozen(repo, n, before, after)
    ensures after == before <==> !OpenQueue(before)
    ensures OpenQueue(before) ==> after.llm.Some? && Mirrored(after.llm.value)
  {
    hide Freezable;
  }

  function Ids(values: seq<NodeValue>): seq<string> {
    if values == [] then [] else Ids(values[..|values| - 1]) + [values[|values| - 1].id]
  }

  /** The node compiles without issue. */
  predicate Clean(ctx: Context, value: NodeValue) {
    && (value.nodeType == "llm" ==> LlmClean(ctx, value.Config()))
    && (value.nodeType == "plugin_node" ==> PluginReady(ctx, ReadPlugin(value.json)))
  }

  ghost predicate NodeOf(ctx: Context, value: NodeValue, node: CompiledNode) {
    && node.nodeType == value.nodeType && node.config == value.Config()
    && node.llm == (if value.nodeType == "llm" then LlmRuntimeOf(ctx, value.Config()) else None)
    && node.plugin == if value.nodeType == "plugin_node" then PluginRuntimeOf(ctx, ReadPlugin(value.json)) else None
  }

  /** The plan holds a compiled node for every value. */
  ghost predicate PlanOf(ctx: Context, values: seq<NodeValue>, nodes: map<string, CompiledNode>) {
    && nodes.Keys == Elements(Ids(values))
    && forall value | value in values :: value.id in nodes && NodeOf(ctx, value, nodes[value.id])
  }

  function NodeIssues(ctx: Context, value: NodeValue): seq<IssueCode> {
    if value.nodeType == "llm" then LlmIssues(ctx, value.Config())
    else if value.nodeType == "plugin_node" then PluginIssues(ctx, ReadPlugin(value.json))
    else []
  }

  /** The issues of all nodes, in the order of the document. */
  function AllIssues(ctx: Context, values: seq<NodeValue>): seq<Issue> {
    if values == [] then []
    else
      var last := values[|values| - 1];
      AllIssues(ctx, values[..|values| - 1]) + IssuesFor(last.id, NodeIssues(ctx, last))
  }

  /** The issue is due for one of the nodes. */
  ghost predicate Due(ctx: Context, values: seq<NodeValue>, issue: Issue) {
    exists value <- values :: value.id == issue.nodeId && NodeDiagnosis(ctx, value, issue.code)
  }

  ghost predicate NodeDiagnosis(ctx: Context, value: NodeValue, code: IssueCode) {
    || (value.nodeType == "llm" && LlmDiagnosis(ctx, value.Config(), code))
    || (value.nodeType == "plugin_node" && PluginDiagnosis(ctx, ReadPlugin(value.json), code))
  }

  /** The issues reported are exactly those that are due. */
  ghost predicate IssuesOf(ctx: Context, values: seq<NodeValue>, issues: seq<Issue>) {
    forall issue :: issue in issues <==> Due(ctx, values, issue)
  }

  function IssuesFor(nodeId: string, codes: seq<IssueCode>): (issues: seq<Issue>)
    ensures forall issue :: issue in issues <==> issue.nodeId == nodeId && issue.code in codes
    ensures |issues| == |codes| && forall i | 0 <= i < |codes| :: issues[i] == Issue(nodeId, codes[i])
  {
    if codes == [] then [] else IssuesFor(nodeId, codes[..|codes| - 1]) + [Issue(nodeId, codes[|codes| - 1])]
  }

  lemma {:induction false} IdOfValue(values: seq<NodeValue>, value: NodeValue)
    requires value in values
    ensures value.id in Ids(values)
  {
    if value != values[|values| - 1] {
      assert value in values[..|values| - 1];
      IdOfValue(values[..|values| - 1], value);
    }
  }

  lemma {:induction false} IdsOfPrefix(values: seq<NodeValue>, k: nat)
    requires k <= |values|
    ensures |Ids(values)| == |values| && Ids(values)[..k] == Ids(values[..k])
    decreases |values|
  {
    if values != [] {
      var front := values[..|values| - 1];
      if k < |values| {
        IdsOfPrefix(front, k);
        assert front[..k] == values[..k];
      } else {
        IdsOfPrefix(front, |front|);
        assert values[..k] == values;
        assert Ids(values)[..k] == Ids(values);
      }
    }
  }

  lemma AddNode(ctx: Context, front: seq<NodeValue>, nodes: map<string, CompiledNode>, value: NodeValue,
                node: CompiledNode)
    requires PlanOf(ctx, front, nodes) && NodeOf(ctx, value, node)
    requires value.id !in nodes
    ensures PlanOf(ctx, front + [value], nodes[value.id := node])
    ensures Distinct(Ids(front)) ==> Distinct(Ids(front + [value]))
  {
    var values := front + [value];
    assert values[..|front|] == front;
    assert Ids(values) == Ids(front) + [value.id];
    assert Elements(Ids(values)) == Elements(Ids(front)) + {value.id};
    forall v | v in values
      ensures v.id in nodes[value.id := node] && NodeOf(ctx, v, nodes[value.id := node][v.id])
    {
      if v in front { IdOfValue(front, v); }
    }
  }

  lemma AddIssues(ctx: Context, front: seq<NodeValue>, issues: seq<Issue>, value: NodeValue, codes: seq<IssueCode>)
    requires IssuesOf(ctx, front, issues) && forall code :: code in codes <==> NodeDiagnosis(ctx, value, code)
    ensures IssuesOf(ctx, front + [value], issues + IssuesFor(value.id, codes))
  {
    hide NodeDiagnosis;
    forall issue
      ensures issue in issues + IssuesFor(value.id, codes) <==> Due(ctx, front + [value], issue)
    {
      assert issue in issues <==> Due(ctx, front, issue);
      assert Due(ctx, front + [value], issue) <==>
             Due(ctx, front, issue) || (value.id == issue.nodeId && NodeDiagnosis(ctx, value, issue.code));
    }
  }

  /** The loop over the nodes. It fails at the first id that was there before. */
  method CompileNodes(values: seq<NodeValue>, ctx: Context)
    returns (r: Result<map<string, CompiledNode>, CompileError>, issues: seq<Issue>)
    ensures r.Failure? ==> r.error.DuplicateNode? && FirstDuplicate(values, r.error.id)
    ensures r.Success? ==> Distinct(Ids(values)) && PlanOf(ctx, values, r.value) && IssuesOf(ctx, values, issues)
    ensures r.Success? ==> issues == AllIssues(ctx, values)
  {
    hide PlanOf, NodeOf, IssuesOf, IssuesFor, NodeDiagnosis, NodeIssues;
    var nodes: map<string, CompiledNode> := map[];
    issues := [];
    EmptyPlan(ctx);
    for i := 0 to |values|
      invariant nodes.Keys == Elements(Ids(values[..i])) && Distinct(Ids(values[..i]))
      invariant PlanOf(ctx, values[..i], nodes)
      invariant IssuesOf(ctx, values[..i], issues)
      invariant issues == AllIssues(ctx, values[..i])
    {
      assert values[..i + 1][..i] == values[..i];
      assert values[..i + 1] == values[..i] + [values[i]];
      var node, codes := CompileNode(values[i], ctx);
      AddIssues(ctx, values[..i], issues, values[i], codes);
      issues := issues + IssuesFor(values[i].id, codes);
      if values[i].id in nodes {
        assert FirstDuplicate(values, values[i].id);
        return Failure(DuplicateNode(values[i].id)), issues;
      }
      AddNode(ctx, values[..i], nodes, values[i], node);
      nodes := nodes[values[i].id := node];
      PlanKeys(ctx, values[..i + 1], nodes);
    }
    assert values[..|values|] == values;
    r := Success(nodes);
  }

  /** The first node whose id repeats an earlier one has this id. */
  ghost predicate FirstDuplicate(values: seq<NodeValue>, id: string) {
    exists i ::
      0 <= i < |values| && Distinct(Ids(values[..i])) && values[i].id == id && id in Elements(Ids(values[..i]))
  }

  method CompileNode(value: NodeValue, ctx: Context) returns (node: CompiledNode, codes: seq<IssueCode>)
    ensures codes == NodeIssues(ctx, value)
    ensures forall code :: code in codes <==> NodeDiagnosis(ctx, value, code)
    ensures NodeOf(ctx, value, node)
  {
    hide LlmDiagnosis, LlmRuntimeOf, LlmIssues, PluginDiagnosis, PluginRuntimeOf, PluginIssues;
    var llm: Option<LlmRuntime> := None;
    var plugin: Option<PluginRuntime> := None;
    codes := [];
    if value.nodeType == "llm" {
      llm, codes := CompileLlmRuntime(value.Config(), ctx);
    }
    if value.nodeType == "plugin_node" {
      plugin, codes := CompilePluginRuntime(value.json, ctx);
    }
    node := CompiledNode(value.nodeType, value.Config(), llm, plugin, Links([], []));
  }

  lemma EmptyPlan(ctx: Context)
    ensures PlanOf(ctx, [], map[]) && IssuesOf(ctx, [], [])
    ensures Elements(Ids([])) == {} && Distinct(Ids([]))
  {
  }

  lemma PlanKeys(ctx: Context, values: seq<NodeValue>, nodes: map<string, CompiledNode>)
    requires PlanOf(ctx, values, nodes)
    ensures nodes.Keys == Elements(Ids(values))
  {
  }

  lemma FindDuplicate(values: seq<NodeValue>, i: nat)
    requires i < |values| && values[i].id in Elements(Ids(values[..i]))
    ensures exists j | 0 <= j < i :: values[j].id == values[i].id
  {
    IdsOfPrefix(values[..i], 0);
    var ids := Ids(values[..i]);
    var j :| 0 <= j < |ids| && ids[j] == values[i].id;
    IdAt(values[..i], j);
  }

  lemma {:induction false} IdAt(values: seq<NodeValue>, j: nat)
    requires j < |values|
    ensures |Ids(values)| == |values| && Ids(values)[j] == values[j].id
  {
    IdsOfPrefix(values, 0);
    if j < |values| - 1 { IdAt(values[..|values| - 1], j); }
  }

  /** The compiler. The nodes pass unless an id repeats; then the edges decide as in `Topology`. */
  method BuildNodesAndTopology(values: seq<NodeValue>, edgeValues: seq<EdgeValue>, ctx: Context)
    returns (r: Result<CompiledPlan, CompileError>)
    ensures !Distinct(Ids(values)) ==>
              r.Failure? && r.error.DuplicateNode? && FirstDuplicate(values, r.error.id)
    ensures Distinct(Ids(values)) ==>
              match ReadEdges(Ids(values), edgeValues)
              case Failure(error) => r == Failure(BadTopology(error))
              case Success(edges) =>
                match r
                case Failure(error) =>
                  error.BadTopology? && TopologyMeaning(Ids(values), edges, Failure(error.error))
                case Success(plan) =>
                  && fresh(plan)
                  && TopologyMeaning(Ids(values), edges, Success(Ordered(LinksIn(plan.nodes), plan.topologicalOrder)))
                  && PlanOf(ctx, values, plan.nodes) && plan.compileIssues == AllIssues(ctx, values)
                  && IssuesOf(ctx, values, plan.compileIssues)
  {
    hide PlanOf, NodeOf, IssuesOf, TopologyMeaning, Elements, AllIssues;
    var compiled, issues := CompileNodes(values, ctx);
    if compiled.Failure? {
      DuplicateIds(values, compiled.error.id);
      return Failure(compiled.error);
    }
    var ordered := BuildTopology(Ids(values), edgeValues);
    if ordered.Failure? {
      return Failure(BadTopology(ordered.error));
    }
    TopologyKeys(Ids(values), ReadEdges(Ids(values), edgeValues).value, ordered.value);
    PlanKeys(ctx, values, compiled.value);
    var nodes := map n | n in compiled.value :: compiled.value[n].(links := ordered.value.links[n]);
    LinkedPlan(ctx, values, compiled.value, nodes);
    assert LinksIn(nodes) == ordered.value.links;
    var plan := new CompiledPlan(nodes, ordered.value.order, issues);
    r := Success(plan);
  }

  function LinksIn(nodes: map<string, CompiledNode>): map<string, Links> {
    map n | n in nodes :: nodes[n].links
  }

  lemma DuplicateIds(values: seq<NodeValue>, id: string)
    requires FirstDuplicate(values, id)
    ensures !Distinct(Ids(values))
  {
    var i :| 0 <= i < |values| && Distinct(Ids(values[..i])) && values[i].id == id && id in Elements(Ids(values[..i]));
    FindDuplicate(values, i);
    var j :| 0 <= j < i && values[j].id == values[i].id;
    IdAt(values, i);
    IdAt(values, j);
  }

  lemma TopologyKeys(nodeIds: seq<string>, edges: seq<Edge>, ordered: Ordered)
    requires TopologyMeaning(nodeIds, edges, Success(ordered))
    ensures ordered.links.Keys == Elements(nodeIds)
  {
  }

  lemma LinkedPlan(ctx: Context, values: seq<NodeValue>, before: map<string, CompiledNode>,
                   after: map<string, CompiledNode>)
    requires PlanOf(ctx, values, before) && after.Keys == before.Keys
    requires forall n | n in before :: after[n] == before[n].(links := after[n].links)
    ensures PlanOf(ctx, values, after)
  {
    forall value | value in values
      ensures value.id in after && NodeOf(ctx, value, after[value.id])
    {
      assert NodeOf(ctx, value, before[value.id]);
    }
  }

  /** What a run finds at an LLM node: a fixed model whose instance is ready, runnable, part of the main group, of
      the configured provider and willing to serve that model; or a queue with a first target on top. Configured targets
      are all there, in order, and each names an instance that can run it; without any, the targets are the enabled
      items of the template. */
  ghost predicate ReadyToRun(ctx: Context, repo: Repository, nodeId: string, config: Value, runtime: LlmRuntime) {
    var provider := Get(config, "model_provider");
    if WantsQueue(config) then
      && Mirrored(runtime)
      && if RawTargets(provider) != [] then ConfiguredTargets(ctx, RawTargets(provider), runtime.routing.value.targets)
         else
           && NeedsFreezing(QueueRuntime(ctx, provider))
           && FrozenFrom(repo, nodeId, QueueRuntime(ctx, provider), runtime)
    else
      var c := ReadFixed(provider);
      && Runnable(ctx, c)
      && runtime.top == TargetOf(ctx.instances[c.source.value], c.model.value)
      && runtime.routing == Some(FixedModel(runtime.top))
  }

  ghost predicate ConfiguredTargets(ctx: Context, raw: seq<Value>, targets: seq<Target>) {
    && |targets| == |raw|
    && forall i | 0 <= i < |raw| ::
         TargetRunnable(ctx, ReadTarget(raw[i])) && targets[i] == QueueTarget(ctx, ReadTarget(raw[i]))
  }

  /** A plan is compiled without issues exactly when every LLM node among the values can run and every plug-in node
      finds a contribution that is ready. */
  lemma NoIssuesIffClean(ctx: Context, values: seq<NodeValue>, issues: seq<Issue>)
    requires IssuesOf(ctx, values, issues)
    ensures issues == [] <==> forall value <- values :: Clean(ctx, value)
  {
    forall value | value in values
      ensures Clean(ctx, value) <==> forall code :: !NodeDiagnosis(ctx, value, code)
    {
      CleanIff(ctx, value);
    }
    hide NodeDiagnosis, Clean;
    if issues == [] {
      forall value, code | value in values
        ensures !NodeDiagnosis(ctx, value, code)
      {
        assert !Due(ctx, values, Issue(value.id, code));
      }
    } else {
      assert Due(ctx, values, issues[0]);
    }
  }

  lemma CleanIff(ctx: Context, value: NodeValue)
    ensures Clean(ctx, value) <==> forall code :: !NodeDiagnosis(ctx, value, code)
  {
    hide LlmDiagnosis, LlmClean, PluginDiagnosis, PluginReady;
    if value.nodeType == "llm" {
      NoIssueIffClean(ctx, value.Config());
      assert forall code :: NodeDiagnosis(ctx, value, code) == LlmDiagnosis(ctx, value.Config(), code);
    } else if value.nodeType == "plugin_node" {
      NoPluginIssueIffReady(ctx, ReadPlugin(value.json));
      assert forall code :: NodeDiagnosis(ctx, value, code) == PluginDiagnosis(ctx, ReadPlugin(value.json), code);
    }
  }

  /** Main result: a plan compiled without issues whose queues were all frozen is ready to run. */
  lemma ReadyAfterFreezing(ctx: Context, repo: Repository, values: seq<NodeValue>, issues: seq<Issue>,
                           before: map<string, CompiledNode>, after: map<string, CompiledNode>)
    requires PlanOf(ctx, values, before) && after.Keys == before.Keys
    requires IssuesOf(ctx, values, issues) && issues == []
    requires forall n | n in before :: NodeFrozen(repo, n, before[n], after[n])
    ensures forall value | value in values && value.nodeType == "llm" ::
              && value.id in after && after[value.id].llm.Some?
              && ReadyToRun(ctx, repo, value.id, value.Config(), after[value.id].llm.value)
    ensures forall value | value in values && value.nodeType == "plugin_node" ::
              && value.id in after && PluginReady(ctx, ReadPlugin(value.json))
              && after[value.id].plugin == PluginRuntimeOf(ctx, ReadPlugin(value.json)) != None
  {
    NoIssuesIffClean(ctx, values, issues);
    forall value | value in values && value.nodeType == "llm"
      ensures value.id in after && after[value.id].llm.Some?
      ensures ReadyToRun(ctx, repo, value.id, value.Config(), after[value.id].llm.value)
    {
      assert NodeOf(ctx, value, before[value.id]);
      assert Clean(ctx, value);
      NodeReady(ctx, repo, value, before[value.id], after[value.id]);
    }
    hide LlmRuntimeOf, FrozenFrom;
    forall value | value in values && value.nodeType == "plugin_node"
      ensures value.id in after && PluginReady(ctx, ReadPlugin(value.json))
      ensures after[value.id].plugin == PluginRuntimeOf(ctx, ReadPlugin(value.json)) != None
    {
      assert NodeOf(ctx, value, before[value.id]) && Clean(ctx, value);
    }
  }

  lemma NodeReady(ctx: Context, repo: Repository, value: NodeValue, before: CompiledNode, after: CompiledNode)
    requires value.nodeType == "llm" && LlmClean(ctx, value.Config()) && NodeOf(ctx, value, before)
    requires NodeFrozen(repo, value.id, before, after)
    ensures after.llm.Some? && ReadyToRun(ctx, repo, value.id, value.Config(), after.llm.value)
  {
    if WantsQueue(value.Config()) {
      QueueReady(ctx, repo, value, before, after);
    } else {
      NoIssueIffClean(ctx, value.Config());
      hide LlmClean, LlmRuntimeOf, LlmDiagnosis, Freezable, Runnable;
    }
  }

  lemma QueueReady(ctx: Context, repo: Repository, value: NodeValue, before: CompiledNode, after: CompiledNode)
    requires value.nodeType == "llm" && LlmClean(ctx, value.Config()) && NodeOf(ctx, value, before)
    requires NodeFrozen(repo, value.id, before, after) && WantsQueue(value.Config())
    ensures after.llm.Some? && ReadyToRun(ctx, repo, value.id, value.Config(), after.llm.value)
  {
    hide TargetRunnable, QueueTarget, ReadTarget, Freezable, Setting;
    var raw := RawTargets(Get(value.Config(), "model_provider"));
    CleanTargets(ctx, raw);
  }
}
