/** What the nodes of a compiled plan and its issues are, told from the document, and what freezing leaves of an open
    queue. */
module PlanFields {
  import opened Wrappers
  import opened FlowCompiler
  import opened Graph
  import opened Json
  import opened LlmConfigured
  import opened LlmRouting
  import opened PluginNodes
  import opened Sorting

  /** The configuration of a node document: its member, or else an object without members. */
  ghost predicate ConfigOf(document: Value, config: Value) {
    match document
    case Object(fields) => if "config" in fields then config == fields["config"] else config == Object(map[])
    case _ => config == Object(map[])
  }

  /** Main result: a plan has one node for each id of the document, with the type and the configuration of its document;
      only LLM nodes have an LLM runtime, and only plug-in nodes one of a plug-in. */
  lemma PlanMeaning(ctx: Context, values: seq<NodeValue>, nodes: map<string, CompiledNode>)
    requires PlanOf(ctx, values, nodes)
    ensures forall id :: id in nodes <==> exists value <- values :: value.id == id
    ensures forall value <- values :: value.id in nodes && NodeMeaning(ctx, value, nodes[value.id])
  {
    hide LlmRuntimeOf, PluginRuntimeOf, ReadPlugin;
    forall id
      ensures id in nodes <==> exists value <- values :: value.id == id
    {
      if id in nodes {
        var ids := Ids(values);
        IdsOfPrefix(values, 0);
        var i :| 0 <= i < |ids| && ids[i] == id;
        IdAt(values, i);
        assert values[i] in values;
      }
    }
    forall value | value in values
      ensures value.id in nodes && NodeMeaning(ctx, value, nodes[value.id])
    {
      assert NodeOf(ctx, value, nodes[value.id]);
    }
  }

  ghost predicate NodeMeaning(ctx: Context, value: NodeValue, node: CompiledNode) {
    && node.nodeType == value.nodeType && ConfigOf(value.json, node.config)
    && (node.nodeType == "llm" ==> node.llm == LlmRuntimeOf(ctx, node.config) && node.plugin == None)
    && (node.nodeType == "plugin_node" ==>
          node.llm == None && node.plugin == PluginRuntimeOf(ctx, ReadPlugin(value.json)))
    && (node.nodeType != "llm" && node.nodeType != "plugin_node" ==> node.llm == None && node.plugin == None)
  }

  /** A repeated id is reported if it belongs to the first node with the id of an earlier one. */
  lemma FirstDuplicateIff(values: seq<NodeValue>, id: string)
    ensures FirstDuplicate(values, id) <==>
            exists i :: 0 <= i < |values| && values[i].id == id && Repeats(values, i)
                        && forall j | 0 <= j < i :: !Repeats(values, j)
  {
    forall i | 0 <= i < |values|
      ensures id in Elements(Ids(values[..i])) <==> exists j :: 0 <= j < i && values[j].id == id
      ensures Distinct(Ids(values[..i])) <==> forall j | 0 <= j < i :: !Repeats(values, j)
    {
      IdsAt(values[..i]);
      hide Ids;
      var ids := Ids(values[..i]);
      assert forall j | 0 <= j < i :: ids[j] == values[j].id;
      if j :| 0 <= j < i && Repeats(values, j) {
        var k :| 0 <= k < j && values[k].id == values[j].id;
        assert ids[k] == ids[j];
      }
      if !Distinct(ids) {
        var k, j :| 0 <= k < j < |ids| && ids[k] == ids[j];
        assert Repeats(values, j);
      }
    }
    hide Ids, Repeats, Distinct;
  }

  ghost predicate Repeats(values: seq<NodeValue>, i: nat)
    requires i < |values|
  {
    exists j :: 0 <= j < i && values[j].id == values[i].id
  }

  lemma IdsAt(values: seq<NodeValue>)
    ensures |Ids(values)| == |values| && forall j | 0 <= j < |values| :: Ids(values)[j] == values[j].id
  {
    IdsOfPrefix(values, 0);
    forall j | 0 <= j < |values|
      ensures Ids(values)[j] == values[j].id
    {
      IdAt(values, j);
    }
  }

  /** The issues of a plan are in the order of the document. */
  lemma {:induction false} IssuesInOrder(ctx: Context, a: seq<NodeValue>, b: seq<NodeValue>)
    ensures AllIssues(ctx, a + b) == AllIssues(ctx, a) + AllIssues(ctx, b)
  {
    hide NodeIssues, IssuesFor;
    if b == [] {
      assert a + b == a;
    } else {
      assert (a + b)[..|a + b| - 1] == a + b[..|b| - 1];
      IssuesInOrder(ctx, a, b[..|b| - 1]);
    }
  }

  /** Those of one node have its id: those of an LLM node by its configuration, those of a plug-in node by its document,
      and none for other nodes. */
  lemma IssuesAlone(ctx: Context, value: NodeValue, config: Value, codes: seq<IssueCode>)
    requires ConfigOf(value.json, config)
    requires if value.nodeType == "llm" then codes == LlmIssues(ctx, config)
             else if value.nodeType == "plugin_node" then codes == PluginIssues(ctx, ReadPlugin(value.json))
             else codes == []
    ensures AllIssues(ctx, []) == []
    ensures |AllIssues(ctx, [value])| == |codes|
    ensures forall i | 0 <= i < |codes| :: AllIssues(ctx, [value])[i] == Issue(value.id, codes[i])
  {
    OneNode(ctx, value);
    assert config == value.Config();
    hide LlmIssues, PluginIssues, ReadPlugin, AllIssues, IssuesFor;
  }

  lemma OneNode(ctx: Context, value: NodeValue)
    ensures AllIssues(ctx, [value]) == IssuesFor(value.id, NodeIssues(ctx, value)) && AllIssues(ctx, []) == []
  {
    hide NodeIssues, IssuesFor;
    assert [value][..0] == [];
  }

  /** Only queues without targets are frozen. */
  lemma OpenQueueIff(node: CompiledNode)
    ensures OpenQueue(node) <==>
            exists top, template, snapshot ::
              node.llm == Some(LlmRuntime(top, Some(FailoverQueue(template, snapshot, []))))
  {
    if OpenQueue(node) {
      var queue := node.llm.value.routing.value;
      assert node.llm == Some(LlmRuntime(node.llm.value.top,
                                         Some(FailoverQueue(queue.templateId, queue.snapshotId, []))));
    }
  }

  /** A failed freeze leaves the id of a stored snapshot, and nothing else. */
  lemma FailedFields(repo: Repository, nodeId: string, before: LlmRuntime)
    requires NeedsFreezing(before)
    ensures FailedRuntime(repo, nodeId, before).top == before.top
    ensures FailedRuntime(repo, nodeId, before).routing ==
            Some(FailoverQueue(before.routing.value.templateId,
                               if nodeId in repo.snapshots
                                  && exists items :: FindsQueue(repo, before.routing.value.templateId, items)
                               then Some(repo.snapshots[nodeId])
                               else before.routing.value.snapshotId,
                               []))
  {
    if SnapshotTaken(repo, nodeId, before) {
      assert FindsQueue(repo, before.routing.value.templateId, QueueItems(repo, nodeId, before));
    }
  }

  /** The order of ids: an id precedes another one if that continues it, or by the first character that differs. */
  lemma {:induction false} LexLeIff(a: string, b: string)
    ensures LexLe(a, b) <==> a <= b || exists i: nat :: Differs(a, b, i)
  {
    if a != "" && b != "" && a[0] == b[0] {
      LexLeIff(a[1..], b[1..]);
      SameHead(a, b);
      hide Differs;
    } else if a != "" && b != "" && a[0] < b[0] {
      assert Differs(a, b, 0);
    }
  }

  /** Here the texts differ first, and the first one has the smaller character. */
  predicate Differs(a: string, b: string, i: nat) {
    i < |a| && i < |b| && a[..i] == b[..i] && a[i] < b[i]
  }

  lemma SameHead(a: string, b: string)
    requires a != "" && b != "" && a[0] == b[0]
    ensures a <= b <==> a[1..] <= b[1..]
    ensures (exists i: nat :: Differs(a, b, i)) <==> exists i: nat :: Differs(a[1..], b[1..], i)
  {
    var c, d := a[1..], b[1..];
    assert a == [a[0]] + c && b == [a[0]] + d;
    if i: nat :| Differs(c, d, i) {
      assert a[..i + 1] == [a[0]] + c[..i] && b[..i + 1] == [a[0]] + d[..i];
      assert Differs(a, b, i + 1);
    }
    if i: nat :| Differs(a, b, i) {
      assert i > 0 && c[..i - 1] == a[..i][1..] && d[..i - 1] == b[..i][1..];
      assert Differs(c, d, i - 1);
    }
  }
}
