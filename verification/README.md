# 1flowbase: verified models of its hardest parts

Dafny models of the logic that 1flowbase relies on most, with proofs of what that logic is for. `dafny verify
dfyconfig.toml` checks everything.

| module | what it models |
|---|---|
| `Wrappers`, `Text`, `Sorting`, `Json`, `Pieces`, `Graph` | results, string search, sorted lists, JSON values, regrouped streams, directed graphs |
| `Topology`, `LlmRouting`, `ContributionKeys`, `PluginNodes`, `FlowCompiler` | compiling a flow document: Kahn's algorithm, LLM routing, plug-in contributions, failover queues and freezing them into a plan |
| `TopologyOrder`, `LlmConfigured`, `PluginConfigured`, `PlanFields` | what a compiled flow is, told from the members of its document |
| `ThinkSplitter`, `ThinkBlocks` | the streaming splitter for `<think>` blocks |
| `Coalescer`, `CoalescedGroups`, `CoalescedNeighbours` | delta coalescing, live and in a batch, and the groups of deltas that leave as one event |
| `Template`, `TemplateTokens`, `Bindings`, `BindingValues` | template scanning in the compiler and the runtime, and node bindings |
| `JsonPointer`, `PointerEscapes`, `OpenApiScope`, `ScopeMeaning`, `ScopeClosure`, `ScopeLookalike`, `ScopeDoubleSlash` | scoped OpenAPI documents: reference closure over a JSON document |
| `SecretScrub`, `SecretKeys`, `SecretRecovery`, `SecretOrder`, `Redaction`, `RedactedPlaces` | taking secrets out of data-source configurations and putting them back, and masking them in previews |
| `LockProtocol`, `LockRuns` | the heavy-verify lock as a step machine over the file system, and its runs by schedule |
| `SkillFile`, `SkillReading` | reading skill files and writing converted ones |
| `ProviderHost`, `ProviderCalls` | the cache of loaded provider packages |
| `ExposureAdvisor`, `ExposureMeaning` | API exposure status and advice for data models |

Objects that the program changes in place are classes (`ThinkTagStreamSplitter`, `DeltaCoalescer`,
`LiveEventCoalescer`, `CompiledPlan`, `Scrubber`, `Host`); its loops are loops. Each of these methods is proved equal
to a function on values, and the laws are lemmas about that function, or it is proved against a relation that states
the result without an algorithm (graphs without a cycle, reachable references, due findings). What these functions and
relations decide is stated once more from the characters, members and records that the program reads, without using
them: in `TopologyOrder`, `LlmConfigured`, `PluginConfigured`, `PlanFields`, `ThinkBlocks`, `CoalescedGroups`,
`CoalescedNeighbours`, `TemplateTokens`, `BindingValues`, `ScopeMeaning`, `SecretKeys`, `RedactedPlaces`, `LockRuns`,
`SkillReading`, `ProviderCalls` and `ExposureMeaning`.

## What the proofs found

- `ThinkSplitter`: the text held back is never emitted at the end of a stream, so the results speak about what is
  emitted together with what is held back. The merged parts are the non-empty spans between tags exactly when no two
  neighbours in that list are of one kind (`PartsAreSpansIff`), as is the case when no span between two tags is empty;
  otherwise joining can put a tag together that was never one (`JoinedPartMayBeATag`).
- `Coalescer`: a returned delta directly followed by one of its kind has reached the threshold, whatever that is, exactly
  if nowhere two deltas of a kind are separated by flushes and empty deltas alone, one of them not of this kind
  (`CoalescedNeighbours.NeighboursAlwaysFullIff`): an empty delta leaves no event but drains the other buffer
  (`CoalescedGroups.EmptyDeltaSeparates`).
- `Template`: the compiler cuts a token at its first dot and trims both sides, the runtime cuts at every dot and trims
  neither. `SelectorIsPathIffSimple` says for which tokens both agree, and `SelectorsDetermineRendering` for which
  templates the recorded selectors are all that the rendering depends on; `Bindings.RecordedPathsSufficeIff` says it for
  whole bindings.
- `PluginNodes`: the five parts of a contribution's name are joined by two colons into its key. A node is bound to the
  contribution it names, whatever others there are, exactly when no part holds two colons and no colon touches a joint
  (`RunsWhatItNamesIff`); for every other name there is a different one with the same key.
- `LlmRouting`: a failover target names the provider of its instance exactly when it has no override or an equal one,
  and no issue depends on that (`TargetNamesProviderIff`). The targets that freezing fills in can all run exactly when
  all enabled items of the queue can, which freezing does not look at (`FrozenTargetsRunIff`). A failed freeze leaves
  the plan as it was exactly when no open queue has a smaller node id than the one that failed, and for that one no
  snapshot is stored or only the one it has (`FlowCompiler.FailedFreezeUnchangedIff`); `FailedFreezeChanges` shows a
  plan that changes. An instance that is neither ready nor runnable is reported twice (`FixedIssuesOrder`).
- `OpenApiScope`: every reachable reference resolves in the scoped document exactly when all are references to
  components (`ScopeClosure.ClosedIff`). A reference such as `#/componentsschemas/A` passes the prefix check, never
  resolves in the result (`LookalikeDangles`), and its node takes the place of `#/components/schemas/A`, for every kind
  and name (`ScopeLookalike`). A reference with a double slash behind `components` is looked up and inserted at
  different places (`PointerEscapes.SameWayIff`), so scoping can succeed with a dangling reference, again for every name
  (`ScopeDoubleSlash`).
- `SecretScrub`: a slash in a member name can make two secrets share one pointer, and one is lost
  (`SlashLosesASecret`). `SecretOrder.RebuiltIff` says exactly which configurations can be rebuilt from what the
  program stores: wherever a pointer was taken out, the member there has the value that comes last in the document.
  `SecretRecovery.RecoveredIffRecoverable` says for which ones this does not depend on the order of the members;
  `SecretOrder.KeyOrderRebuildsMore` shows that these are fewer.
- `Redaction`: a secret is always masked exactly when it neither begins nor ends with `*` nor contains `***`; any other
  one survives in some text even alone (`AlwaysMaskedIff`).
- `LockProtocol`: finding a lock stale and removing it are separate calls. As long as nothing is published between a
  reading and the removal that acts on it, every removal is right and at most one living process owns the lock
  (`LockRuns.RunsAreSafe`). A process overtaken there removes a living owner's lock; exactly such steps break the
  invariant (`StepKeepsInv`), and a clean-up followed by an acquisition leaves one owner exactly when the lock was still
  stale (`OvertakenCleanUpBreaksExclusion`). A nested process is protected from right clean-ups exactly as long as some
  process owns the lock; after a crash of the outer one a foreign owner can come to run beside it
  (`NestedOutlivesOuter`).
- `SkillFile`: reading back what was written restores a skill exactly when it is `Good`; a name that is still in
  quotes, or a body with `\r\r\n`, is not stable under conversion.
- `ProviderHost`: a cache agrees with loading afresh on every further honest request exactly when it is up to date
  (`AlwaysAgreesIff`), and a call keeps it up to date exactly when it is not going to store under an identity a package
  that this identity does not stand for (`CallKeepsUpToDateIff`); a reload on a changed disk can be such a call
  (`ReloadMakesIdentityStale`).
- `ExposureAdvisor`: the early `break` does change a fact (`ScanMissesAWritePermission`), but neither the status nor
  any finding.

## Model

| member | source | states |
|---|---|---|
| Pieces.AppendPieceProperties | api/crates/control-plane/src/orchestration_runtime.rs:828-839 | Appending a part with merging adds exactly its content and keeps the stream free of empty parts and of equal neighbours |
| Pieces.MergedUnique | api/crates/control-plane/src/orchestration_runtime.rs:828-839 | A stream without empty parts and equal neighbours is determined by its content |
| Pieces.MergeEqualIffFlattenEqual | api/crates/control-plane/src/orchestration_runtime.rs:828-839 | Two streams merge to the same parts exactly when they hold the same labelled characters in order |
| ThinkSplitter.PartialTagPrefixLen | api/crates/control-plane/src/orchestration_runtime.rs:841-850 | The longest strict prefix of the tag that ends the buffer, no longer one exists |
| ThinkSplitter.ThinkTagStreamSplitter.Split | api/crates/control-plane/src/orchestration_runtime.rs:779-825 | New state and returned parts are those of the specification, for every old state and delta |
| ThinkSplitter.PushDebugDeltaPart | api/crates/control-plane/src/orchestration_runtime.rs:828-839 | Drops an empty text and extends a last part of the same kind |
| ThinkSplitter.EmittedIsFinal | api/crates/control-plane/src/orchestration_runtime.rs:806-822 | No emitted character can become part of a tag, whatever text follows |
| ThinkSplitter.ScanConcat | api/crates/control-plane/src/orchestration_runtime.rs:779-825 | Labels and end state of a text are those of its two halves given one after the other |
| ThinkSplitter.ChunkInvariance | api/crates/control-plane/src/orchestration_runtime.rs:779-839 | For every way to cut a text into deltas, the merged parts and the final state equal those of one call on the whole text |
| ThinkSplitter.ReachableIsStable | api/crates/control-plane/src/orchestration_runtime.rs:779-825 | After any sequence of deltas the held text is what the splitter would keep by itself |
| ThinkSplitter.PendingIsPartialTag | api/crates/control-plane/src/orchestration_runtime.rs:806-850 | In every reachable state the held text holds no tag, is itself a strict prefix of the next tag, and has at most 6 characters outside and 7 inside a block |
| ThinkSplitter.SplitMeaning | api/crates/control-plane/src/orchestration_runtime.rs:779-825 | For every text, as spans between its tags: what is emitted followed by what is held back is each span labelled by its side of the tags, with nothing lost |
| ThinkSplitter.EveryTextHasSpans | api/crates/control-plane/src/orchestration_runtime.rs:784-804 | Every text is the join of spans none of which contains the tag that would end it |
| ThinkSplitter.SpansUnique | api/crates/control-plane/src/orchestration_runtime.rs:787-804 | A text has no other spans than those at which it is cut |
| ThinkSplitter.HeldIsLongestEnding | api/crates/control-plane/src/orchestration_runtime.rs:806-850 | What is held back is the longest ending of the text since the last tag that may still become the next tag |
| ThinkSplitter.FromTheStart | api/crates/control-plane/src/orchestration_runtime.rs:773-839 | From the start and for every way to cut a text: the parts and the state of one call, the longest possible ending held back, and nothing lost |
| ThinkSplitter.PartsAreSpansIff | api/crates/control-plane/src/orchestration_runtime.rs:828-839 | The merged parts are the non-empty spans exactly when these have no neighbours of one kind |
| ThinkSplitter.PartsWithoutTags | api/crates/control-plane/src/orchestration_runtime.rs:828-839 | If no span between two tags is empty, the merged parts are the non-empty spans and none holds the tag that would end it |
| ThinkSplitter.JoinedPartMayBeATag | api/crates/control-plane/src/orchestration_runtime.rs:828-839 | One call whose only part is a text that reads `<think>` |
| ThinkBlocks.ThinkBlock | api/crates/control-plane/src/orchestration_runtime.rs:773-839 | However a text is cut into deltas: the characters between `<think>` and `</think>` come out as reasoning, those around as text, in order and each once, with nothing held back |
| ThinkBlocks.OpenThinkBlock | api/crates/control-plane/src/orchestration_runtime.rs:784-804 | Behind `<think>` alone everything is reasoning |
| ThinkBlocks.NoThinkBlock | api/crates/control-plane/src/orchestration_runtime.rs:784-825 | A text without tags is text |
| Coalescer.DeltaCoalescer.FlushText | api/crates/observability/src/delta_coalescer.rs:37-45 | Returns the buffered text as one event, none if there is none, and empties the buffer |
| Coalescer.DeltaCoalescer.FlushReasoning | api/crates/observability/src/delta_coalescer.rs:47-55 | The same for reasoning |
| Coalescer.DeltaCoalescer.PushText | api/crates/observability/src/delta_coalescer.rs:19-26 | Appends, and flushes once the threshold is reached |
| Coalescer.DeltaCoalescer.PushReasoning | api/crates/observability/src/delta_coalescer.rs:28-35 | The same for reasoning |
| Coalescer.LiveEventCoalescer.Push | api/crates/control-plane/src/runtime_observability.rs:394-421 | Flushes the other buffer, then buffers a delta; passes any other event on behind both buffers |
| Coalescer.LiveEventCoalescer.FlushBuffered | api/crates/control-plane/src/runtime_observability.rs:428-433 | Returns text then reasoning and empties both buffers |
| Coalescer.LiveEventCoalescer.Finish | api/crates/control-plane/src/runtime_observability.rs:423-425 | Drains like a flush |
| Coalescer.CoalesceEvent | api/crates/control-plane/src/runtime_observability.rs:171-191 | One turn of the batch loop does what one live push does, and publishes exactly what it collects |
| Coalescer.CoalesceProviderStreamEvents | api/crates/control-plane/src/runtime_observability.rs:163-197 | The batch result is the concatenation of all live pushes followed by the final drain; the bus gets exactly the result |
| Coalescer.BuffersStaySmall | api/crates/control-plane/src/runtime_observability.rs:380-446 | Over every sequence of pushes and flushes at most one buffer holds bytes, and fewer than the threshold |
| Coalescer.ActConserves | api/crates/control-plane/src/runtime_observability.rs:394-433 | One call loses, invents, relabels and reorders nothing |
| Coalescer.CoalescingConserves | api/crates/control-plane/src/runtime_observability.rs:380-446 | For every interleaving of pushes and flushes, the outputs and the final drain are the inputs up to merging; never more events than inputs |
| Coalescer.BatchConserves | api/crates/control-plane/src/runtime_observability.rs:163-197 | The batch result merges to what its input merges to and is not longer |
| CoalescedGroups.RunsInGroups | api/crates/control-plane/src/runtime_observability.rs:380-446 | For every sequence of calls, what is returned with a final drain is one event for each group: a longest stretch of deltas of one kind that stays below the threshold until its last one |
| CoalescedGroups.GroupsUnique | api/crates/control-plane/src/runtime_observability.rs:380-446 | A sequence of calls falls into such groups in one way only |
| CoalescedGroups.SmallDeltasStay | api/crates/observability/src/delta_coalescer.rs:19-35 | Deltas of one kind that stay below the threshold together return nothing and leave exactly their concatenation buffered |
| CoalescedGroups.NeighboursAreFull | api/crates/control-plane/src/runtime_observability.rs:163-197 | In a batch without empty deltas, a delta directly followed by another of its kind has reached the threshold |
| CoalescedNeighbours.NeighboursAlwaysFullIff | api/crates/control-plane/src/runtime_observability.rs:380-446 | For all calls: neighbours of one kind have reached every threshold exactly if no two deltas of a kind are separated by flushes and empty deltas alone, one of them not of this kind |
| CoalescedNeighbours.SeparatedStaySmall | api/crates/control-plane/src/runtime_observability.rs:394-433 | Deltas that are so separated stay small neighbours, whatever comes before and behind them |
| CoalescedGroups.EmptyDeltaSeparates | api/crates/control-plane/src/runtime_observability.rs:171-191 | Two small deltas of one kind that an empty delta of the other kind keeps apart |
| Graph.StuckIsAfterCycle | api/crates/orchestration-runtime/src/compiler.rs:205-215 | If every node of a set has a predecessor in the set, each of them can be reached from a cycle |
| Graph.ForwardAvoidsCycles | api/crates/orchestration-runtime/src/compiler.rs:186-203 | Nothing in a forward order that holds all its predecessors is on or behind a cycle |
| Topology.ConnectAll | api/crates/orchestration-runtime/src/compiler.rs:116-169 | Fails at the first bad edge, with its error; otherwise indegrees count parallel edges, and neighbour lists have each node once |
| Topology.SortIsRestrict | api/crates/orchestration-runtime/src/compiler.rs:171-176 | Sorting a neighbour list by document position gives the document order restricted to its nodes |
| Topology.ConsumeEdge | api/crates/orchestration-runtime/src/compiler.rs:193-200 | A counter that is decremented is positive, and counters stay the numbers of edges not yet consumed |
| Topology.OrderNodes | api/crates/orchestration-runtime/src/compiler.rs:178-203 | The listed nodes are distinct and in the order in which they were queued, all edges between them lead forward, and every node left over has a predecessor left over |
| Topology.OrderMeaning | api/crates/orchestration-runtime/src/compiler.rs:205-215 | The order is complete exactly when the edges have no cycle; exactly the nodes on or behind a cycle are missing |
| Topology.FilterUnvisited | api/crates/orchestration-runtime/src/compiler.rs:206-210 | The nodes not visited, in document order |
| Topology.BuildTopology | api/crates/orchestration-runtime/src/compiler.rs:116-215 | Passes exactly on acyclic edges, with a forward permutation of the nodes in queue order and sorted neighbour lists; otherwise reports exactly the nodes on or behind a cycle, each with a reported predecessor |
| TopologyOrder.OrderUnique | api/crates/orchestration-runtime/src/compiler.rs:178-203 | The document has one order that follows its edges and its queue, also for unrelated nodes |
| TopologyOrder.OrderedNodes | api/crates/orchestration-runtime/src/compiler.rs:178-203 | Every node is listed once, no edge leads back, and no walk along edges returns to its start |
| TopologyOrder.LinksMeaning | api/crates/orchestration-runtime/src/compiler.rs:146-176 | Dependencies and downstream nodes are exactly the direct neighbours on either side, each once and in document order |
| TopologyOrder.CycleMeaning | api/crates/orchestration-runtime/src/compiler.rs:205-215 | The report has exactly the nodes at the end of a walk from a closed walk, in document order |
| TopologyOrder.ReadEdgesIff | api/crates/orchestration-runtime/src/compiler.rs:124-144 | Every edge is read with its source and its target if both are nodes; otherwise the first bad edge is reported: source missing, target missing, source unknown, target unknown, in this order |
| TopologyOrder.RestrictMeaning | api/crates/orchestration-runtime/src/compiler.rs:171-176 | A list in document order holds exactly the given nodes, and of any two the one that is first in the document is first |
| LlmRouting.Setting | api/crates/orchestration-runtime/src/compiler.rs:282-299 | A configured string is trimmed and never blank |
| LlmRouting.CompileFixedRuntime | api/crates/orchestration-runtime/src/compiler.rs:282-441 | Reports the list of due problems in order, and compiles a runtime exactly for an included instance of the right provider |
| LlmRouting.NoIssueIffRunnable | api/crates/orchestration-runtime/src/compiler.rs:301-432 | No problem is due exactly when the instance is ready, runnable, included, of the right provider and serves the named model |
| LlmRouting.FixedIssuesAreDue | api/crates/orchestration-runtime/src/compiler.rs:301-432 | The list of reported problems holds exactly those that are due |
| LlmRouting.FixedIssuesOrder | api/crates/orchestration-runtime/src/compiler.rs:301-432 | Each is reported once, except twice for an instance neither ready nor runnable; a problem with the model comes last |
| LlmRouting.CompileFailoverTarget | api/crates/orchestration-runtime/src/compiler.rs:527-619 | Reports the list of due problems in order; none exactly when the target can run; compiled exactly when it resolves |
| LlmRouting.CompileFailoverRuntime | api/crates/orchestration-runtime/src/compiler.rs:463-525 | Keeps the targets that resolve in order, the first also as top-level fields, and reports the due problems target by target |
| LlmRouting.QueueCleanIff | api/crates/orchestration-runtime/src/compiler.rs:487-502 | No problem is due for a queue exactly when it names a template and every configured target can run |
| LlmRouting.QueueIssuesAreDue | api/crates/orchestration-runtime/src/compiler.rs:487-502 | The list of problems of a queue holds exactly those of its template and its targets |
| LlmRouting.CleanTargets | api/crates/orchestration-runtime/src/compiler.rs:494-502 | In a clean queue no configured target is lost, and each can run |
| LlmRouting.TargetNamesProviderIff | api/crates/orchestration-runtime/src/compiler.rs:605-618 | A target names its instance's provider exactly without an override or with an equal one; no issue depends on it |
| LlmRouting.CompileLlmRuntime | api/crates/orchestration-runtime/src/compiler.rs:267-441 | The runtime and the list of due problems in order, by routing mode |
| LlmConfigured.FixedRuntimeFields | api/crates/orchestration-runtime/src/compiler.rs:267-454 | A fixed-model node gets a runtime exactly if it names a known, included instance of its provider; instance id and protocol are that instance's, the provider code is the configured one, the model the configured one or empty, and the target says the same |
| LlmConfigured.FixedRuntimeStays | api/crates/control-plane/src/orchestration_runtime.rs:1079-1084 | Freezing leaves these four fields as they are |
| LlmConfigured.FixedProblems | api/crates/orchestration-runtime/src/compiler.rs:301-432 | Which member of the configuration or property of the instance each reported problem stands for |
| LlmConfigured.FixedRunsIff | api/crates/orchestration-runtime/src/compiler.rs:282-432 | No problem exactly if the node names an instance that is included, ready and runnable and offers the configured model |
| LlmConfigured.TargetFields | api/crates/orchestration-runtime/src/compiler.rs:527-619 | A configured target is kept exactly if it names a known instance and a model; its fields are these, with provider and protocol of the target or else of the instance |
| LlmConfigured.TargetProblems | api/crates/orchestration-runtime/src/compiler.rs:527-604 | Which problems of a target are reported |
| LlmConfigured.QueueFields | api/crates/orchestration-runtime/src/compiler.rs:463-525 | Template and snapshot id as configured, the kept targets, and on top the first of them or empty fields |
| LlmConfigured.QueueRunsIff | api/crates/orchestration-runtime/src/compiler.rs:463-525 | A queue has no problem exactly if it names a template and each target names a usable instance and a model that it offers |
| LlmRouting.NoIssueIffClean | api/crates/orchestration-runtime/src/compiler.rs:267-619 | No problem is due exactly when the node can run, and its runtime is then complete |
| LlmRouting.SomeEnabled | api/crates/control-plane/src/orchestration_runtime.rs:1121-1135 | Filtering leaves a target exactly when some queue item is enabled |
| LlmRouting.FreezeRuntime | api/crates/control-plane/src/orchestration_runtime.rs:1079-1140 | Succeeds exactly when the queue can be turned into targets, which are then the enabled ones with the first mirrored on top; on failure the node still has none |
| LlmConfigured.FrozenFields | api/crates/control-plane/src/orchestration_runtime.rs:1079-1140 | An open queue can be frozen exactly if its active template is found, a snapshot is stored and some item is enabled; its targets are then those of the enabled items, the first on top, with the ids of template and snapshot |
| LlmRouting.FrozenTargetsRunIff | api/crates/control-plane/src/orchestration_runtime.rs:1120-1140 | All frozen targets can run exactly when all enabled items of the queue can; freezing succeeds without any instance |
| ContributionKeys.UnambiguousUnique | api/crates/orchestration-runtime/src/compiler.rs:727-735 | Non-empty parts that hold no two colons and touch no joint with a colon can be read off their key |
| ContributionKeys.AmbiguousHasOther | api/crates/orchestration-runtime/src/compiler.rs:727-735 | For all other parts there are different ones with the same key |
| ContributionKeys.AlwaysFindsNamedIff | api/crates/control-plane/src/orchestration_runtime/compile_context.rs:80-102 | The contribution found under the key of a name has this name, whatever contributions there are, exactly for such parts |
| PluginNodes.CompilePluginRuntime | api/crates/orchestration-runtime/src/compiler.rs:621-700 | The runtime of the contribution found, and the one problem that is due, if any: the first missing member, no contribution, or one that is not ready |
| PluginNodes.PluginIssuesAreDue | api/crates/orchestration-runtime/src/compiler.rs:621-700 | There is at most one issue, and it is the one due |
| PluginNodes.NoPluginIssueIffReady | api/crates/orchestration-runtime/src/compiler.rs:621-700 | No problem is due exactly when the named contribution is there and ready |
| PluginNodes.RunsWhatItNamesIff | api/crates/orchestration-runtime/src/compiler.rs:663-699 | In every context that keeps contributions under their own keys a plug-in node runs the contribution it names, exactly when the parts of the name can be told apart |
| PluginConfigured.PluginRuntimeFields | api/crates/orchestration-runtime/src/compiler.rs:621-735 | A plug-in node gets a runtime exactly if its five members, joined by two colons, are the key of a contribution; installation and name are those of that one |
| PluginConfigured.PluginProblems | api/crates/orchestration-runtime/src/compiler.rs:621-700 | Exactly one problem is reported, that of the first missing member, of an unknown contribution or of one that is not ready |
| FlowCompiler.CompiledPlan.FreezeFailoverQueueRoutes | api/crates/control-plane/src/orchestration_runtime.rs:1071-1143 | Succeeds exactly when every open queue can be frozen; nodes are taken in the order of their ids, those before the first failure are frozen, that one keeps its snapshot id, the rest stays |
| FlowCompiler.FreezeNode | api/crates/control-plane/src/orchestration_runtime.rs:1078-1140 | One node is frozen, or left without targets, exactly by whether its queue can be |
| FlowCompiler.FailedFreezeUnchangedIff | api/crates/control-plane/src/orchestration_runtime.rs:1078-1140 | After a failure the plan is as before exactly when no open queue precedes the failing one, for which no snapshot is stored or only the one it has |
| FlowCompiler.FailedFreezeChanges | api/crates/control-plane/src/orchestration_runtime.rs:1078-1140 | A plan with two queues whose failed freeze leaves the first one frozen |
| FlowCompiler.CompileNode | api/crates/orchestration-runtime/src/compiler.rs:220-265 | Only LLM nodes get an LLM runtime and only plug-in nodes a plug-in runtime, each with the list of due problems |
| FlowCompiler.CompileNodes | api/crates/orchestration-runtime/src/compiler.rs:101-114 | Fails at the first id that repeats; otherwise a node for every value and the due issues of all nodes in document order, under the right node ids |
| FlowCompiler.BuildNodesAndTopology | api/crates/orchestration-runtime/src/compiler.rs:85-218 | Repeated ids first, then bad edges, then cycles are reported; otherwise the plan has the right nodes, links, order and issues |
| PlanFields.PlanMeaning | api/crates/orchestration-runtime/src/compiler.rs:220-265 | A plan has one node for each id, with the type and the configuration of its document; only LLM nodes have an LLM runtime and only plug-in nodes one of a plug-in |
| PlanFields.FirstDuplicateIff | api/crates/orchestration-runtime/src/compiler.rs:108-110 | The reported id is that of the first node with the id of an earlier one |
| PlanFields.IssuesInOrder | api/crates/orchestration-runtime/src/compiler.rs:101-114 | The issues are in the order of the document |
| PlanFields.IssuesAlone | api/crates/orchestration-runtime/src/compiler.rs:245-250 | Each issue names its node; they are those of its configuration or of its document, by its type |
| PlanFields.FailedFields | api/crates/control-plane/src/orchestration_runtime.rs:1079-1128 | A failed freeze leaves the id of a snapshot that was stored and nothing else |
| PlanFields.LexLeIff | api/crates/control-plane/src/orchestration_runtime.rs:1078 | Nodes are frozen in the order of their ids: by the first character that differs, or the shorter one first |
| FlowCompiler.NoIssuesIffClean | api/crates/orchestration-runtime/src/compiler.rs:220-265 | A plan has no issues exactly when every LLM node can run and every plug-in node finds a contribution that is ready |
| FlowCompiler.ReadyAfterFreezing | api/crates/control-plane/src/orchestration_runtime.rs:1071-1143 | Compiled without issues and frozen, every LLM node has a runnable fixed model, or a queue with its first target on top: all configured targets, each on an instance that can run it, or without any the enabled items of the template; every plug-in node has the runtime of a ready contribution |
| Template.UnparseCut | api/crates/orchestration-runtime/src/compiler.rs:870-895 | Cutting a template at its tokens loses nothing |
| TemplateTokens.CutIff | api/crates/orchestration-runtime/src/binding_runtime.rs:155-187 | A template has exactly one cut in which no text before a token, with the opening behind it, opens a token earlier, no token closes earlier, and in the last text no opening is ever closed; the scanners cut it there |
| TemplateTokens.RenderOneToken | api/crates/orchestration-runtime/src/binding_runtime.rs:155-187 | Behind a text without an opening, the first token is rendered as the text of the value at the path between its dots or stays as written, and what follows as if it stood alone |
| TemplateTokens.DotlessToken | api/crates/orchestration-runtime/src/binding_runtime.rs:168-180 | A token without a dot stays as written and is not recorded |
| TemplateTokens.SelectOneToken | api/crates/orchestration-runtime/src/compiler.rs:870-895 | The trimmed texts on both sides of its first dot, if neither is blank, are the first recorded selector |
| TemplateTokens.NothingToRender | api/crates/orchestration-runtime/src/binding_runtime.rs:155-187 | A text in which no opening is closed behind it is its own rendering and records nothing |
| TemplateTokens.LookupIff | api/crates/orchestration-runtime/src/binding_runtime.rs:134-153 | A path leads to a value exactly through members of objects, one for each segment |
| Template.ParseTemplateSelectorTokens | api/crates/orchestration-runtime/src/compiler.rs:870-895 | The compiler's loop lists the selectors of exactly the tokens of the common cut, in order |
| Template.ParseToken | api/crates/orchestration-runtime/src/compiler.rs:881-890 | The recorded selector of one token: both sides of its first dot, trimmed and not empty |
| Template.RenderTemplate | api/crates/orchestration-runtime/src/binding_runtime.rs:155-187 | The runtime's loop replaces exactly the tokens of the common cut, in one pass that never looks at replaced text |
| Template.ReplaceToken | api/crates/orchestration-runtime/src/binding_runtime.rs:168-180 | A token becomes the text of the value found, or stays as written |
| Template.LookupSelectorValue | api/crates/orchestration-runtime/src/binding_runtime.rs:134-153 | Follows a path through nested objects, or fails |
| Template.SelectorIsPathIffSimple | api/crates/orchestration-runtime/src/compiler.rs:870-895 | Compiled selector and runtime path are equal exactly for tokens with one dot, non-empty sides and no blanks around the dot |
| Template.RenderWithEmptyPool | api/crates/orchestration-runtime/src/binding_runtime.rs:155-187 | With an empty pool every template renders to itself |
| Template.RenderDependsOnPaths | api/crates/orchestration-runtime/src/binding_runtime.rs:155-187 | Pools that agree on every path looked up render alike |
| Template.SelectorsDetermineRendering | api/crates/orchestration-runtime/src/compiler.rs:870-895 | Agreement on the recorded selectors determines the rendering exactly when every path looked up begins with one of them |
| Template.SimpleTokensAreCovered | api/crates/orchestration-runtime/src/compiler.rs:870-895 | If all dotted tokens are simple, the recorded selectors are the paths looked up |
| Template.TwoDotsAreNotRecorded | api/crates/orchestration-runtime/src/compiler.rs:881-890 | `a.b.c` is recorded as `a`, `b.c` and looked up as `a`, `b`, `c` |
| Bindings.CollectEntryPaths | api/crates/orchestration-runtime/src/compiler.rs:785-842 | The loops over entries record the paths of all entries in order, or fail if one entry is malformed |
| Bindings.ResolveNamedBindings | api/crates/orchestration-runtime/src/binding_runtime.rs:61-91 | The loop over named entries computes the specified object or fails |
| Bindings.ResolvePromptMessages | api/crates/orchestration-runtime/src/binding_runtime.rs:97-128 | The loop over prompt messages renders each entry in order or fails |
| Bindings.LastNameWins | api/crates/orchestration-runtime/src/binding_runtime.rs:68-89 | Of the entries with one name the last one decides the value |
| Bindings.NamesComeFromEntries | api/crates/orchestration-runtime/src/binding_runtime.rs:68-89 | Every member of a resolved object is named by some entry |
| Bindings.PromptsResolve | api/crates/orchestration-runtime/src/binding_runtime.rs:97-128 | Compiled prompt messages always resolve, one message for each entry |
| Bindings.ResolvesIff | api/crates/orchestration-runtime/src/binding_runtime.rs:46-132 | Exactly when a compiled binding fails at run time: a recorded path is not found, or a name is missing |
| Bindings.RecordedPathsSufficeIff | api/crates/orchestration-runtime/src/compiler.rs:775-845 | A binding resolves alike in all pools that agree on its recorded paths exactly when every path that its templates look up begins with one of them |
| BindingValues.RecordedIff | api/crates/orchestration-runtime/src/compiler.rs:775-845 | Which paths each kind of binding records, and that compilation fails otherwise |
| BindingValues.MessageMeaning | api/crates/orchestration-runtime/src/binding_runtime.rs:104-124 | A message has the role of its entry, or `user`, its rendered content, and its id if it has one |
| BindingValues.ResolvedMeaning | api/crates/orchestration-runtime/src/binding_runtime.rs:46-132 | The value of each kind of binding: the value at its path, the values at its paths in order, the object of the named values, the rendered text, one message for each entry, or the binding itself |
| JsonPointer.InsertThenLookup | api/apps/api-server/src/openapi_docs.rs:609-639 | A value is found where it was inserted |
| JsonPointer.InsertKeepsCopies | api/apps/api-server/src/openapi_docs.rs:609-639 | Copying another node of the same document, above, below or beside, keeps the nodes copied before |
| JsonPointer.InsertAddsOnlyItsWay | api/apps/api-server/src/openapi_docs.rs:609-639 | An insertion adds nothing but what is on its way or below it |
| JsonPointer.ComponentRefTokens | api/apps/api-server/src/openapi_docs.rs:475-486 | Looking a reference up in the document and inserting it among the components follow the same tokens |
| ScopeMeaning.ItemIff | api/apps/api-server/src/openapi_docs.rs:478-481 | An array item is named by the decimal digits of its index and by nothing else |
| ScopeMeaning.PointerSteps | api/apps/api-server/src/openapi_docs.rs:478-481 | A pointer names one token behind each slash |
| ScopeMeaning.LookupSteps | api/apps/api-server/src/openapi_docs.rs:478-481 | Tokens lead through member names and indices, one after the other |
| PointerEscapes.EscapeRoundTrip | api/apps/api-server/src/openapi_docs.rs:494-500 | Unescaping an escaped name gives the name back, for every name |
| PointerEscapes.SameWayIff | api/apps/api-server/src/openapi_docs.rs:475-488 | A reference that passes the prefix check is looked up and inserted by the same tokens exactly when it is a reference to components |
| PointerEscapes.LookalikeTokens | api/apps/api-server/src/openapi_docs.rs:475-488 | A reference whose first token only begins like `components` is looked up under another member |
| PointerEscapes.DoubleSlashTokens | api/apps/api-server/src/openapi_docs.rs:609-639 | A reference with an empty token behind `components` is looked up with that token and inserted without it |
| OpenApiScope.CollectRefsInto | api/apps/api-server/src/openapi_docs.rs:400-417 | Adds exactly the references that occur anywhere in a value |
| ScopeMeaning.CollectedIff | api/apps/api-server/src/openapi_docs.rs:400-417 | Exactly the references of objects anywhere in the value are collected |
| OpenApiScope.BuildScopedPaths | api/apps/api-server/src/openapi_docs.rs:437-461 | The path items of the operations with everything that is not another operation |
| ScopeMeaning.ScopedPathsIff | api/apps/api-server/src/openapi_docs.rs:437-461 | The scoped document has exactly the paths of the operations; of each path item it keeps these operations and everything that is not an operation, as it is in the canonical document |
| ScopeMeaning.OperationProblemIff | api/apps/api-server/src/openapi_docs.rs:437-459 | When an operation or its path is reported as not found |
| OpenApiScope.ScopedRoots | api/apps/api-server/src/openapi_docs.rs:437-464 | The references in the scoped paths are those of the single operations together |
| OpenApiScope.WorklistDone | api/apps/api-server/src/openapi_docs.rs:466-492 | With nothing pending, visited means reachable |
| OpenApiScope.CollectComponents | api/apps/api-server/src/openapi_docs.rs:463-492 | Terminates, also on cyclic schemas; success means exactly the reachable references were visited and inserted in an order of discovery; failure names its cause; with two-segment references success is exactly the absence of bad ones |
| ScopeMeaning.RefProblemIff | api/apps/api-server/src/openapi_docs.rs:475-487 | A reference fails exactly if it is external, leads nowhere, or leads somewhere but does not begin as those to components do |
| OpenApiScope.CollectRequirements | api/apps/api-server/src/openapi_docs.rs:555-593 | The requirements of the operations, or the document's own where an operation has none, in order and each once; fails at the first unknown operation |
| ScopeMeaning.RequirementsIff | api/apps/api-server/src/openapi_docs.rs:575-582 | The requirements of an operation are its own, also if these are none, and only without any those of the document |
| ScopeMeaning.RequirementsInOrder | api/apps/api-server/src/openapi_docs.rs:567-590 | Requirements are taken in the order of the operations |
| ScopeMeaning.SecurityIff | api/apps/api-server/src/openapi_docs.rs:555-607 | The scoped document requires exactly what one of its operations requires, each once, and names exactly the schemes that are members of these requirements |
| OpenApiScope.AddSecuritySchemes | api/apps/api-server/src/openapi_docs.rs:494-507 | Inserts each named scheme under its name, in the order of names, and keeps what was collected; failure names its cause |
| ScopeMeaning.SchemeIff | api/apps/api-server/src/openapi_docs.rs:494-501 | A security scheme is the value under its name among those of the canonical document, whatever characters the name has |
| OpenApiScope.PlainScheme | api/apps/api-server/src/openapi_docs.rs:494-507 | A scheme with a plain name is read and written at the same place |
| OpenApiScope.SamePlaceIff | api/apps/api-server/src/openapi_docs.rs:494-507 | A scheme is read and written at the same place exactly if its name has no slash and no escape |
| OpenApiScope.CloseScopedSpec | api/apps/api-server/src/openapi_docs.rs:423-553 | Success gives a closed scope; every failure is tied to its cause, a document without paths first, then the first unknown operation, and a missing `openapi` or `info` last; for two-segment references success is exactly that nothing is missing |
| ScopeMeaning.FailuresAreExplained | api/apps/api-server/src/openapi_docs.rs:423-607 | Why there is no scoped document: no object with paths, the first unknown path or operation, an external, dangling or improper reference that occurs, a required scheme that is missing, a component in the way, or at last no version or info |
| ScopeMeaning.CopiedMembers | api/apps/api-server/src/openapi_docs.rs:525-539 | Version and info are those of the canonical document |
| ScopeMeaning.DocumentProblemsIff | api/apps/api-server/src/openapi_docs.rs:423-539 | Which members of the canonical document are reported as missing |
| OpenApiScope.ScopedRefsResolve | api/apps/api-server/src/openapi_docs.rs:463-507 | Every reference in the scoped paths or in a collected node resolves inside the result to the canonical node, for references of any depth |
| OpenApiScope.ScopeIsUnion | api/apps/api-server/src/openapi_docs.rs:191-204 | A document for several operations reaches exactly the references that the single documents reach |
| OpenApiScope.ScopeComponentsAreUnion | api/apps/api-server/src/openapi_docs.rs:191-204 | And has exactly their components, with the same values |
| ScopeClosure.ClosedIff | api/apps/api-server/src/openapi_docs.rs:463-507 | Every reachable reference resolves inside the result to its canonical node exactly when all are references to components |
| ScopeClosure.DocumentRefsResolve | api/apps/api-server/src/openapi_docs.rs:463-507 | Then every reference that occurs in the returned document, outside `openapi`, `info` and the security schemes, resolves in it |
| ScopeClosure.LookalikeDangles | api/apps/api-server/src/openapi_docs.rs:475-488 | Every reference whose first token only begins like `components` passes, never resolves in a result, and is inserted in place of the one with the missing slash |
| ScopeClosure.DoubleSlashDangles | api/apps/api-server/src/openapi_docs.rs:609-639 | A reference with a double slash behind `components` dangles unless one to the components as a whole occurs |
| ScopeLookalike.LookalikeOverwrites | api/apps/api-server/src/openapi_docs.rs:475-492 | In a document where a component refers to a lookalike of itself, scoping succeeds and the proper reference leads to the wrong node |
| ScopeLookalike.EveryNameCanBeConfused | api/apps/api-server/src/openapi_docs.rs:475-492 | There is such a document, complete with `openapi` and `info`, for every kind and name of a component |
| ScopeDoubleSlash.DoubleSlashPasses | api/apps/api-server/src/openapi_docs.rs:463-488 | In a document whose only reference has a double slash, scoping succeeds and the reference, which is in the result, does not resolve there |
| ScopeDoubleSlash.EveryNameCanBeDoubled | api/apps/api-server/src/openapi_docs.rs:609-639 | There is such a document for every name of a component |
| SecretScrub.Scrubber.Scrub | api/crates/control-plane/src/data_source.rs:851-902 | Returns the sanitized value and stores exactly the values taken out, in the order of the document |
| SecretScrub.Scrubber.ScrubMembers | api/crates/control-plane/src/data_source.rs:859-881 | The same for the members of an object, in the order of their names |
| SecretScrub.Scrubber.ScrubItems | api/crates/control-plane/src/data_source.rs:882-899 | The same for the items of an array |
| SecretScrub.StoredPointers | api/crates/control-plane/src/data_source.rs:904-924 | The store ends up with exactly the pointers of the values taken out, and no existing secret is changed |
| SecretScrub.PointerInjective | api/crates/control-plane/src/data_source.rs:904-924 | Without slashes in names, different paths have different pointers |
| SecretScrub.ScrubbingIsInvertible | api/crates/control-plane/src/data_source.rs:833-924 | Putting the stored values back at their pointers rebuilds the original configuration |
| SecretScrub.SlashLosesASecret | api/crates/control-plane/src/data_source.rs:904-924 | A configuration with a slash in a name that cannot be rebuilt |
| SecretRecovery.FillIff | api/crates/control-plane/src/data_source.rs:851-924 | With any store that has the pointers, putting values back rebuilds a value exactly when each member put back gets its own value |
| SecretScrub.TraceVisited | api/crates/control-plane/src/data_source.rs:859-899 | The stores of the program are those of the values taken out, each once |
| SecretRecovery.TracesKeep | api/crates/control-plane/src/data_source.rs:904-924 | In whatever order, the store has exactly the pointers taken out, each with a value that was taken out under it |
| SecretRecovery.RecoveredIffRecoverable | api/crates/control-plane/src/data_source.rs:833-924 | Every configuration, also with slashes in names, can be rebuilt in every order of its stores exactly when no two of its places share a pointer taken out, unless with the same value |
| SecretRecovery.SlashFreeIsRecoverable | api/crates/control-plane/src/data_source.rs:904-924 | Names without slashes meet that condition |
| SecretOrder.TraceInOrder | api/crates/control-plane/src/data_source.rs:859-899 | The program stores values in document order: members by name, items by index |
| SecretOrder.LastIsLastTaken | api/crates/control-plane/src/data_source.rs:904-924 | Under each pointer it keeps the value that comes last in the document of those taken out under it |
| SecretOrder.RebuiltIff | api/crates/control-plane/src/data_source.rs:833-924 | What the program stores, on top of values stored before, rebuilds the configuration exactly when every member at such a pointer has the last value taken out under it, and at other stored pointers the value stored before |
| SecretOrder.RecoverableIsRebuildable | api/crates/control-plane/src/data_source.rs:833-924 | What can be rebuilt in every order can be rebuilt in this one |
| SecretOrder.KeyOrderRebuildsMore | api/crates/control-plane/src/data_source.rs:859-881 | A configuration that the program can rebuild and another order would lose |
| SecretScrub.NothingLeftToSeal | api/crates/control-plane/src/data_source.rs:942-997 | In a sanitized object no member counts as a secret any more |
| SecretScrub.ScrubbingIsIdempotent | api/crates/control-plane/src/data_source.rs:851-902 | Scrubbing a sanitized value changes nothing and takes nothing out, even with another reference |
| SecretScrub.SanitizeConfigAndMergeSecrets | api/crates/control-plane/src/data_source.rs:833-849 | Rejects non-objects; otherwise sanitizes, merges into the secrets what was taken out in the order of the document, and keeps configurations without slashes recoverable |
| SecretKeys.SecretsAreTaken | api/crates/control-plane/src/data_source.rs:833-997 | What becomes of each member of a configuration: one whose name or place says that it holds a secret, unless it is a reference, is replaced by the reference and stored under its pointer; every other one is kept but for the secrets inside |
| SecretKeys.IsSecretLikeKeyIff | api/crates/control-plane/src/data_source.rs:926-940 | Exactly the names that hold one of the seven words, dashes, blanks and case aside, and are neither `secret_version` nor end in `_ref` |
| SecretKeys.IsSecretBearingHeaderNameIff | api/crates/control-plane/src/data_source.rs:964-974 | Exactly the six header names, blanks around them and case aside |
| SecretKeys.ParsesIff | api/crates/control-plane/src/data_source.rs:980-983 | An index is digits, which may follow a plus sign, if their number fits into 64 bits |
| SecretKeys.SealsIff | api/crates/control-plane/src/data_source.rs:942-997 | A member is taken out exactly if its name is secret-like, or it is the value of a header entry with such a name, or a non-null value below `credentials`, and it is no reference |
| SecretKeys.SealedIsStored | api/crates/control-plane/src/data_source.rs:904-924 | Every value taken out is stored under its pointer, unless a later one with the same pointer takes its place |
| SecretKeys.MergedSecrets | api/crates/control-plane/src/data_source.rs:904-924 | The given secrets stay, and a secret at the top of the configuration is added under its own name unless there was one |
| SecretKeys.PointerMeaning | api/crates/control-plane/src/data_source.rs:904-924 | The pointer of a value has a slash in front of each name on the way to it |
| Redaction.OrderSecrets | api/crates/control-plane/src/data_source.rs:1048-1050 | Each secret once, longer ones first, equally long ones in lexicographic order |
| Redaction.RedactString | api/crates/control-plane/src/data_source.rs:1043-1059 | Masks in that order; no secret is left unless it is fragile |
| Redaction.MaskAllRemoves | api/crates/control-plane/src/data_source.rs:1043-1059 | No non-empty secret that is not fragile survives in a string, whatever the other secrets and their order |
| Redaction.AlwaysMaskedIff | api/crates/control-plane/src/data_source.rs:1043-1059 | A secret is masked in every text and with all other secrets exactly when it neither begins nor ends with a star nor holds a mask; any other survives in some text even alone |
| Redaction.FragileSurvives | api/crates/control-plane/src/data_source.rs:1043-1059 | For every fragile secret there is a text in which it survives alone |
| Redaction.MaskAllIdempotent | api/crates/control-plane/src/data_source.rs:1043-1059 | Without fragile secrets a second pass, in any order, changes nothing |
| Redaction.StarredSecretSurvives | api/crates/control-plane/src/data_source.rs:1043-1059 | A fragile secret that appears only through masking another one |
| Redaction.RedactedAvoids | api/crates/control-plane/src/data_source.rs:1024-1041 | No string anywhere in a redacted value contains a non-empty secret that is not fragile |
| Redaction.RedactingIsIdempotent | api/crates/control-plane/src/data_source.rs:1024-1041 | Without fragile secrets, redacting a redacted value changes nothing |
| Redaction.InnocentIsKept | api/crates/control-plane/src/data_source.rs:1024-1041 | A value without any secret is returned as it is |
| RedactedPlaces.PlacesAreKept | api/crates/control-plane/src/data_source.rs:1024-1041 | Original and redacted value have the same places; at each the string is masked, and nothing else changes |
| RedactedPlaces.MaskFirst | api/crates/control-plane/src/data_source.rs:1053-1057 | The first occurrence of a secret becomes three stars, and what is behind it is masked alone; without an occurrence nothing changes |
| RedactedPlaces.MaskInOrder | api/crates/control-plane/src/data_source.rs:1052-1057 | Secrets are masked one after the other, the empty one skipped |
| RedactedPlaces.ByteLengthMeaning | api/crates/control-plane/src/data_source.rs:1048-1050 | The length that orders secrets counts the bytes of each character |
| LockProtocol.StepKeepsInv | scripts/node/testing/verify-runtime.js:207-453 | A step keeps the invariant exactly when it does not remove a living process's lock as stale |
| LockProtocol.CleanRunsAreSafe | scripts/node/testing/verify-runtime.js:207-453 | Over every run whose clean-ups find a stale lock, crashes included, at most one living process owns the lock and the lock has a complete owner record |
| LockProtocol.OwnerKeepsLock | scripts/node/testing/verify-runtime.js:350-436 | No step of another process touches the lock of a living owner |
| LockProtocol.NestedNeverFrees | scripts/node/testing/verify-runtime.js:360-371 | A nested acquisition never frees the lock, whatever it does |
| LockProtocol.NestedIsProtected | scripts/node/testing/verify-runtime.js:455-500 | While the outer process lives and holds the lock, no other token owns it |
| LockProtocol.OvertakenCleanUpBreaksExclusion | scripts/node/testing/verify-runtime.js:373-397 | From every state of the invariant, a clean-up followed by an acquisition can be run, and leaves at most one owner exactly when the lock was still stale |
| LockProtocol.BothCanFindItStale | scripts/node/testing/verify-runtime.js:350-377 | Two processes can both find the lock of a dead process stale |
| LockProtocol.ExclusionBreaks | scripts/node/testing/verify-runtime.js:350-397 | So there is a run from an initial state after which two processes own the lock |
| LockProtocol.NestedOutlivesOuter | scripts/node/testing/verify-runtime.js:360-397 | From every state of the invariant with a nested process and another one that found the lock stale, that one can come to own it beside the nested one; by right clean-ups only exactly when no process owns the lock |
| LockProtocol.NestedSituationArises | scripts/node/testing/verify-runtime.js:360-377 | Such a state without an owner arises from an initial state |
| LockRuns.RunsAreSafe | scripts/node/testing/verify-runtime.js:331-453 | Over every run in which no publication comes between a reading and the clean-up that acts on it, also with crashes at any point, every clean-up removes a stale lock and at most one living process owns the lock |
| LockRuns.DirectCleanUps | scripts/node/testing/verify-runtime.js:373-376 | So do all runs in which each clean-up directly follows the reading |
| LockRuns.ReadingDecides | scripts/node/testing/verify-runtime.js:412-452 | Reading decides: no record is stale, an own token runs nested, a dead owner is stale, a living one is waited for until the time is up; nothing else changes |
| LockRuns.FoundStaleIffUnowned | scripts/node/testing/verify-runtime.js:412-437 | Under the invariant a lock is found stale exactly if no living process owns it, its own token aside |
| LockRuns.LivingOwnerIsRespected | scripts/node/testing/verify-runtime.js:433-452 | A process with another token never finds a living owner's lock stale |
| LockRuns.AttemptAlone | scripts/node/testing/verify-runtime.js:331-400 | An undisturbed attempt publishes its own record exactly if there is no lock, and otherwise decides on the record there |
| LockRuns.LosingTheRace | scripts/node/testing/verify-runtime.js:395-452 | A publication that collides with another lock leaves that lock alone and decides on its record |
| LockRuns.CleanUpAlone | scripts/node/testing/verify-runtime.js:373-400 | After a clean-up an undisturbed process comes to hold the lock |
| LockRuns.ReleaseAlone | scripts/node/testing/verify-runtime.js:207-216 | A release frees the lock exactly if no other token owns it |
| LockRuns.OwnersRelease | scripts/node/testing/verify-runtime.js:313-328 | Under the invariant the release of an owner frees the lock |
| SkillFile.ReadBlock | scripts/node/claude-skill-sync/core.js:119-139 | The lines of a block scalar, up to the first line that is neither indented nor empty |
| SkillFile.ParseSkillMetadata | scripts/node/claude-skill-sync/core.js:99-155 | The index loops read the metadata of the specification, or fail as it does |
| SkillReading.ParseSkillIff | scripts/node/claude-skill-sync/core.js:157-164 | A file is read exactly if its front matter is found and read, and the body is what remains |
| SkillReading.FrontMatterIff | scripts/node/claude-skill-sync/core.js:84-97 | The front matter stands between dashes that open the text and the first other line that begins with dashes; the body follows behind at most one line break |
| SkillReading.ReadMetadataIff | scripts/node/claude-skill-sync/core.js:99-155 | Of any lines, metadata is read exactly if every entry has a value and the last name and the last description are not empty; it is what these say |
| SkillReading.ReadMetadataFails | scripts/node/claude-skill-sync/core.js:99-155 | Which error is reported otherwise |
| SkillReading.InlineIff | scripts/node/claude-skill-sync/core.js:70-82 | A value on one line is what stands between the blanks around it, or between a pair of quotes there |
| SkillReading.FirstCrlf | scripts/node/claude-skill-sync/core.js:66-68 | The first CRLF becomes LF, and what is behind it is normalized alone |
| SkillFile.NormalizeFixed | scripts/node/claude-skill-sync/core.js:66-68 | Newline normalization keeps exactly the texts without CRLF |
| SkillFile.SplitJoined | scripts/node/claude-skill-sync/core.js:166-168 | Splitting joined lines gives the lines |
| SkillFile.JoinSplit | scripts/node/claude-skill-sync/core.js:166-168 | Joining split lines gives the text |
| SkillFile.ClosingFound | scripts/node/claude-skill-sync/core.js:86-97 | The closing dashes are found behind the header and nowhere in it |
| SkillFile.ParsePrinted | scripts/node/claude-skill-sync/core.js:66-181 | What reading back a written skill gives, in every case |
| SkillFile.ParsedSkill | scripts/node/claude-skill-sync/core.js:70-164 | Whatever is read has a one-line, non-empty name and a non-empty description |
| SkillFile.RoundTripIff | scripts/node/claude-skill-sync/core.js:66-181 | Reading a written skill gives it back exactly when its name is one trimmed, unquoted, non-empty line, its description is non-empty without trailing blanks, and no text holds CRLF |
| SkillFile.PrintIsInjective | scripts/node/claude-skill-sync/core.js:166-181 | Different skills with one-line names are written differently |
| SkillReading.PrintMeaning | scripts/node/claude-skill-sync/core.js:166-181 | The text written for a skill |
| SkillReading.IndentedLines | scripts/node/claude-skill-sync/core.js:166-168 | Each line of the description is indented by two blanks |
| SkillFile.ConversionIsStableIff | scripts/node/claude-skill-sync/core.js:157-181 | Converting a converted file changes nothing exactly when the skill that was read is good |
| ProviderHost.Host.LoadSource | api/apps/plugin-runner/src/provider_host.rs:101-121 | New maps and result are those of the specification; nothing changes on failure |
| ProviderHost.Host.Load | api/apps/plugin-runner/src/provider_host.rs:88-99 | Resolves the root and loads without an identity |
| ProviderHost.Host.LoadIfNeeded | api/apps/plugin-runner/src/provider_host.rs:127-143 | Skips exactly when the same root with the same, present identity is recorded |
| ProviderHost.Host.Reload | api/apps/plugin-runner/src/provider_host.rs:145-171 | Loads the recorded source again under the same id |
| ProviderCalls.LoadMeaning | api/apps/plugin-runner/src/provider_host.rs:88-121 | A load resolves the path and records under its identifier the package there, without an identity; otherwise it fails and records nothing |
| ProviderCalls.LoadIfNeededMeaning | api/apps/plugin-runner/src/provider_host.rs:127-143 | Nothing happens if just this root is recorded under just this identity; otherwise the package is loaded if it has the given identifier |
| ProviderCalls.ReloadMeaning | api/apps/plugin-runner/src/provider_host.rs:145-171 | A loaded package is loaded again from its recorded source, or without one from its root |
| ProviderHost.RunsAreConsistent | api/apps/plugin-runner/src/provider_host.rs:81-171 | After all calls, failed ones included, both maps have the same keys, each its package's identifier, and every package was read at the root recorded for it |
| ProviderHost.ReloadNeverFallsBack | api/apps/plugin-runner/src/provider_host.rs:145-166 | A reload finds a recorded source for every loaded package |
| ProviderHost.CallsAreLocal | api/apps/plugin-runner/src/provider_host.rs:88-171 | A failed call changes nothing, and no call changes the entry of another package |
| ProviderHost.HonestRunsAreUpToDate | api/apps/plugin-runner/src/provider_host.rs:60-62 | If packages are a function of root and identity, every cached package with an identity is that function's value |
| ProviderHost.CallKeepsUpToDateIff | api/apps/plugin-runner/src/provider_host.rs:88-171 | A call leaves an up-to-date cache up to date exactly if it is going to store nothing, or without an identity, or what the identity stands for |
| ProviderHost.AlwaysAgreesIff | api/apps/plugin-runner/src/provider_host.rs:127-143 | Every further honest load-if-needed agrees with loading afresh exactly when the cache is up to date |
| ProviderHost.SkippingIsLoading | api/apps/plugin-runner/src/provider_host.rs:127-143 | Then a successful load-if-needed with an identity leaves the requested source and its package and, if the package can still be read, exactly the maps that a fresh load leaves |
| ProviderHost.ReloadMakesIdentityStale | api/apps/plugin-runner/src/provider_host.rs:145-171 | A run in which a reload on a changed disk makes load-if-needed keep the wrong package |
| ExposureAdvisor.ApiExposureAdvisorFacts | api/crates/control-plane/src/model_definition.rs:1048-1098 | All facts but the write flag are those of a full scan; the write flag is that of the keys up to the first complete path |
| ExposureAdvisor.EffectiveApiExposureStatus | api/crates/control-plane/src/model_definition.rs:1006-1035 | The status by the facts of a full scan |
| ExposureAdvisor.HasDuplicateOrRiskyFields | api/crates/control-plane/src/model_definition.rs:1134-1153 | True exactly if two fields share a code or an external key, or a JSON field is unique |
| ExposureAdvisor.AdvisorFindings | api/crates/control-plane/src/model_definition.rs:866-970 | Exactly the findings due on a full scan, in order, with severity and acknowledgement |
| ExposureAdvisor.ReadyIff | api/crates/control-plane/src/model_definition.rs:1006-1097 | Ready exactly if published, safe, audited, and some active key with an action has a usable grant |
| ExposureAdvisor.ReadyIsQuiet | api/crates/control-plane/src/model_definition.rs:885-943 | A ready model draws none of the findings on exposure, permissions, source, audit or scope filters |
| ExposureAdvisor.NoPermissionIff | api/crates/control-plane/src/model_definition.rs:899-943 | Exactly when a published, safe model is reported without permissions: no key has an action, the scope filter finding is there, or audit is not configured |
| ExposureMeaning.StatusMeaning | api/crates/control-plane/src/model_definition.rs:1006-1035 | The status in every case, told from the records of model, keys and grants |
| ExposureMeaning.FindingsMeaning | api/crates/control-plane/src/model_definition.rs:866-970 | Exactly the findings that these records call for, each with its severity, in one order |
| ExposureMeaning.FactsMeaning | api/crates/control-plane/src/model_definition.rs:1048-1098 | What each fact about the keys says |
| ExposureMeaning.WriteFlagMeaning | api/crates/control-plane/src/model_definition.rs:1065-1087 | The reported write flag: some active key may write, and no earlier one makes a path complete |
| ExposureMeaning.RiskMeaning | api/crates/control-plane/src/model_definition.rs:1134-1153 | Which fields clash or are risky |
| ExposureAdvisor.ScanMissesAWritePermission | api/crates/control-plane/src/model_definition.rs:1084-1087 | Keys for which the early stop misses a write permission |

## Left out

- The shape errors of node documents (missing id, type, alias, bindings, outputs), which are one-branch checks, and the
  alias, container and outputs of a node.
- Texts of error messages and compile issues; only their kinds, node ids and operands are modelled.
- Running a plan: nothing is said about execution.
- FlowCompiler.CompiledPlan.FreezeFailoverQueueRoutes: does not model the snapshot records that the repository stores;
  the repository's answers are given maps.
- LlmRouting.FreezeRuntime: parsing of ids is a given map.
- ThinkSplitter.ThinkTagStreamSplitter.Split: strings are sequences of characters, not bytes; both tags are ASCII, so a
  cut never falls inside a character.
- Coalescer.CoalesceProviderStreamEvents: assumes that other events can be serialized; the program gives up otherwise.
- Template.RenderTemplate: the text of a value that is neither a string nor null is an uninterpreted function.
- Binding resolution of all bindings of a node at once, which only maps over single bindings.
- The members `servers` and `tags` of a scoped OpenAPI document; titles, categories and sorting of the catalogue.
- OpenApiScope.ScopeComponentsAreUnion: for references with two segments and plain scheme names; references into
  deeper nodes are covered by OpenApiScope.ScopedRefsResolve.
- ScopeClosure.ClosedIff: not for documents that have both a reference with a double slash behind `components` and one
  that is `#/components` with nothing but slashes behind it; there the first can resolve through the second. Names of
  security schemes are plain.
- ScopeClosure.DocumentRefsResolve: no node and no scheme is inserted as a member called `$ref`, which would be read as a
  reference; the members `openapi` and `info` are copied without being searched.
- Security schemes are inserted without being searched for references, as in the program; references inside them are
  not claimed to resolve.
- JSON: numbers are opaque, objects have no order, and loops over members take them in any order, except where the order
  decides what is stored, which is that of the names. Insertion at a pointer is a function on values, so updating a
  nested value in place is not captured.
- SecretScrub.Scrubber.Scrub: the secrets are one field of an object that every recursive call updates; the path is a
  value and not a stack that is pushed and popped.
- SecretRecovery.RecoveredIffRecoverable: for configurations and secrets that do not use the name of the store,
  `__config_secret_values`, themselves. Its orders are all in which each value is stored once.
- SecretOrder.RebuiltIff: for configurations that do not use that name at the top, and secrets in which it names an
  object or nothing.
- SecretKeys.SealedIsStored: under the same conditions; what is sealed is stated without them.
- LockRuns.RunsAreSafe: for runs in which no clean-up is overtaken by a publication; removing a directory and renaming
  are one step each, process ids are not reused, waiting and the time limit are choices, and errors other than a
  collision are not modelled.
- ProviderHost.SkippingIsLoading: assumes that a package read under an identity is the one it stands for, at reloads too;
  without that it fails as ProviderHost.ReloadMakesIdentityStale shows. The contents of packages are opaque, and the
  file system does not change during a call.
- ExposureAdvisor.ApiExposureAdvisorFacts: permission checks, loading of records and expiry times; a key has a flag that
  it has not expired.
- Hashing, HTTP, processes, status transition tables and permission catalogues.
