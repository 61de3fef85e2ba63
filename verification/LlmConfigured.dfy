/** What a configured LLM node compiles to, told from the members of its configuration: which problems are reported, and
    each field of the runtime, before and after freezing. */
module LlmConfigured {
  import opened Wrappers
  import opened Json
  import opened LlmRouting
  import opened Text

  // ----- Reading members -----

  /** The member is a string whose trimmed text is `text` and not empty. */
  predicate Says(v: Option<Value>, key: string, text: string) {
    match v
    case Some(Object(fields)) =>
      key in fields && fields[key].String? && Trim(fields[key].s) == text && text != ""
    case _ => false
  }

  ghost predicate Silent(v: Option<Value>, key: string) {
    forall text :: !Says(v, key, text)
  }

  lemma SettingIff(v: Option<Value>, key: string, text: string)
    ensures Setting(GetIn(v, key)) == Some(text) <==> Says(v, key, text)
  {
    hide Trim;
  }

  lemma UnsetIff(v: Option<Value>, key: string)
    ensures Setting(GetIn(v, key)).None? <==> Silent(v, key)
  {
    hide Setting, Says;
    if Setting(GetIn(v, key)).Some? {
      SettingIff(v, key, Setting(GetIn(v, key)).value);
    } else {
      forall text
        ensures !Says(v, key, text)
      {
        SettingIff(v, key, text);
      }
    }
  }

  /** The node is routed through a queue. */
  predicate Queued(config: Value) {
    match Provider(config)
    case Some(Object(fields)) => "routing_mode" in fields && fields["routing_mode"] == String("failover_queue")
    case _ => false
  }

  function Provider(config: Value): Option<Value> {
    match config
    case Object(fields) => if "model_provider" in fields then Some(fields["model_provider"]) else None
    case _ => None
  }

  lemma WantsQueueIff(config: Value)
    ensures WantsQueue(config) <==> Queued(config)
    ensures Get(config, "model_provider") == Provider(config)
  {
  }

  // ----- Fixed model -----

  /** The instance with this id that a fixed-model node names together with its provider. */
  ghost predicate NamesInstance(ctx: Context, provider: Option<Value>, id: string) {
    && Says(provider, "source_instance_id", id) && id in ctx.instances
    && Says(provider, "provider_code", ctx.instances[id].providerCode)
  }

  /** And it can be chosen: it is in the main group, and the provider is a known family. */
  ghost predicate NamesChoice(ctx: Context, provider: Option<Value>, id: string) {
    && NamesInstance(ctx, provider, id)
    && ctx.instances[id].includedInMain && ctx.instances[id].providerCode in ctx.families
  }

  predicate Offers(instance: ProviderInstance, model: string) {
    model in instance.availableModels || |instance.availableModels| == 0 || instance.allowCustomModels
  }

  lemma SaysOnce(v: Option<Value>, key: string, a: string, b: string)
    requires Says(v, key, a) && Says(v, key, b)
    ensures a == b
  {
  }

  /** The settings of a fixed-model node by its members. */
  lemma ReadFixedMeaning(provider: Option<Value>)
    ensures var c := ReadFixed(provider);
            && (c.provider.Some? ==> Says(provider, "provider_code", c.provider.value))
            && (c.source.Some? ==> Says(provider, "source_instance_id", c.source.value))
            && (c.model.Some? ==> Says(provider, "model_id", c.model.value))
            && (c.provider.None? ==> Silent(provider, "provider_code"))
            && (c.source.None? ==> Silent(provider, "source_instance_id"))
            && (c.model.None? ==> Silent(provider, "model_id"))
  {
    hide Setting, Says;
    var c := ReadFixed(provider);
    UnsetIff(provider, "provider_code");
    UnsetIff(provider, "source_instance_id");
    UnsetIff(provider, "model_id");
    if c.provider.Some? { SettingIff(provider, "provider_code", c.provider.value); }
    if c.source.Some? { SettingIff(provider, "source_instance_id", c.source.value); }
    if c.model.Some? { SettingIff(provider, "model_id", c.model.value); }
  }

  lemma NamesInstanceIff(ctx: Context, provider: Option<Value>)
    ensures var c := ReadFixed(provider);
            && (Matched(ctx, c) <==> exists id :: NamesInstance(ctx, provider, id))
            && (Included(ctx, c) <==> exists id :: NamesChoice(ctx, provider, id))
    ensures forall id | NamesInstance(ctx, provider, id) :: ReadFixed(provider).source == Some(id)
  {
    ReadFixedMeaning(provider);
    hide ReadFixed, Says;
    var c := ReadFixed(provider);
    forall id | NamesInstance(ctx, provider, id)
      ensures c.source == Some(id) && Matched(ctx, c)
    {
      assert c.source.Some? && c.provider.Some?;
      SaysOnce(provider, "source_instance_id", id, c.source.value);
      SaysOnce(provider, "provider_code", ctx.instances[id].providerCode, c.provider.value);
    }
    if Matched(ctx, c) { assert NamesInstance(ctx, provider, c.source.value); }
    if Included(ctx, c) { assert NamesChoice(ctx, provider, c.source.value); }
    if id :| NamesChoice(ctx, provider, id) {
      assert NamesInstance(ctx, provider, id) && c.source == Some(id);
      SaysOnce(provider, "provider_code", ctx.instances[id].providerCode, c.provider.value);
    }
  }

  /** Main result: a fixed-model node gets a runtime exactly if it names an instance that can be chosen. All four fields
      are those of this instance and of the configured model, which is empty if none is configured, and the target says
      the same. */
  lemma FixedRuntimeFields(ctx: Context, config: Value)
    requires !Queued(config)
    ensures LlmRuntimeOf(ctx, config).Some? <==> exists id :: NamesChoice(ctx, Provider(config), id)
    ensures forall id | NamesChoice(ctx, Provider(config), id) ::
              LlmRuntimeOf(ctx, config).Some? && FieldsOf(ctx, Provider(config), id, LlmRuntimeOf(ctx, config).value)
  {
    var provider := Provider(config);
    WantsQueueIff(config);
    NamesInstanceIff(ctx, provider);
    ReadFixedMeaning(provider);
    hide ReadFixed, Says;
    forall id | NamesChoice(ctx, provider, id)
      ensures LlmRuntimeOf(ctx, config).Some? && FieldsOf(ctx, provider, id, LlmRuntimeOf(ctx, config).value)
    {
      assert NamesInstance(ctx, provider, id);
    }
  }

  ghost predicate FieldsOf(ctx: Context, provider: Option<Value>, id: string, runtime: LlmRuntime)
    requires id in ctx.instances
  {
    && runtime.top.instanceId == ctx.instances[id].instanceId
    && runtime.top.protocol == ctx.instances[id].protocol
    && Says(provider, "provider_code", runtime.top.providerCode)
    && (Says(provider, "model_id", runtime.top.model) || (Silent(provider, "model_id") && runtime.top.model == ""))
    && runtime.routing == Some(FixedModel(Target(runtime.top.instanceId, runtime.top.providerCode, runtime.top.protocol,
                                                 runtime.top.model)))
  }

  /** Freezing leaves a fixed-model node as it is. */
  lemma FixedRuntimeStays(ctx: Context, config: Value, repo: Repository, nodeId: string, id: string, after: LlmRuntime)
    requires !Queued(config) && NamesChoice(ctx, Provider(config), id)
    requires LlmRuntimeOf(ctx, config).Some? && FrozenFrom(repo, nodeId, LlmRuntimeOf(ctx, config).value, after)
    ensures FieldsOf(ctx, Provider(config), id, after)
  {
    FixedRuntimeFields(ctx, config);
    hide LlmRuntimeOf, Says, NamesChoice;
  }

  /** Which problems of a fixed-model node are reported. */
  lemma FixedProblems(ctx: Context, config: Value)
    requires !Queued(config)
    ensures var provider := Provider(config);
            var issues := LlmIssues(ctx, config);
            var named := !Silent(provider, "provider_code") && !Silent(provider, "source_instance_id");
            && (MissingProviderInstance in issues <==> !named)
            && (ProviderInstanceNotFound in issues <==> named && !exists id :: NamesChoice(ctx, provider, id))
            && (ProviderInstanceNotReady in issues <==>
                  exists id :: NamesInstance(ctx, provider, id) &&
                               (!ctx.instances[id].isRunnable ||
                                (NamesChoice(ctx, provider, id) && !ctx.instances[id].isReady)))
            && (MissingModel in issues <==> Silent(provider, "model_id"))
            && (ModelNotAvailable in issues <==>
                  exists id, model :: NamesChoice(ctx, provider, id) && Says(provider, "model_id", model)
                                      && !Offers(ctx.instances[id], model))
  {
    var provider := Provider(config);
    WantsQueueIff(config);
    FixedIssuesAreDue(ctx, ReadFixed(provider));
    NamesInstanceIff(ctx, provider);
    ReadFixedMeaning(provider);
    hide ReadFixed, Says, FixedIssues;
    var c := ReadFixed(provider);
    ProviderProblems(ctx, provider);
    NotReadyProblem(ctx, provider);
    ModelProblem(ctx, provider);
  }

  lemma ProviderProblems(ctx: Context, provider: Option<Value>)
    ensures var c := ReadFixed(provider);
            (c.provider.None? || c.source.None? <==>
               Silent(provider, "provider_code") || Silent(provider, "source_instance_id"))
            && (c.model.None? <==> Silent(provider, "model_id"))
  {
    ReadFixedMeaning(provider);
    hide ReadFixed, Says;
  }

  lemma NotReadyProblem(ctx: Context, provider: Option<Value>)
    ensures Diagnosis(ctx, ReadFixed(provider), ProviderInstanceNotReady) <==>
            exists id :: NamesInstance(ctx, provider, id) &&
                         (!ctx.instances[id].isRunnable ||
                          (NamesChoice(ctx, provider, id) && !ctx.instances[id].isReady))
  {
    NamesInstanceIff(ctx, provider);
    hide ReadFixed, Says;
    var c := ReadFixed(provider);
    if Matched(ctx, c) {
      var id :| NamesInstance(ctx, provider, id);
      assert c.source == Some(id);
      assert Included(ctx, c) <==> NamesChoice(ctx, provider, id);
    }
  }

  lemma ModelProblem(ctx: Context, provider: Option<Value>)
    ensures Diagnosis(ctx, ReadFixed(provider), ModelNotAvailable) <==>
            exists id, model :: NamesChoice(ctx, provider, id) && Says(provider, "model_id", model)
                                && !Offers(ctx.instances[id], model)
  {
    NamesInstanceIff(ctx, provider);
    ReadFixedMeaning(provider);
    hide ReadFixed, Says;
    var c := ReadFixed(provider);
    if Included(ctx, c) && c.model.Some? {
      var id :| NamesChoice(ctx, provider, id);
      assert NamesInstance(ctx, provider, id) && c.source == Some(id);
      assert Serves(ctx.instances[id], c.model.value) <==> Offers(ctx.instances[id], c.model.value);
    }
    if id, model :| NamesChoice(ctx, provider, id) && Says(provider, "model_id", model)
                    && !Offers(ctx.instances[id], model) {
      assert NamesInstance(ctx, provider, id);
      SaysOnce(provider, "model_id", model, c.model.value);
    }
  }

  /** A fixed-model node is compiled without issue exactly if it names an instance that can be chosen, is ready and
      runnable, and offers the configured model. */
  lemma FixedRunsIff(ctx: Context, config: Value)
    requires !Queued(config)
    ensures LlmIssues(ctx, config) == [] <==>
            exists id, model :: && NamesChoice(ctx, Provider(config), id)
                                && ctx.instances[id].isReady && ctx.instances[id].isRunnable
                                && Says(Provider(config), "model_id", model) && Offers(ctx.instances[id], model)
  {
    var provider := Provider(config);
    WantsQueueIff(config);
    FixedIssuesAreDue(ctx, ReadFixed(provider));
    NoIssueIffRunnable(ctx, ReadFixed(provider));
    var issues := LlmIssues(ctx, config);
    if issues != [] { assert issues[0] in issues; }
    NamesInstanceIff(ctx, provider);
    ReadFixedMeaning(provider);
    hide ReadFixed, Says, FixedIssues, Diagnosis;
    var c := ReadFixed(provider);
    if Runnable(ctx, c) {
      var id :| NamesChoice(ctx, provider, id);
      assert NamesInstance(ctx, provider, id) && c.source == Some(id);
      assert Offers(ctx.instances[id], c.model.value);
    }
    if id, model :| && NamesChoice(ctx, provider, id) && ctx.instances[id].isReady && ctx.instances[id].isRunnable
                    && Says(provider, "model_id", model) && Offers(ctx.instances[id], model) {
      assert NamesInstance(ctx, provider, id) && c.source == Some(id);
      SaysOnce(provider, "model_id", model, c.model.value);
    }
  }

  // ----- Targets of a queue -----

  /** The first of two members decides if it is there at all, and otherwise the second. */
  predicate Chooses(raw: Value, first: string, second: string, text: string) {
    if raw.Object? && first in raw.fields then Says(Some(raw), first, text) else Says(Some(raw), second, text)
  }

  ghost predicate ChoosesNone(raw: Value, first: string, second: string) {
    forall text :: !Chooses(raw, first, second, text)
  }

  lemma ChoosesIff(raw: Value, first: string, second: string)
    ensures var setting := Setting(OrElse(Get(raw, first), Get(raw, second)));
            && (forall text :: setting == Some(text) <==> Chooses(raw, first, second, text))
            && (setting.None? <==> ChoosesNone(raw, first, second))
  {
    var v := OrElse(Get(raw, first), Get(raw, second));
    forall text
      ensures Setting(v) == Some(text) <==> Chooses(raw, first, second, text)
    {
      SettingIff(Some(raw), first, text);
      SettingIff(Some(raw), second, text);
    }
    hide Setting, Chooses;
    if Setting(v).Some? { assert Chooses(raw, first, second, Setting(v).value); }
  }

  predicate NamesTarget(ctx: Context, raw: Value, id: string, model: string) {
    && Chooses(raw, "provider_instance_id", "source_instance_id", id) && id in ctx.instances
    && Chooses(raw, "upstream_model_id", "model_id", model)
  }

  /** What the target says itself, or else what the instance says. */
  function Override(raw: Value, key: string, default: string): string {
    match raw
    case Object(fields) => if key in fields && fields[key].String? then fields[key].s else default
    case _ => default
  }

  predicate Usable(instance: ProviderInstance) {
    instance.includedInMain && instance.isRunnable && instance.isReady
  }

  lemma ReadTargetMeaning(raw: Value)
    ensures var t := ReadTarget(raw);
            && (forall id :: t.source == Some(id) <==> Chooses(raw, "provider_instance_id", "source_instance_id", id))
            && (forall m :: t.model == Some(m) <==> Chooses(raw, "upstream_model_id", "model_id", m))
            && (t.source.None? <==> ChoosesNone(raw, "provider_instance_id", "source_instance_id"))
            && (t.model.None? <==> ChoosesNone(raw, "upstream_model_id", "model_id"))
  {
    ChoosesIff(raw, "provider_instance_id", "source_instance_id");
    ChoosesIff(raw, "upstream_model_id", "model_id");
    hide Chooses, Setting;
  }

  /** Main result: a configured target is kept exactly if it names an instance that is known and a model; these two, and
      what the target or else the instance says about provider and protocol, are its fields. */
  lemma TargetFields(ctx: Context, raw: Value)
    ensures Resolved(ctx, ReadTarget(raw)) <==> exists id, model :: NamesTarget(ctx, raw, id, model)
    ensures forall id, model | NamesTarget(ctx, raw, id, model) ::
              && Resolved(ctx, ReadTarget(raw))
              && var target := QueueTarget(ctx, ReadTarget(raw));
                 && target.instanceId == ctx.instances[id].instanceId && target.model == model
                 && target.providerCode == Override(raw, "provider_code", ctx.instances[id].providerCode)
                 && target.protocol == Override(raw, "protocol", ctx.instances[id].protocol)
  {
    ReadTargetMeaning(raw);
    OverrideIff(raw, "provider_code");
    OverrideIff(raw, "protocol");
    var t := ReadTarget(raw);
    assert t.providerCode == AsStr(Get(raw, "provider_code")) && t.protocol == AsStr(Get(raw, "protocol"));
    hide ReadTarget, Chooses, Override;
    if Resolved(ctx, t) { assert NamesTarget(ctx, raw, t.source.value, t.model.value); }
  }

  lemma OverrideIff(raw: Value, key: string)
    ensures forall default :: Override(raw, key, default) == Default(AsStr(Get(raw, key)), default)
  {
  }

  /** Which problems of a target are reported. */
  lemma TargetProblems(ctx: Context, raw: Value)
    ensures var issues := TargetIssues(ctx, ReadTarget(raw));
            var unnamed := ChoosesNone(raw, "provider_instance_id", "source_instance_id");
            var noModel := ChoosesNone(raw, "upstream_model_id", "model_id");
            && (MissingProviderInstance in issues <==> unnamed)
            && (MissingModel in issues <==> !unnamed && noModel)
            && (ProviderInstanceNotFound in issues <==>
                  !unnamed && !noModel && !exists id, model :: NamesTarget(ctx, raw, id, model))
            && (ProviderInstanceNotReady in issues <==>
                  exists id, model :: NamesTarget(ctx, raw, id, model) && !Usable(ctx.instances[id]))
            && (ModelNotAvailable in issues <==>
                  exists id, model :: NamesTarget(ctx, raw, id, model) && !Offers(ctx.instances[id], model))
            && (issues == [] <==> exists id, model :: NamesTarget(ctx, raw, id, model) && Usable(ctx.instances[id])
                                                      && Offers(ctx.instances[id], model))
  {
    var t := ReadTarget(raw);
    TargetIssuesMeaning(ctx, t);
    ReadTargetMeaning(raw);
    TargetFields(ctx, raw);
    hide ReadTarget, Chooses, TargetIssues;
    if Resolved(ctx, t) {
      var id, model := t.source.value, t.model.value;
      assert NamesTarget(ctx, raw, id, model);
      assert forall i, m | NamesTarget(ctx, raw, i, m) :: i == id && m == model;
      assert Serves(ctx.instances[id], model) <==> Offers(ctx.instances[id], model);
    }
  }

  /** The kept targets are in the order of the configuration. */
  lemma {:induction false} KeptInOrder(ctx: Context, a: seq<Value>, b: seq<Value>)
    ensures ResolvedTargets(ctx, a + b) == ResolvedTargets(ctx, a) + ResolvedTargets(ctx, b)
  {
    hide Resolved, QueueTarget, ReadTarget;
    if b == [] {
      assert a + b == a;
    } else {
      assert (a + b)[..|a + b| - 1] == a + b[..|b| - 1];
      KeptInOrder(ctx, a, b[..|b| - 1]);
    }
  }

  lemma KeptAlone(ctx: Context, raw: Value)
    ensures ResolvedTargets(ctx, []) == []
    ensures ResolvedTargets(ctx, [raw]) ==
            if Resolved(ctx, ReadTarget(raw)) then [QueueTarget(ctx, ReadTarget(raw))] else []
  {
    hide Resolved, QueueTarget, ReadTarget;
    assert [raw][..0] == [];
  }

  // ----- Queues -----

  /** The configured targets: the member, if it is an array. */
  function TargetsMember(provider: Option<Value>): seq<Value> {
    match provider
    case Some(Object(fields)) =>
      if "queue_targets" in fields && fields["queue_targets"].Array? then fields["queue_targets"].items else []
    case _ => []
  }

  /** The runtime of a queue: its ids as configured, its targets, and on top the first target or empty fields. */
  lemma QueueFields(ctx: Context, config: Value)
    requires Queued(config)
    ensures LlmRuntimeOf(ctx, config).Some?
    ensures var runtime := LlmRuntimeOf(ctx, config).value;
            var provider := Provider(config);
            && runtime.routing.Some? && runtime.routing.value.FailoverQueue?
            && var (template, snapshot, targets) :=
                 (runtime.routing.value.templateId, runtime.routing.value.snapshotId, runtime.routing.value.targets);
               && (if template.Some? then Says(provider, "queue_template_id", template.value)
                   else Silent(provider, "queue_template_id"))
               && (if snapshot.Some? then Says(provider, "queue_snapshot_id", snapshot.value)
                   else Silent(provider, "queue_snapshot_id"))
               && targets == ResolvedTargets(ctx, TargetsMember(provider))
               && runtime.top == if targets == [] then Target("", "", "", "") else targets[0]
  {
    var provider := Provider(config);
    WantsQueueIff(config);
    SettingMeaning(provider, "queue_template_id");
    SettingMeaning(provider, "queue_snapshot_id");
    hide Says, Setting, ResolvedTargets;
    assert RawTargets(provider) == TargetsMember(provider);
  }

  lemma SettingMeaning(v: Option<Value>, key: string)
    ensures var setting := Setting(GetIn(v, key));
            if setting.Some? then Says(v, key, setting.value) else Silent(v, key)
  {
    UnsetIff(v, key);
    if Setting(GetIn(v, key)).Some? { SettingIff(v, key, Setting(GetIn(v, key)).value); }
  }

  /** A queue compiles without issue exactly if it names a template and each configured target names an instance that is
      ready, runnable and in the main group, and a model that it offers. */
  lemma QueueRunsIff(ctx: Context, config: Value)
    requires Queued(config)
    ensures LlmIssues(ctx, config) == [] <==>
            && !Silent(Provider(config), "queue_template_id")
            && forall raw <- TargetsMember(Provider(config)) :: FineTarget(ctx, raw)
  {
    var provider := Provider(config);
    WantsQueueIff(config);
    UnsetIff(provider, "queue_template_id");
    assert RawTargets(provider) == TargetsMember(provider);
    NoProblemInAny(ctx, RawTargets(provider));
    hide Says, Setting, TargetsIssues, FineTarget;
  }

  ghost predicate FineTarget(ctx: Context, raw: Value) {
    exists id, model ::
      NamesTarget(ctx, raw, id, model) && Usable(ctx.instances[id]) && Offers(ctx.instances[id], model)
  }

  lemma {:induction false} NoProblemInAny(ctx: Context, raw: seq<Value>)
    ensures TargetsIssues(ctx, raw) == [] <==> forall target <- raw :: FineTarget(ctx, target)
  {
    hide FineTarget, TargetIssues, ReadTarget;
    if raw != [] {
      var front, last := raw[..|raw| - 1], raw[|raw| - 1];
      assert raw == front + [last];
      NoProblemInAny(ctx, front);
      FineIff(ctx, last);
    }
  }

  lemma FineIff(ctx: Context, raw: Value)
    ensures FineTarget(ctx, raw) <==> TargetIssues(ctx, ReadTarget(raw)) == []
  {
    TargetProblems(ctx, raw);
    hide TargetIssues, ReadTarget, Chooses;
  }

  /** The issues of a queue: that of a missing template first, then those of the targets. */
  lemma QueueIssuesInOrder(ctx: Context, provider: Option<Value>)
    ensures QueueIssues(ctx, provider) ==
            (if Silent(provider, "queue_template_id") then [MissingProviderInstance] else [])
            + TargetsIssues(ctx, TargetsMember(provider))
  {
    UnsetIff(provider, "queue_template_id");
    assert RawTargets(provider) == TargetsMember(provider);
    hide TargetsIssues, Setting, Says;
  }

  /** These are in the order of the configuration. */
  lemma {:induction false} TargetsIssuesInOrder(ctx: Context, a: seq<Value>, b: seq<Value>)
    ensures TargetsIssues(ctx, a + b) == TargetsIssues(ctx, a) + TargetsIssues(ctx, b)
  {
    hide TargetIssues, ReadTarget;
    if b == [] {
      assert a + b == a;
    } else {
      assert (a + b)[..|a + b| - 1] == a + b[..|b| - 1];
      TargetsIssuesInOrder(ctx, a, b[..|b| - 1]);
    }
  }

  lemma TargetIssuesAlone(ctx: Context, raw: Value)
    ensures TargetsIssues(ctx, []) == []
    ensures TargetsIssues(ctx, [raw]) == TargetIssues(ctx, ReadTarget(raw))
  {
    hide TargetIssues, ReadTarget;
    assert [raw][..0] == [];
  }

  // ----- Freezing -----

  /** The id of the queue's template is that of an active queue of the repository with these items. */
  ghost predicate FindsQueue(repo: Repository, templateId: Option<string>, items: seq<QueueItem>) {
    exists id :: && templateId.Some? && templateId.value in repo.uuids && repo.uuids[templateId.value] == id
                 && id in repo.statuses && repo.statuses[id] == "active" && id in repo.items && repo.items[id] == items
  }

  /** Main result: an open queue can be frozen exactly if its active template is found, a snapshot is stored and some
      item is enabled. Then its targets are those of the enabled items in order, the first of them is on top, and the
      ids are those of the template and of the snapshot. */
  lemma FrozenFields(repo: Repository, nodeId: string, before: LlmRuntime, items: seq<QueueItem>)
    requires NeedsFreezing(before) && FindsQueue(repo, before.routing.value.templateId, items)
    ensures Freezable(repo, nodeId, before) <==> nodeId in repo.snapshots && exists item <- items :: item.enabled
    ensures forall after | FrozenFrom(repo, nodeId, before, after) ::
              && after.routing == Some(FailoverQueue(before.routing.value.templateId, Some(repo.snapshots[nodeId]),
                                                     EnabledTargets(items)))
              && EnabledTargets(items) != [] && after.top == EnabledTargets(items)[0]
  {
  }

  /** Without such a queue it cannot be frozen. */
  lemma UnknownQueueIsNotFrozen(repo: Repository, nodeId: string, before: LlmRuntime)
    requires NeedsFreezing(before) && forall items :: !FindsQueue(repo, before.routing.value.templateId, items)
    ensures !Freezable(repo, nodeId, before)
  {
    if SnapshotTaken(repo, nodeId, before) {
      assert FindsQueue(repo, before.routing.value.templateId, QueueItems(repo, nodeId, before));
    }
  }

  /** The enabled targets are in the order of the items. */
  lemma {:induction false} EnabledInOrder(a: seq<QueueItem>, b: seq<QueueItem>)
    ensures EnabledTargets(a + b) == EnabledTargets(a) + EnabledTargets(b)
  {
    if b == [] {
      assert a + b == a;
    } else {
      assert (a + b)[..|a + b| - 1] == a + b[..|b| - 1];
      EnabledInOrder(a, b[..|b| - 1]);
    }
  }

  lemma EnabledAlone(item: QueueItem)
    ensures EnabledTargets([]) == []
    ensures EnabledTargets([item]) == if item.enabled then [item.target] else []
  {
    assert [item][..0] == [];
  }
}
