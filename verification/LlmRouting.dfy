/** LLM routing of flow nodes: compiling it (orchestration-runtime/src/compiler.rs) and freezing failover queues
    into it before a run (control-plane/src/orchestration_runtime.rs). */
module LlmRouting {
  import opened Wrappers
  import opened ContributionKeys
  import opened Json
  import opened Text

  datatype ProviderInstance = ProviderInstance(
    instanceId: string, providerCode: string, protocol: string, isReady: bool, isRunnable: bool,
    includedInMain: bool, availableModels: set<string>, allowCustomModels: bool)

  /** Known provider instances, the codes of the provider families, and the contributions of plug-ins by key. */
  datatype Context = Context(instances: map<string, ProviderInstance>, families: set<string>,
                             contributions: map<string, Contribution>)

  datatype IssueCode =
    | MissingProviderInstance
    | ProviderInstanceNotFound
    | ProviderInstanceNotReady
    | MissingModel
    | ModelNotAvailable
    | MissingPluginId
    | MissingPluginVersion
    | MissingContributionCode
    | MissingNodeShell
    | MissingSchemaVersion
    | MissingPluginContribution
    | PluginContributionDependencyNotReady

  datatype Issue = Issue(nodeId: string, code: IssueCode)

  datatype Target = Target(instanceId: string, providerCode: string, protocol: string, model: string)

  const NO_TARGET := Target("", "", "", "")

  datatype Routing =
    | FixedModel(target: Target)
    | FailoverQueue(templateId: Option<string>, snapshotId: Option<string>, targets: seq<Target>)

  /** `top` are the four runtime fields the execution engine reads first. */
  datatype LlmRuntime = LlmRuntime(top: Target, routing: Option<Routing>)

  /** A configured string: present, a JSON string, and not blank; trimmed. */
  function Setting(v: Option<Value>): (r: Option<string>)
    ensures r.Some? ==> r.value != "" && TrimmedStart(r.value) && TrimmedEnd(r.value)
  {
    match AsStr(v)
    case None => None
    case Some(s) => if Trim(s) == "" then None else Some(Trim(s))
  }

  function OrElse<T>(a: Option<T>, b: Option<T>): Option<T> {
    if a.Some? then a else b
  }

  predicate Serves(instance: ProviderInstance, model: string) {
    instance.allowCustomModels || instance.availableModels == {} || model in instance.availableModels
  }

  // ----- Fixed model -----

  datatype FixedConfig = FixedConfig(provider: Option<string>, source: Option<string>, model: Option<string>)

  function ReadFixed(provider: Option<Value>): FixedConfig {
    FixedConfig(Setting(GetIn(provider, "provider_code")), Setting(GetIn(provider, "source_instance_id")),
                Setting(GetIn(provider, "model_id")))
  }

  /** The configured instance exists and belongs to the configured provider. */
  predicate Matched(ctx: Context, c: FixedConfig) {
    && c.provider.Some? && c.source.Some? && c.source.value in ctx.instances
    && ctx.instances[c.source.value].providerCode == c.provider.value
  }

  predicate Included(ctx: Context, c: FixedConfig) {
    && Matched(ctx, c)
    && ctx.instances[c.source.value].includedInMain && c.provider.value in ctx.families
  }

  /** What a fixed-model node must name to run. */
  predicate Runnable(ctx: Context, c: FixedConfig) {
    && Included(ctx, c)
    && var instance := ctx.instances[c.source.value];
       instance.isReady && instance.isRunnable && c.model.Some? && Serves(instance, c.model.value)
  }

  /** Which problems must be reported for a fixed-model node. */
  ghost predicate Diagnosis(ctx: Context, c: FixedConfig, code: IssueCode) {
    match code
    case MissingProviderInstance => c.provider.None? || c.source.None?
    case ProviderInstanceNotFound => c.provider.Some? && c.source.Some? && !Included(ctx, c)
    case ProviderInstanceNotReady =>
      && Matched(ctx, c)
      && var instance := ctx.instances[c.source.value];
         !instance.isRunnable || (Included(ctx, c) && !instance.isReady)
    case MissingModel => c.model.None?
    case ModelNotAvailable =>
      Included(ctx, c) && c.model.Some? && !Serves(ctx.instances[c.source.value], c.model.value)
    case _ => false
  }

  /** The fields of a target as an instance serves them. */
  function TargetOf(instance: ProviderInstance, model: string): Target {
    Target(instance.instanceId, instance.providerCode, instance.protocol, model)
  }

  /** A runtime is compiled for every included instance, even if it is not ready or no model is named. */
  function FixedRuntime(ctx: Context, c: FixedConfig): Option<LlmRuntime> {
    if !Included(ctx, c) then None
    else
      var target := TargetOf(ctx.instances[c.source.value], if c.model.Some? then c.model.value else "");
      Some(LlmRuntime(target, Some(FixedModel(target))))
  }

  function ModelIssue(model: Option<string>): seq<IssueCode> {
    if model.None? then [MissingModel] else []
  }

  function NotReadyIf(problem: bool): seq<IssueCode> {
    if problem then [ProviderInstanceNotReady] else []
  }

  function AvailabilityIssue(instance: ProviderInstance, model: Option<string>): seq<IssueCode> {
    if model.None? then [MissingModel] else if !Serves(instance, model.value) then [ModelNotAvailable] else []
  }

  /** The issues of a fixed-model node in the order in which they are reported. */
  function FixedIssues(ctx: Context, c: FixedConfig): seq<IssueCode> {
    if c.provider.None? || c.source.None? then [MissingProviderInstance] + ModelIssue(c.model)
    else if !Matched(ctx, c) then [ProviderInstanceNotFound] + ModelIssue(c.model)
    else
      var instance := ctx.instances[c.source.value];
      if !Included(ctx, c) then NotReadyIf(!instance.isRunnable) + [ProviderInstanceNotFound] + ModelIssue(c.model)
      else NotReadyIf(!instance.isRunnable) + NotReadyIf(!instance.isReady) + AvailabilityIssue(instance, c.model)
  }

  predicate NeitherReadyNorRunnable(ctx: Context, c: FixedConfig) {
    Included(ctx, c) && !ctx.instances[c.source.value].isReady && !ctx.instances[c.source.value].isRunnable
  }

  /** Exactly the problems that are due are reported. */
  lemma FixedIssuesAreDue(ctx: Context, c: FixedConfig)
    ensures forall code :: code in FixedIssues(ctx, c) <==> Diagnosis(ctx, c, code)
  {
    hide Serves;
  }

  /** Each problem is reported once, except that an instance that is neither ready nor runnable is reported twice. A
      problem with the model comes last. */
  lemma FixedIssuesOrder(ctx: Context, c: FixedConfig)
    ensures var issues := FixedIssues(ctx, c);
            && |issues| <= 3
            && (forall i, j | 0 <= i < j < |issues| && issues[i] == issues[j] ::
                  i == 0 && j == 1 && issues[i] == ProviderInstanceNotReady && NeitherReadyNorRunnable(ctx, c))
            && (NeitherReadyNorRunnable(ctx, c) ==>
                  |issues| >= 2 && issues[0] == issues[1] == ProviderInstanceNotReady)
            && forall i | 0 <= i < |issues| - 1 :: issues[i] != MissingModel && issues[i] != ModelNotAvailable
  {
    hide Serves;
  }

  method MissingModelIssue(model: Option<string>) returns (added: seq<IssueCode>)
    ensures added == ModelIssue(model)
  {
    added := if model.None? then [MissingModel] else [];
  }

  method CompileFixedRuntime(provider: Option<Value>, ctx: Context)
    returns (runtime: Option<LlmRuntime>, added: seq<IssueCode>)
    ensures added == FixedIssues(ctx, ReadFixed(provider))
    ensures forall code :: code in added <==> Diagnosis(ctx, ReadFixed(provider), code)
    ensures runtime == FixedRuntime(ctx, ReadFixed(provider))
  {
    hide Setting, Diagnosis;
    var c := ReadFixed(provider);
    FixedIssuesAreDue(ctx, c);
    var model := MissingModelIssue(c.model);
    added := [];
    if c.provider.None? || c.source.None? {
      return None, [MissingProviderInstance] + model;
    }
    if c.source.value !in ctx.instances {
      return None, [ProviderInstanceNotFound] + model;
    }
    var instance := ctx.instances[c.source.value];
    if instance.providerCode != c.provider.value {
      return None, [ProviderInstanceNotFound] + model;
    }
    if !instance.isRunnable {
      added := added + [ProviderInstanceNotReady];
    }
    if !instance.includedInMain || c.provider.value !in ctx.families {
      return None, added + [ProviderInstanceNotFound] + model;
    }
    if !instance.isReady {
      added := added + [ProviderInstanceNotReady];
    }
    if c.model.None? {
      var empty := TargetOf(instance, "");
      return Some(LlmRuntime(empty, Some(FixedModel(empty)))), added + [MissingModel];
    }
    if !instance.allowCustomModels && instance.availableModels != {} && c.model.value !in instance.availableModels {
      added := added + [ModelNotAvailable];
    }
    var target := TargetOf(instance, c.model.value);
    runtime := Some(LlmRuntime(target, Some(FixedModel(target))));
  }

  /** A fixed-model node compiles without issue exactly when what it names can run. */
  lemma NoIssueIffRunnable(ctx: Context, c: FixedConfig)
    ensures (forall code :: !Diagnosis(ctx, c, code)) <==> Runnable(ctx, c)
  {
    if forall code :: !Diagnosis(ctx, c, code) {
      assert !Diagnosis(ctx, c, MissingProviderInstance) && !Diagnosis(ctx, c, ProviderInstanceNotFound);
      assert !Diagnosis(ctx, c, ProviderInstanceNotReady);
      assert !Diagnosis(ctx, c, MissingModel) && !Diagnosis(ctx, c, ModelNotAvailable);
    }
  }

  // ----- Failover queue -----

  /** `providerCode` and `protocol` may override what the instance says; nothing compares them with it. */
  datatype TargetConfig = TargetConfig(source: Option<string>, model: Option<string>,
                                       providerCode: Option<string>, protocol: Option<string>)

  function ReadTarget(target: Value): TargetConfig {
    TargetConfig(Setting(OrElse(Get(target, "provider_instance_id"), Get(target, "source_instance_id"))),
                 Setting(OrElse(Get(target, "upstream_model_id"), Get(target, "model_id"))),
                 AsStr(Get(target, "provider_code")), AsStr(Get(target, "protocol")))
  }

  predicate Resolved(ctx: Context, t: TargetConfig) {
    t.source.Some? && t.model.Some? && t.source.value in ctx.instances
  }

  predicate TargetRunnable(ctx: Context, t: TargetConfig) {
    && Resolved(ctx, t)
    && var instance := ctx.instances[t.source.value];
       instance.isReady && instance.isRunnable && instance.includedInMain && Serves(instance, t.model.value)
  }

  ghost predicate TargetDiagnosis(ctx: Context, t: TargetConfig, code: IssueCode) {
    match code
    case MissingProviderInstance => t.source.None?
    case MissingModel => t.source.Some? && t.model.None?
    case ProviderInstanceNotFound => t.source.Some? && t.model.Some? && !Resolved(ctx, t)
    case ProviderInstanceNotReady =>
      && Resolved(ctx, t)
      && var instance := ctx.instances[t.source.value];
         !(instance.isReady && instance.isRunnable && instance.includedInMain)
    case ModelNotAvailable => Resolved(ctx, t) && !Serves(ctx.instances[t.source.value], t.model.value)
    case _ => false
  }

  /** The issues of one target in order. */
  function TargetIssues(ctx: Context, t: TargetConfig): seq<IssueCode> {
    if t.source.None? then [MissingProviderInstance]
    else if t.model.None? then [MissingModel]
    else if t.source.value !in ctx.instances then [ProviderInstanceNotFound]
    else
      var instance := ctx.instances[t.source.value];
      var available := instance.isReady && instance.isRunnable && instance.includedInMain;
      (if available then [] else [ProviderInstanceNotReady]) +
      if Serves(instance, t.model.value) then [] else [ModelNotAvailable]
  }

  lemma TargetIssuesMeaning(ctx: Context, t: TargetConfig)
    ensures forall code :: code in TargetIssues(ctx, t) <==> TargetDiagnosis(ctx, t, code)
    ensures TargetIssues(ctx, t) == [] <==> TargetRunnable(ctx, t)
    ensures forall i, j | 0 <= i < j < |TargetIssues(ctx, t)| :: TargetIssues(ctx, t)[i] != TargetIssues(ctx, t)[j]
  {
    hide Serves;
  }

  function Default(o: Option<string>, default: string): string {
    if o.Some? then o.value else default
  }

  function QueueTarget(ctx: Context, t: TargetConfig): Target
    requires Resolved(ctx, t)
  {
    var instance := ctx.instances[t.source.value];
    Target(instance.instanceId, Default(t.providerCode, instance.providerCode),
           Default(t.protocol, instance.protocol), t.model.value)
  }

  method CompileFailoverTarget(target: Value, ctx: Context) returns (compiled: Option<Target>, added: seq<IssueCode>)
    ensures var t := ReadTarget(target);
            && added == TargetIssues(ctx, t)
            && (forall code :: code in added <==> TargetDiagnosis(ctx, t, code))
            && (added == [] <==> TargetRunnable(ctx, t))
            && compiled == if Resolved(ctx, t) then Some(QueueTarget(ctx, t)) else None
  {
    hide Setting, ReadTarget, TargetDiagnosis, TargetRunnable;
    var t := ReadTarget(target);
    TargetIssuesMeaning(ctx, t);
    if t.source.None? {
      return None, [MissingProviderInstance];
    }
    if t.model.None? {
      return None, [MissingModel];
    }
    if t.source.value !in ctx.instances {
      return None, [ProviderInstanceNotFound];
    }
    var instance := ctx.instances[t.source.value];
    added := [];
    if !instance.isReady || !instance.isRunnable || !instance.includedInMain {
      added := added + [ProviderInstanceNotReady];
    }
    if !instance.allowCustomModels && instance.availableModels != {} && t.model.value !in instance.availableModels {
      added := added + [ModelNotAvailable];
    }
    compiled := Some(Target(instance.instanceId, Default(t.providerCode, instance.providerCode),
                            Default(t.protocol, instance.protocol), t.model.value));
  }

  /** The targets that resolve, in configured order. */
  function ResolvedTargets(ctx: Context, raw: seq<Value>): seq<Target> {
    if raw == [] then []
    else
      var t := ReadTarget(raw[|raw| - 1]);
      ResolvedTargets(ctx, raw[..|raw| - 1]) + if Resolved(ctx, t) then [QueueTarget(ctx, t)] else []
  }

  function RawTargets(provider: Option<Value>): seq<Value> {
    var targets := AsArray(GetIn(provider, "queue_targets"));
    if targets.Some? then targets.value else []
  }

  function FirstOr(targets: seq<Target>): Target {
    if targets == [] then NO_TARGET else targets[0]
  }

  predicate QueueComplete(ctx: Context, provider: Option<Value>) {
    && Setting(GetIn(provider, "queue_template_id")).Some?
    && forall raw | raw in RawTargets(provider) :: TargetRunnable(ctx, ReadTarget(raw))
  }

  function TargetsIssues(ctx: Context, raw: seq<Value>): seq<IssueCode> {
    if raw == [] then []
    else TargetsIssues(ctx, raw[..|raw| - 1]) + TargetIssues(ctx, ReadTarget(raw[|raw| - 1]))
  }

  /** The issues of a queue in order: its template first, then target by target. */
  function QueueIssues(ctx: Context, provider: Option<Value>): seq<IssueCode> {
    (if Setting(GetIn(provider, "queue_template_id")).None? then [MissingProviderInstance] else []) +
    TargetsIssues(ctx, RawTargets(provider))
  }

  ghost predicate QueueDiagnosis(ctx: Context, provider: Option<Value>, code: IssueCode) {
    || (code == MissingProviderInstance && Setting(GetIn(provider, "queue_template_id")).None?)
    || exists raw <- RawTargets(provider) :: TargetDiagnosis(ctx, ReadTarget(raw), code)
  }

  /** The targets that resolve, in their order, the first one also as the top-level fields. */
  function QueueRuntime(ctx: Context, provider: Option<Value>): LlmRuntime {
    var targets := ResolvedTargets(ctx, RawTargets(provider));
    LlmRuntime(FirstOr(targets), Some(FailoverQueue(
      Setting(GetIn(provider, "queue_template_id")), Setting(GetIn(provider, "queue_snapshot_id")), targets)))
  }

  method CompileFailoverRuntime(provider: Option<Value>, ctx: Context)
    returns (runtime: Option<LlmRuntime>, added: seq<IssueCode>)
    ensures added == QueueIssues(ctx, provider)
    ensures forall code :: code in added <==> QueueDiagnosis(ctx, provider, code)
    ensures runtime == Some(QueueRuntime(ctx, provider))
  {
    hide Setting, QueueDiagnosis, TargetsIssues, ResolvedTargets;
    var templateId := Setting(GetIn(provider, "queue_template_id"));
    var snapshotId := Setting(GetIn(provider, "queue_snapshot_id"));
    added := if templateId.None? then [MissingProviderInstance] else [];
    var targets, more := CompileTargets(RawTargets(provider), ctx);
    added := added + more;
    QueueIssuesAreDue(ctx, provider);
    runtime := Some(LlmRuntime(FirstOr(targets), Some(FailoverQueue(templateId, snapshotId, targets))));
  }

  /** The loop over the configured targets. */
  method CompileTargets(raw: seq<Value>, ctx: Context) returns (targets: seq<Target>, added: seq<IssueCode>)
    ensures targets == ResolvedTargets(ctx, raw) && added == TargetsIssues(ctx, raw)
  {
    hide ReadTarget, TargetDiagnosis, TargetIssues, TargetRunnable;
    targets, added := [], [];
    for i := 0 to |raw|
      invariant targets == ResolvedTargets(ctx, raw[..i])
      invariant added == TargetsIssues(ctx, raw[..i])
    {
      assert raw[..i + 1][..i] == raw[..i];
      var target, more := CompileFailoverTarget(raw[i], ctx);
      added := added + more;
      if target.Some? {
        targets := targets + [target.value];
      }
    }
    assert raw[..|raw|] == raw;
  }

  lemma {:induction false} TargetsIssuesAreDue(ctx: Context, raw: seq<Value>)
    ensures forall code :: code in TargetsIssues(ctx, raw) <==>
                           exists target <- raw :: TargetDiagnosis(ctx, ReadTarget(target), code)
  {
    hide ReadTarget, TargetDiagnosis, TargetIssues;
    if raw != [] {
      var front, last := raw[..|raw| - 1], raw[|raw| - 1];
      TargetsIssuesAreDue(ctx, front);
      TargetIssuesMeaning(ctx, ReadTarget(last));
      assert raw == front + [last];
    }
  }

  lemma QueueIssuesAreDue(ctx: Context, provider: Option<Value>)
    ensures forall code :: code in QueueIssues(ctx, provider) <==> QueueDiagnosis(ctx, provider, code)
  {
    hide Setting, ReadTarget, TargetDiagnosis, TargetsIssues;
    TargetsIssuesAreDue(ctx, RawTargets(provider));
  }

  // ----- One node -----

  predicate WantsQueue(config: Value) {
    AsStr(GetIn(Get(config, "model_provider"), "routing_mode")) == Some("failover_queue")
  }

  /** The top-level fields repeat the first target of a queue. */
  predicate Mirrored(runtime: LlmRuntime) {
    && runtime.routing.Some? && runtime.routing.value.FailoverQueue?
    && runtime.routing.value.targets != []
    && runtime.top == runtime.routing.value.targets[0]
  }

  /** What an LLM node without compile issues looks like. */
  ghost predicate Compiled(ctx: Context, config: Value, runtime: Option<LlmRuntime>) {
    var provider := Get(config, "model_provider");
    && runtime.Some? && runtime.value.routing.Some?
    && if WantsQueue(config) then
         && runtime.value.routing.value.FailoverQueue?
         && runtime.value.routing.value.templateId.Some?
         && (runtime.value.routing.value.targets == [] || Mirrored(runtime.value))
       else
         var c := ReadFixed(provider);
         && Runnable(ctx, c)
         && runtime.value.top == TargetOf(ctx.instances[c.source.value], c.model.value)
         && runtime.value.routing.value == FixedModel(runtime.value.top)
  }

  /** Which problems must be reported for an LLM node. */
  ghost predicate LlmDiagnosis(ctx: Context, config: Value, code: IssueCode) {
    if WantsQueue(config) then QueueDiagnosis(ctx, Get(config, "model_provider"), code)
    else Diagnosis(ctx, ReadFixed(Get(config, "model_provider")), code)
  }

  function LlmIssues(ctx: Context, config: Value): seq<IssueCode> {
    if WantsQueue(config) then QueueIssues(ctx, Get(config, "model_provider"))
    else FixedIssues(ctx, ReadFixed(Get(config, "model_provider")))
  }

  function LlmRuntimeOf(ctx: Context, config: Value): Option<LlmRuntime> {
    if WantsQueue(config) then Some(QueueRuntime(ctx, Get(config, "model_provider")))
    else FixedRuntime(ctx, ReadFixed(Get(config, "model_provider")))
  }

  predicate LlmClean(ctx: Context, config: Value) {
    if WantsQueue(config) then QueueComplete(ctx, Get(config, "model_provider"))
    else Runnable(ctx, ReadFixed(Get(config, "model_provider")))
  }

  method CompileLlmRuntime(config: Value, ctx: Context) returns (runtime: Option<LlmRuntime>, added: seq<IssueCode>)
    ensures added == LlmIssues(ctx, config)
    ensures forall code :: code in added <==> LlmDiagnosis(ctx, config, code)
    ensures runtime == LlmRuntimeOf(ctx, config)
  {
    hide Setting, QueueDiagnosis, Diagnosis, FixedIssues, QueueIssues;
    var provider := Get(config, "model_provider");
    if AsStr(GetIn(provider, "routing_mode")) == Some("failover_queue") {
      runtime, added := CompileFailoverRuntime(provider, ctx);
    } else {
      runtime, added := CompileFixedRuntime(provider, ctx);
    }
  }

  lemma TargetCleanIff(ctx: Context, t: TargetConfig)
    ensures (forall code :: !TargetDiagnosis(ctx, t, code)) <==> TargetRunnable(ctx, t)
  {
    if forall code :: !TargetDiagnosis(ctx, t, code) {
      assert !TargetDiagnosis(ctx, t, MissingProviderInstance) && !TargetDiagnosis(ctx, t, MissingModel);
      assert !TargetDiagnosis(ctx, t, ProviderInstanceNotFound) && !TargetDiagnosis(ctx, t, ProviderInstanceNotReady);
      assert !TargetDiagnosis(ctx, t, ModelNotAvailable);
    }
  }

  lemma QueueCleanIff(ctx: Context, provider: Option<Value>)
    ensures (forall code :: !QueueDiagnosis(ctx, provider, code)) <==> QueueComplete(ctx, provider)
  {
    hide Setting, ReadTarget, TargetDiagnosis, TargetRunnable;
    forall raw | raw in RawTargets(provider)
      ensures (forall code :: !TargetDiagnosis(ctx, ReadTarget(raw), code)) <==> TargetRunnable(ctx, ReadTarget(raw))
    {
      TargetCleanIff(ctx, ReadTarget(raw));
    }
    if forall code :: !QueueDiagnosis(ctx, provider, code) {
      assert !QueueDiagnosis(ctx, provider, MissingProviderInstance);
      forall raw, code | raw in RawTargets(provider)
        ensures !TargetDiagnosis(ctx, ReadTarget(raw), code)
      {
        assert !QueueDiagnosis(ctx, provider, code);
      }
    }
  }

  /** An LLM node compiles without issue exactly when the instance of its fixed model can run it, or its queue names
      a template and all configured targets can run. Its runtime is then complete. */
  lemma NoIssueIffClean(ctx: Context, config: Value)
    ensures (forall code :: !LlmDiagnosis(ctx, config, code)) <==> LlmClean(ctx, config)
    ensures LlmClean(ctx, config) ==> Compiled(ctx, config, LlmRuntimeOf(ctx, config))
  {
    hide Setting, QueueDiagnosis, Diagnosis, WantsQueue;
    var provider := Get(config, "model_provider");
    if WantsQueue(config) {
      QueueCleanIff(ctx, provider);
      assert forall code :: LlmDiagnosis(ctx, config, code) == QueueDiagnosis(ctx, provider, code);
    } else {
      NoIssueIffRunnable(ctx, ReadFixed(provider));
      assert forall code :: LlmDiagnosis(ctx, config, code) == Diagnosis(ctx, ReadFixed(provider), code);
    }
  }

  // ----- Freezing -----

  datatype QueueItem = QueueItem(target: Target, enabled: bool)

  /** Answers of the repository. `uuids` is what parsing an id yields; `snapshots` gives, by node, the id of a
      snapshot the repository would store now; an absent entry stands for a failing call. */
  datatype Repository = Repository(uuids: map<string, string>, statuses: map<string, string>,
                                   items: map<string, seq<QueueItem>>, snapshots: map<string, string>)

  function EnabledTargets(items: seq<QueueItem>): seq<Target> {
    if items == [] then []
    else EnabledTargets(items[..|items| - 1]) +
         if items[|items| - 1].enabled then [items[|items| - 1].target] else []
  }

  predicate NeedsFreezing(runtime: LlmRuntime) {
    runtime.routing.Some? && runtime.routing.value.FailoverQueue? && runtime.routing.value.targets == []
  }

  /** The queue of this node is found and active, and a snapshot of it is stored. */
  predicate SnapshotTaken(repo: Repository, nodeId: string, runtime: LlmRuntime)
    requires NeedsFreezing(runtime)
  {
    var templateId := runtime.routing.value.templateId;
    && templateId.Some? && templateId.value in repo.uuids
    && var id := repo.uuids[templateId.value];
       && id in repo.statuses && repo.statuses[id] == "active"
       && id in repo.items && nodeId in repo.snapshots
  }

  function QueueItems(repo: Repository, nodeId: string, runtime: LlmRuntime): seq<QueueItem>
    requires NeedsFreezing(runtime) && SnapshotTaken(repo, nodeId, runtime)
  {
    repo.items[repo.uuids[runtime.routing.value.templateId.value]]
  }

  /** The queue of this node can be turned into targets. */
  predicate Freezable(repo: Repository, nodeId: string, runtime: LlmRuntime)
    requires NeedsFreezing(runtime)
  {
    && SnapshotTaken(repo, nodeId, runtime)
    && exists item :: item in QueueItems(repo, nodeId, runtime) && item.enabled
  }

  /** What a failed freeze leaves: the snapshot is recorded if it was stored. */
  function FailedRuntime(repo: Repository, nodeId: string, before: LlmRuntime): LlmRuntime
    requires NeedsFreezing(before)
  {
    if SnapshotTaken(repo, nodeId, before)
    then before.(routing := Some(before.routing.value.(snapshotId := Some(repo.snapshots[nodeId]))))
    else before
  }

  /** Freezing keeps a node that has no open queue and otherwise fills in the enabled targets. */
  ghost predicate FrozenFrom(repo: Repository, nodeId: string, before: LlmRuntime, after: LlmRuntime) {
    if !NeedsFreezing(before) then after == before
    else
      && Freezable(repo, nodeId, before)
      && Mirrored(after)
      && after.routing.value == FailoverQueue(before.routing.value.templateId, Some(repo.snapshots[nodeId]),
                                              EnabledTargets(QueueItems(repo, nodeId, before)))
  }

  lemma {:induction false} SomeEnabled(items: seq<QueueItem>)
    ensures EnabledTargets(items) != [] <==> exists item :: item in items && item.enabled
  {
    if items != [] {
      var front, last := items[..|items| - 1], items[|items| - 1];
      SomeEnabled(front);
      assert items == front + [last];
      assert forall item :: item in items <==> item in front || item == last;
    }
  }

  /** When it fails, the node keeps no target, so that a later attempt freezes it again. */
  method FreezeRuntime(repo: Repository, nodeId: string, before: LlmRuntime) returns (after: LlmRuntime, ok: bool)
    ensures ok ==> FrozenFrom(repo, nodeId, before, after)
    ensures ok <==> !NeedsFreezing(before) || Freezable(repo, nodeId, before)
    ensures !ok ==> NeedsFreezing(after) && after == FailedRuntime(repo, nodeId, before)
  {
    after := before;
    if !NeedsFreezing(before) {
      return before, true;
    }
    var routing := before.routing.value;
    if routing.templateId.None? || routing.templateId.value !in repo.uuids {
      return before, false;
    }
    var id := repo.uuids[routing.templateId.value];
    if id !in repo.statuses || repo.statuses[id] != "active" || id !in repo.items || nodeId !in repo.snapshots {
      return before, false;
    }
    SomeEnabled(repo.items[id]);
    var targets := EnabledTargets(repo.items[id]);
    after := after.(routing := Some(routing.(snapshotId := Some(repo.snapshots[nodeId]), targets := targets)));
    if targets == [] {
      return after, false;
    }
    after := after.(top := targets[0]);
    ok := true;
  }

  // ----- What a queue's targets are good for -----

  /** The instance that a target names is ready, runnable, part of the main group and serves the target's model. */
  predicate CanRun(ctx: Context, target: Target) {
    && target.instanceId in ctx.instances
    && var instance := ctx.instances[target.instanceId];
       instance.isReady && instance.isRunnable && instance.includedInMain && Serves(instance, target.model)
  }

  /** Instances are found under their own ids. */
  predicate WellKeyed(ctx: Context) {
    forall id <- ctx.instances :: ctx.instances[id].instanceId == id
  }

  /** In a clean queue no configured target is lost, and each of them can run. */
  lemma {:induction false} CleanTargets(ctx: Context, raw: seq<Value>)
    requires forall target <- raw :: TargetRunnable(ctx, ReadTarget(target))
    ensures |ResolvedTargets(ctx, raw)| == |raw|
    ensures forall i | 0 <= i < |raw| ::
              && TargetRunnable(ctx, ReadTarget(raw[i]))
              && ResolvedTargets(ctx, raw)[i] == QueueTarget(ctx, ReadTarget(raw[i]))
    ensures WellKeyed(ctx) ==> forall target <- ResolvedTargets(ctx, raw) :: CanRun(ctx, target)
  {
    hide ReadTarget;
    if raw != [] {
      var front, last := raw[..|raw| - 1], raw[|raw| - 1];
      assert raw == front + [last];
      CleanTargets(ctx, front);
      assert TargetRunnable(ctx, ReadTarget(last));
    }
  }

  /** A compiled target names the provider of its instance exactly when it has no override or one that says the same.
      Nothing else depends on the override, so a wrong one passes. */
  lemma TargetNamesProviderIff(ctx: Context, t: TargetConfig)
    requires Resolved(ctx, t)
    ensures QueueTarget(ctx, t).providerCode == ctx.instances[t.source.value].providerCode <==>
            t.providerCode.None? || t.providerCode.value == ctx.instances[t.source.value].providerCode
    ensures forall code :: TargetIssues(ctx, t.(providerCode := code)) == TargetIssues(ctx, t)
    ensures exists code :: QueueTarget(ctx, t.(providerCode := Some(code))).providerCode !=
                           ctx.instances[t.source.value].providerCode
  {
    var provider := ctx.instances[t.source.value].providerCode;
    assert provider + "x" != provider by { assert |provider + "x"| != |provider|; }
    assert QueueTarget(ctx, t.(providerCode := Some(provider + "x"))).providerCode == provider + "x";
  }

  lemma {:induction false} EnabledElements(items: seq<QueueItem>)
    ensures forall target :: target in EnabledTargets(items) <==>
                             exists item <- items :: item.enabled && item.target == target
  {
    if items != [] {
      var front, last := items[..|items| - 1], items[|items| - 1];
      EnabledElements(front);
      assert items == front + [last];
      forall target
        ensures target in EnabledTargets(items) <==> exists item <- items :: item.enabled && item.target == target
      {
        assert target in EnabledTargets(items) <==>
               target in EnabledTargets(front) || (last.enabled && last.target == target);
      }
    }
  }

  /** All targets that freezing fills in can run exactly when all enabled items of the queue can. Freezing itself does
      not look at the instances: without any, it succeeds all the same and no target can run. */
  lemma FrozenTargetsRunIff(ctx: Context, repo: Repository, nodeId: string, before: LlmRuntime, after: LlmRuntime)
    requires NeedsFreezing(before) && FrozenFrom(repo, nodeId, before, after)
    ensures (forall target <- after.routing.value.targets :: CanRun(ctx, target)) <==>
            (forall item <- QueueItems(repo, nodeId, before) :: item.enabled ==> CanRun(ctx, item.target))
    ensures ctx.instances == map[] ==> exists target <- after.routing.value.targets :: !CanRun(ctx, target)
  {
    EnabledElements(QueueItems(repo, nodeId, before));
    hide Freezable, QueueItems, CanRun;
    assert after.routing.value.targets[0] in after.routing.value.targets;
    if ctx.instances == map[] { NoInstanceNoRun(ctx, after.routing.value.targets[0]); }
  }

  lemma NoInstanceNoRun(ctx: Context, target: Target)
    requires ctx.instances == map[]
    ensures !CanRun(ctx, target)
  {
  }
}
