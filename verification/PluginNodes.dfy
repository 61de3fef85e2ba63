/** Compiling plug-in nodes (`compile_plugin_runtime` in orchestration-runtime/src/compiler.rs). */
module PluginNodes {
  import opened Wrappers
  import opened ContributionKeys
  import opened Json
  import opened LlmRouting

  datatype PluginRuntime = PluginRuntime(installationId: string, name: ContributionName)

  /** The members of a node that name a contribution, in the order in which they are read. */
  datatype PluginConfig = PluginConfig(pluginId: Option<string>, pluginVersion: Option<string>, code: Option<string>,
                                       shell: Option<string>, schemaVersion: Option<string>)

  function ReadPlugin(node: Value): PluginConfig {
    PluginConfig(Setting(Get(node, "plugin_id")), Setting(Get(node, "plugin_version")),
                 Setting(Get(node, "contribution_code")), Setting(Get(node, "node_shell")),
                 Setting(Get(node, "schema_version")))
  }

  function Named(c: PluginConfig): Option<ContributionName> {
    if c.pluginId.Some? && c.pluginVersion.Some? && c.code.Some? && c.shell.Some? && c.schemaVersion.Some?
    then Some(ContributionName(c.pluginId.value, c.pluginVersion.value, c.code.value, c.shell.value,
                               c.schemaVersion.value))
    else None
  }

  function Found(ctx: Context, c: PluginConfig): Option<Contribution> {
    match Named(c)
    case None => None
    case Some(name) =>
      if LookupKey(name) in ctx.contributions then Some(ctx.contributions[LookupKey(name)]) else None
  }

  /** The contribution is there and what it depends on is ready. */
  predicate PluginReady(ctx: Context, c: PluginConfig) {
    Found(ctx, c).Some? && Found(ctx, c).value.dependencyStatus == "ready"
  }

  function PluginRuntimeOf(ctx: Context, c: PluginConfig): Option<PluginRuntime> {
    match Found(ctx, c)
    case None => None
    case Some(found) => Some(PluginRuntime(found.installationId, found.name))
  }

  /** The one problem of a plug-in node: the first member that is missing, or that there is no such contribution, or
      that it is not ready. */
  predicate PluginDiagnosis(ctx: Context, c: PluginConfig, code: IssueCode) {
    match code
    case MissingPluginId => c.pluginId.None?
    case MissingPluginVersion => c.pluginId.Some? && c.pluginVersion.None?
    case MissingContributionCode => c.pluginId.Some? && c.pluginVersion.Some? && c.code.None?
    case MissingNodeShell => c.pluginId.Some? && c.pluginVersion.Some? && c.code.Some? && c.shell.None?
    case MissingSchemaVersion =>
      c.pluginId.Some? && c.pluginVersion.Some? && c.code.Some? && c.shell.Some? && c.schemaVersion.None?
    case MissingPluginContribution => Named(c).Some? && Found(ctx, c).None?
    case PluginContributionDependencyNotReady => Found(ctx, c).Some? && !PluginReady(ctx, c)
    case _ => false
  }

  function PluginIssues(ctx: Context, c: PluginConfig): seq<IssueCode> {
    if c.pluginId.None? then [MissingPluginId]
    else if c.pluginVersion.None? then [MissingPluginVersion]
    else if c.code.None? then [MissingContributionCode]
    else if c.shell.None? then [MissingNodeShell]
    else if c.schemaVersion.None? then [MissingSchemaVersion]
    else if Found(ctx, c).None? then [MissingPluginContribution]
    else if PluginReady(ctx, c) then []
    else [PluginContributionDependencyNotReady]
  }

  /** There is one issue at most, and it is the one that is due. */
  lemma PluginIssuesAreDue(ctx: Context, c: PluginConfig)
    ensures |PluginIssues(ctx, c)| <= 1
    ensures forall code :: code in PluginIssues(ctx, c) <==> PluginDiagnosis(ctx, c, code)
  {
    hide LookupKey;
  }

  method RequiredPluginString(node: Value, field: string, code: IssueCode)
    returns (value: Option<string>, added: seq<IssueCode>)
    ensures value == Setting(Get(node, field))
    ensures added == if value.None? then [code] else []
  {
    value := Setting(Get(node, field));
    added := [];
    if value.None? { added := [code]; }
  }

  /** Reads the five members in order and looks the contribution up. Stops at the first problem. */
  method CompilePluginRuntime(node: Value, ctx: Context)
    returns (runtime: Option<PluginRuntime>, added: seq<IssueCode>)
    ensures runtime == PluginRuntimeOf(ctx, ReadPlugin(node))
    ensures added == PluginIssues(ctx, ReadPlugin(node))
    ensures forall code :: code in added <==> PluginDiagnosis(ctx, ReadPlugin(node), code)
  {
    hide Setting, LookupKey, PluginDiagnosis;
    PluginIssuesAreDue(ctx, ReadPlugin(node));
    var pluginId, version, contribution, shell, schema;
    pluginId, added := RequiredPluginString(node, "plugin_id", MissingPluginId);
    if pluginId.None? { return None, added; }
    version, added := RequiredPluginString(node, "plugin_version", MissingPluginVersion);
    if version.None? { return None, added; }
    contribution, added := RequiredPluginString(node, "contribution_code", MissingContributionCode);
    if contribution.None? { return None, added; }
    shell, added := RequiredPluginString(node, "node_shell", MissingNodeShell);
    if shell.None? { return None, added; }
    schema, added := RequiredPluginString(node, "schema_version", MissingSchemaVersion);
    if schema.None? { return None, added; }
    var name := ContributionName(pluginId.value, version.value, contribution.value, shell.value, schema.value);
    if LookupKey(name) !in ctx.contributions {
      return None, [MissingPluginContribution];
    }
    var found := ctx.contributions[LookupKey(name)];
    if found.dependencyStatus != "ready" {
      added := added + [PluginContributionDependencyNotReady];
    }
    runtime := Some(PluginRuntime(found.installationId, found.name));
  }

  /** No problem is due exactly when the contribution is there and ready. */
  lemma NoPluginIssueIffReady(ctx: Context, c: PluginConfig)
    ensures (forall code :: !PluginDiagnosis(ctx, c, code)) <==> PluginReady(ctx, c)
  {
    hide LookupKey;
    PluginIssuesAreDue(ctx, c);
    var issues := PluginIssues(ctx, c);
    if issues != [] { assert issues[0] in issues; }
  }

  /** Main result: in a context that keeps contributions under their own keys, a plug-in node gets the runtime of the
      contribution which it names, whatever contributions there are, exactly when the parts of this name can be told
      apart in its key. */
  lemma RunsWhatItNamesIff(node: Value)
    requires Named(ReadPlugin(node)).Some?
    ensures (forall ctx: Context | Keyed(ctx.contributions) :: RunsWhatItNames(ctx, ReadPlugin(node))) <==>
            Unambiguous(Parts(Named(ReadPlugin(node)).value))
  {
    hide ReadPlugin, LookupKey, Unambiguous, Parts;
    NamesNotEmpty(node);
    var c := ReadPlugin(node);
    var n := Named(c).value;
    AlwaysFindsNamedIff(n);
    if forall ctx: Context | Keyed(ctx.contributions) :: RunsWhatItNames(ctx, c) {
      forall contributions: map<string, Contribution> | Keyed(contributions) && LookupKey(n) in contributions
        ensures contributions[LookupKey(n)].name == n
      {
        assert RunsWhatItNames(Context(map[], {}, contributions), c);
      }
    }
  }

  predicate RunsWhatItNames(ctx: Context, c: PluginConfig)
    requires Named(c).Some?
  {
    PluginRuntimeOf(ctx, c).Some? ==> PluginRuntimeOf(ctx, c).value.name == Named(c).value
  }

  lemma NamesNotEmpty(node: Value)
    requires Named(ReadPlugin(node)).Some?
    ensures NoneEmpty(Parts(Named(ReadPlugin(node)).value))
  {
    hide Setting;
  }
}
