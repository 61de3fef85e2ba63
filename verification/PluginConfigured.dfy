/** What a plug-in node compiles to, told from its members. */
module PluginConfigured {
  import opened Wrappers
  import opened ContributionKeys
  import opened Json
  import opened LlmConfigured
  import opened LlmRouting
  import opened PluginNodes

  /** The five members of the node have these texts. */
  predicate Names(node: Value, n: ContributionName) {
    && Says(Some(node), "plugin_id", n.pluginId)
    && Says(Some(node), "plugin_version", n.pluginVersion)
    && Says(Some(node), "contribution_code", n.code)
    && Says(Some(node), "node_shell", n.shell)
    && Says(Some(node), "schema_version", n.schemaVersion)
  }

  function Key(n: ContributionName): string {
    n.pluginId + "::" + n.pluginVersion + "::" + n.code + "::" + n.shell + "::" + n.schemaVersion
  }

  lemma KeyMeaning(n: ContributionName)
    ensures LookupKey(n) == Key(n)
  {
    var last := [n.schemaVersion];
    assert Join([n.shell] + last) == n.shell + "::" + n.schemaVersion;
    assert Join([n.code] + ([n.shell] + last)) == n.code + "::" + Join([n.shell] + last);
    assert Join([n.pluginVersion] + ([n.code] + ([n.shell] + last)))
        == n.pluginVersion + "::" + Join([n.code] + ([n.shell] + last));
    assert Parts(n) == [n.pluginId] + ([n.pluginVersion] + ([n.code] + ([n.shell] + last)));
  }

  lemma NamedIff(node: Value, n: ContributionName)
    ensures Named(ReadPlugin(node)) == Some(n) <==> Names(node, n)
  {
    hide Setting, Says;
    SettingIff(Some(node), "plugin_id", n.pluginId);
    SettingIff(Some(node), "plugin_version", n.pluginVersion);
    SettingIff(Some(node), "contribution_code", n.code);
    SettingIff(Some(node), "node_shell", n.shell);
    SettingIff(Some(node), "schema_version", n.schemaVersion);
  }

  /** Main result: a plug-in node gets a runtime exactly if its members name a contribution that is there; it has the
      installation and the name of that one. */
  lemma PluginRuntimeFields(ctx: Context, node: Value, n: ContributionName)
    ensures PluginRuntimeOf(ctx, ReadPlugin(node)).Some? <==>
            exists name :: Names(node, name) && Key(name) in ctx.contributions
    ensures Names(node, n) && Key(n) in ctx.contributions ==>
              var found := ctx.contributions[Key(n)];
              PluginRuntimeOf(ctx, ReadPlugin(node)) == Some(PluginRuntime(found.installationId, found.name))
  {
    hide ReadPlugin, Named, Names, Key, LookupKey;
    var c := ReadPlugin(node);
    NamedIff(node, n);
    KeyMeaning(n);
    if Named(c).Some? {
      NamedIff(node, Named(c).value);
      KeyMeaning(Named(c).value);
    }
    if name :| Names(node, name) && Key(name) in ctx.contributions {
      NamedIff(node, name);
      KeyMeaning(name);
    }
  }

  lemma UnsetMembers(node: Value)
    ensures var c := ReadPlugin(node);
            && (c.pluginId.None? <==> Silent(Some(node), "plugin_id"))
            && (c.pluginVersion.None? <==> Silent(Some(node), "plugin_version"))
            && (c.code.None? <==> Silent(Some(node), "contribution_code"))
            && (c.shell.None? <==> Silent(Some(node), "node_shell"))
            && (c.schemaVersion.None? <==> Silent(Some(node), "schema_version"))
  {
    hide Setting, Says, Silent;
    UnsetIff(Some(node), "plugin_id");
    UnsetIff(Some(node), "plugin_version");
    UnsetIff(Some(node), "contribution_code");
    UnsetIff(Some(node), "node_shell");
    UnsetIff(Some(node), "schema_version");
  }

  /** The problem of a plug-in node: the first member that says nothing, or an unknown contribution, or one that is not
      ready. */
  ghost predicate PluginProblem(ctx: Context, node: Value, code: IssueCode) {
    var v := Some(node);
    match code
    case MissingPluginId => Silent(v, "plugin_id")
    case MissingPluginVersion => !Silent(v, "plugin_id") && Silent(v, "plugin_version")
    case MissingContributionCode =>
      !Silent(v, "plugin_id") && !Silent(v, "plugin_version") && Silent(v, "contribution_code")
    case MissingNodeShell =>
      && !Silent(v, "plugin_id") && !Silent(v, "plugin_version") && !Silent(v, "contribution_code")
      && Silent(v, "node_shell")
    case MissingSchemaVersion =>
      && !Silent(v, "plugin_id") && !Silent(v, "plugin_version") && !Silent(v, "contribution_code")
      && !Silent(v, "node_shell") && Silent(v, "schema_version")
    case MissingPluginContribution => exists n :: Names(node, n) && Key(n) !in ctx.contributions
    case PluginContributionDependencyNotReady =>
      exists n :: Names(node, n) && Key(n) in ctx.contributions &&
                  ctx.contributions[Key(n)].dependencyStatus != "ready"
    case _ => false
  }

  /** Main result: exactly this problem is reported, once. */
  lemma PluginProblems(ctx: Context, node: Value)
    ensures |PluginIssues(ctx, ReadPlugin(node))| <= 1
    ensures forall code :: code in PluginIssues(ctx, ReadPlugin(node)) <==> PluginProblem(ctx, node, code)
  {
    hide ReadPlugin, Names, Key, LookupKey, Silent;
    var c := ReadPlugin(node);
    UnsetMembers(node);
    forall n
      ensures Named(c) == Some(n) <==> Names(node, n)
    {
      NamedIff(node, n);
    }
    if Named(c).Some? { KeyMeaning(Named(c).value); }
  }
}
