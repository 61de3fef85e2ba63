/** Node bindings: which variable paths the compiler records for a binding (`extract_selector_paths`) and what the
    runtime makes of the binding (`resolve_binding`). */
module Bindings {
  import opened Wrappers
  import opened Json
  import opened Template

  function Member(v: Value, key: string): Value {
    var member := Get(v, key);
    if member.Some? then member.value else Null
  }

  /** A path written as an array of strings; `None` stands for an error. */
  function SegmentsOf(items: seq<Value>): Option<Path> {
    if items == [] then Some([])
    else
      match (SegmentsOf(items[..|items| - 1]), items[|items| - 1])
      case (Some(path), String(s)) => Some(path + [s])
      case _ => None
  }

  function SelectorPath(v: Value): Option<Path> {
    if v.Array? then SegmentsOf(v.items) else None
  }

  function OptionalPath(v: Value, key: string): Option<seq<Path>> {
    if Member(v, key).Array? then
      match SelectorPath(Member(v, key))
      case Some(path) => Some([path])
      case None => None
    else Some([])
  }

  function Both(a: Option<seq<Path>>, b: Option<seq<Path>>): Option<seq<Path>> {
    if a.Some? && b.Some? then Some(a.value + b.value) else None
  }

  function ContentOf(entry: Value): Option<string> {
    AsStr(GetIn(Get(entry, "content"), "value"))
  }

  /** The paths one entry of a list-valued binding contributes. */
  function EntryPaths(kind: string, entry: Value): Option<seq<Path>> {
    match kind
    case "selector_list" => OnePath(SelectorPath(entry))
    case "named_bindings" => OnePath(SelectorPath(Member(entry, "selector")))
    case "prompt_messages" =>
      if ContentOf(entry).Some? then Some(Selectors(CutAtTokens(ContentOf(entry).value))) else None
    case "condition_group" => Both(OnePath(SelectorPath(Member(entry, "left"))), OptionalPath(entry, "right"))
    case "state_write" => OptionalPath(entry, "source")
    case _ => None
  }

  function OnePath(path: Option<Path>): Option<seq<Path>> {
    if path.Some? then Some([path.value]) else None
  }

  function EntriesPaths(kind: string, entries: seq<Value>): Option<seq<Path>> {
    if entries == [] then Some([])
    else Both(EntriesPaths(kind, entries[..|entries| - 1]), EntryPaths(kind, entries[|entries| - 1]))
  }

  /** The paths recorded for a binding, or an error. */
  function ExtractSelectorPaths(kind: string, raw: Value): Option<seq<Path>> {
    match kind
    case "templated_text" => if raw.String? then Some(Selectors(CutAtTokens(raw.s))) else None
    case "selector" => OnePath(SelectorPath(raw))
    case "condition_group" =>
      if Member(raw, "conditions").Array? then EntriesPaths(kind, Member(raw, "conditions").items) else None
    case _ => if kind in LIST_KINDS && raw.Array? then EntriesPaths(kind, raw.items) else None
  }

  const LIST_KINDS: set<string> := {"selector_list", "named_bindings", "prompt_messages", "state_write"}

  /** The loops over the entries of prompt messages, conditions and state writes. */
  method CollectEntryPaths(kind: string, entries: seq<Value>) returns (selectors: Option<seq<Path>>)
    ensures selectors == EntriesPaths(kind, entries)
  {
    hide EntryPaths;
    var collected := [];
    for i := 0 to |entries|
      invariant EntriesPaths(kind, entries[..i]) == Some(collected)
    {
      assert entries[..i + 1][..i] == entries[..i];
      var paths := EntryPaths(kind, entries[i]);
      if paths.None? {
        FailureSpreads(kind, entries, i + 1);
        return None;
      }
      collected := collected + paths.value;
    }
    assert entries[..|entries|] == entries;
    selectors := Some(collected);
  }

  lemma {:induction false} FailureSpreads(kind: string, entries: seq<Value>, n: nat)
    requires n <= |entries| && EntriesPaths(kind, entries[..n]).None?
    ensures EntriesPaths(kind, entries).None?
    decreases |entries|
  {
    hide EntryPaths;
    if n < |entries| {
      var front := entries[..|entries| - 1];
      assert front[..n] == entries[..n];
      FailureSpreads(kind, front, n);
    } else {
      assert entries[..n] == entries;
    }
  }

  datatype CompiledBinding = CompiledBinding(kind: string, raw: Value, selectorPaths: seq<Path>)

  function LookupAll(pool: Pool, paths: seq<Path>): Option<seq<Value>> {
    if paths == [] then Some([])
    else
      match (LookupAll(pool, paths[..|paths| - 1]), Lookup(pool, paths[|paths| - 1]))
      case (Some(values), Some(v)) => Some(values + [v])
      case _ => None
  }

  /** A later entry replaces an earlier one of the same name. */
  function ResolveNamed(entries: seq<Value>, pool: Pool): Option<map<string, Value>> {
    if entries == [] then Some(map[])
    else
      var entry := entries[|entries| - 1];
      match (ResolveNamed(entries[..|entries| - 1], pool), AsStr(Get(entry, "name")),
             SelectorPath(Member(entry, "selector")))
      case (Some(found), Some(name), Some(path)) =>
        if Lookup(pool, path).Some? then Some(found[name := Lookup(pool, path).value]) else None
      case _ => None
  }

  function Message(entry: Value, content: string): Value {
    var role := AsStr(Get(entry, "role"));
    var id := AsStr(Get(entry, "id"));
    var fields := map["role" := String(if role.Some? then role.value else "user"), "content" := String(content)];
    Object(if id.Some? then fields["id" := String(id.value)] else fields)
  }

  function ResolvePrompts(entries: seq<Value>, pool: Pool, show: Value -> string): Option<seq<Value>> {
    if entries == [] then Some([])
    else
      var entry := entries[|entries| - 1];
      match (ResolvePrompts(entries[..|entries| - 1], pool, show), ContentOf(entry))
      case (Some(messages), Some(content)) =>
        Some(messages + [Message(entry, Render(CutAtTokens(content), pool, show))])
      case _ => None
  }

  /** The input a binding yields, or an error. */
  function ResolveBinding(binding: CompiledBinding, pool: Pool, show: Value -> string): Option<Value> {
    match binding.kind
    case "selector" => if binding.selectorPaths == [] then None else Lookup(pool, binding.selectorPaths[0])
    case "selector_list" =>
      (match LookupAll(pool, binding.selectorPaths)
       case Some(values) => Some(Array(values))
       case None => None)
    case "named_bindings" =>
      if binding.raw.Array? && ResolveNamed(binding.raw.items, pool).Some?
      then Some(Object(ResolveNamed(binding.raw.items, pool).value)) else None
    case "templated_text" =>
      if binding.raw.String? then Some(String(Render(CutAtTokens(binding.raw.s), pool, show))) else None
    case "prompt_messages" =>
      if binding.raw.Array? && ResolvePrompts(binding.raw.items, pool, show).Some?
      then Some(Array(ResolvePrompts(binding.raw.items, pool, show).value)) else None
    case "condition_group" => Some(binding.raw)
    case "state_write" => Some(binding.raw)
    case _ => None
  }

  method ResolveNamedBindings(entries: seq<Value>, pool: Pool) returns (bindings: Option<map<string, Value>>)
    ensures bindings == ResolveNamed(entries, pool)
  {
    hide Lookup, SelectorPath, AsStr, Get;
    var found: map<string, Value> := map[];
    for i := 0 to |entries|
      invariant ResolveNamed(entries[..i], pool) == Some(found)
    {
      assert entries[..i + 1][..i] == entries[..i];
      var name := AsStr(Get(entries[i], "name"));
      var selector := SelectorPath(Member(entries[i], "selector"));
      if name.None? || selector.None? || Lookup(pool, selector.value).None? {
        UnresolvedSpreads(entries, pool, i + 1);
        return None;
      }
      found := found[name.value := Lookup(pool, selector.value).value];
    }
    assert entries[..|entries|] == entries;
    bindings := Some(found);
  }

  lemma {:induction false} UnresolvedSpreads(entries: seq<Value>, pool: Pool, n: nat)
    requires n <= |entries| && ResolveNamed(entries[..n], pool).None?
    ensures ResolveNamed(entries, pool).None?
    decreases |entries|
  {
    hide Lookup, SelectorPath, AsStr, Get;
    if n < |entries| {
      var front := entries[..|entries| - 1];
      assert front[..n] == entries[..n];
      UnresolvedSpreads(front, pool, n);
    } else {
      assert entries[..n] == entries;
    }
  }

  method ResolvePromptMessages(entries: seq<Value>, pool: Pool, show: Value -> string)
    returns (messages: Option<seq<Value>>)
    ensures messages == ResolvePrompts(entries, pool, show)
  {
    hide Render, Message, ContentOf;
    var resolved := [];
    for i := 0 to |entries|
      invariant ResolvePrompts(entries[..i], pool, show) == Some(resolved)
    {
      assert entries[..i + 1][..i] == entries[..i];
      var content := ContentOf(entries[i]);
      if content.None? {
        NoContentSpreads(entries, pool, show, i + 1);
        return None;
      }
      var rendered := RenderTemplate(content.value, pool, show);
      resolved := resolved + [Message(entries[i], rendered)];
    }
    assert entries[..|entries|] == entries;
    messages := Some(resolved);
  }

  lemma {:induction false} NoContentSpreads(entries: seq<Value>, pool: Pool, show: Value -> string, n: nat)
    requires n <= |entries| && ResolvePrompts(entries[..n], pool, show).None?
    ensures ResolvePrompts(entries, pool, show).None?
    decreases |entries|
  {
    hide Render, Message, ContentOf;
    if n < |entries| {
      var front := entries[..|entries| - 1];
      assert front[..n] == entries[..n];
      NoContentSpreads(front, pool, show, n);
    } else {
      assert entries[..n] == entries;
    }
  }

  // ----- When recorded dependencies suffice -----

  function PromptsPaths(entries: seq<Value>): seq<Path> {
    if entries == [] then []
    else
      var content := ContentOf(entries[|entries| - 1]);
      PromptsPaths(entries[..|entries| - 1]) +
      if content.Some? then RuntimePaths(CutAtTokens(content.value)) else []
  }

  /** The paths that the templates of the binding look up. */
  function TemplatePaths(kind: string, raw: Value): seq<Path> {
    if kind == "templated_text" && raw.String? then RuntimePaths(CutAtTokens(raw.s))
    else if kind == "prompt_messages" && raw.Array? then PromptsPaths(raw.items)
    else []
  }

  /** Every path that a template looks up starts with a recorded one, perhaps of another template. */
  ghost predicate AllCovered(selectors: seq<Path>, paths: seq<Path>) {
    forall path | path in paths :: Covered(selectors, path)
  }

  lemma CoveredTemplate(t: string, selectors: seq<Path>, p: Pool, q: Pool, show: Value -> string)
    requires Pairs(selectors) && AllCovered(selectors, RuntimePaths(CutAtTokens(t))) && Agree(p, q, selectors)
    ensures Render(CutAtTokens(t), p, show) == Render(CutAtTokens(t), q, show)
  {
    CoveredAgree(CutAtTokens(t), selectors, p, q);
    RenderDependsOnPaths(CutAtTokens(t), p, q, show);
  }

  lemma {:induction false} AgreeOnList(paths: seq<Path>, p: Pool, q: Pool)
    requires Agree(p, q, paths)
    ensures LookupAll(p, paths) == LookupAll(q, paths)
  {
    if paths != [] {
      assert paths[|paths| - 1] in paths;
      assert forall path | path in paths[..|paths| - 1] :: path in paths;
      AgreeOnList(paths[..|paths| - 1], p, q);
    }
  }

  lemma {:induction false} AgreeOnNamed(entries: seq<Value>, p: Pool, q: Pool)
    requires EntriesPaths("named_bindings", entries).Some?
    requires Agree(p, q, EntriesPaths("named_bindings", entries).value)
    ensures ResolveNamed(entries, p) == ResolveNamed(entries, q)
  {
    if entries != [] {
      var front, last := entries[..|entries| - 1], entries[|entries| - 1];
      var before := EntriesPaths("named_bindings", front).value;
      var path := SelectorPath(Member(last, "selector")).value;
      assert EntriesPaths("named_bindings", entries).value == before + [path];
      assert path in before + [path];
      AgreeOnNamed(front, p, q);
    }
  }

  lemma {:induction false} AgreeOnPrompts(entries: seq<Value>, selectors: seq<Path>, p: Pool, q: Pool,
                                          show: Value -> string)
    requires Pairs(selectors) && AllCovered(selectors, PromptsPaths(entries)) && Agree(p, q, selectors)
    ensures ResolvePrompts(entries, p, show) == ResolvePrompts(entries, q, show)
  {
    hide Render, RuntimePaths, CutAtTokens, Covered, Agree, Pairs;
    if entries != [] {
      var front, last := entries[..|entries| - 1], entries[|entries| - 1];
      assert forall path | path in PromptsPaths(front) :: path in PromptsPaths(entries);
      AgreeOnPrompts(front, selectors, p, q, show);
      if ContentOf(last).Some? {
        var content := ContentOf(last).value;
        assert forall path | path in RuntimePaths(CutAtTokens(content)) :: path in PromptsPaths(entries);
        CoveredTemplate(content, selectors, p, q, show);
      }
    }
  }

  lemma {:induction false} PromptSelectorsArePairs(entries: seq<Value>)
    requires EntriesPaths("prompt_messages", entries).Some?
    ensures Pairs(EntriesPaths("prompt_messages", entries).value)
  {
    hide CutAtTokens, Selectors;
    if entries != [] {
      PromptSelectorsArePairs(entries[..|entries| - 1]);
      SelectorsArePairs(CutAtTokens(ContentOf(entries[|entries| - 1]).value));
    }
  }

  lemma {:induction false} PromptOfPath(entries: seq<Value>, path: Path) returns (k: nat)
    requires path in PromptsPaths(entries)
    ensures k < |entries| && ContentOf(entries[k]).Some?
    ensures path in RuntimePaths(CutAtTokens(ContentOf(entries[k]).value))
  {
    hide RuntimePaths, CutAtTokens;
    k := |entries| - 1;
    if path in PromptsPaths(entries[..k]) { k := PromptOfPath(entries[..k], path); }
  }

  ghost predicate Determined(binding: CompiledBinding, show: Value -> string) {
    forall p: Pool, q: Pool | Agree(p, q, binding.selectorPaths) ::
      ResolveBinding(binding, p, show) == ResolveBinding(binding, q, show)
  }

  lemma TextDetermined(t: string, p: Pool, q: Pool, show: Value -> string)
    requires AllCovered(Selectors(CutAtTokens(t)), RuntimePaths(CutAtTokens(t)))
    requires Agree(p, q, Selectors(CutAtTokens(t)))
    ensures Render(CutAtTokens(t), p, show) == Render(CutAtTokens(t), q, show)
  {
    SelectorsArePairs(CutAtTokens(t));
    CoveredTemplate(t, Selectors(CutAtTokens(t)), p, q, show);
  }

  lemma CoveredIsDetermined(kind: string, raw: Value, p: Pool, q: Pool, show: Value -> string)
    requires ExtractSelectorPaths(kind, raw).Some?
    requires AllCovered(ExtractSelectorPaths(kind, raw).value, TemplatePaths(kind, raw))
    requires Agree(p, q, ExtractSelectorPaths(kind, raw).value)
    ensures var binding := CompiledBinding(kind, raw, ExtractSelectorPaths(kind, raw).value);
            ResolveBinding(binding, p, show) == ResolveBinding(binding, q, show)
  {
    hide AllCovered, Render, Selectors, RuntimePaths, CutAtTokens, Lookup, PromptsPaths;
    var paths := ExtractSelectorPaths(kind, raw).value;
    match kind
    case "selector" => assert paths[0] in paths;
    case "selector_list" => AgreeOnList(paths, p, q);
    case "named_bindings" => AgreeOnNamed(raw.items, p, q);
    case "templated_text" => TextDetermined(raw.s, p, q, show);
    case "prompt_messages" =>
      PromptSelectorsArePairs(raw.items);
      AgreeOnPrompts(raw.items, paths, p, q, show);
    case _ =>
  }

  lemma UncoveredPrompts(entries: seq<Value>, path: Path, show: Value -> string) returns (p: Pool, q: Pool)
    requires EntriesPaths("prompt_messages", entries).Some? && path in PromptsPaths(entries)
    requires !Covered(EntriesPaths("prompt_messages", entries).value, path)
    ensures Agree(p, q, EntriesPaths("prompt_messages", entries).value)
    ensures ResolvePrompts(entries, p, show) != ResolvePrompts(entries, q, show)
  {
    hide CutAtTokens, Selectors, RuntimePaths, Covered, Render, EntriesPaths, Agree, Pairs, ResolvePrompts,
         PromptsPaths;
    var k := PromptOfPath(entries, path);
    var c := CutAtTokens(ContentOf(entries[k]).value);
    PromptSelectorsArePairs(entries);
    p, q := UncoveredDiffers(c, EntriesPaths("prompt_messages", entries).value, path, show);
    PromptsResolve(entries, p, show);
    PromptsResolve(entries, q, show);
    MessageContent(entries[k], Render(c, p, show));
    MessageContent(entries[k], Render(c, q, show));
  }

  lemma MessageContent(entry: Value, content: string)
    ensures Get(Message(entry, content), "content") == Some(String(content))
  {
  }

  lemma UncoveredIsNotDetermined(kind: string, raw: Value, path: Path, show: Value -> string)
    requires ExtractSelectorPaths(kind, raw).Some?
    requires path in TemplatePaths(kind, raw) && !Covered(ExtractSelectorPaths(kind, raw).value, path)
    ensures !Determined(CompiledBinding(kind, raw, ExtractSelectorPaths(kind, raw).value), show)
  {
    hide CutAtTokens, Selectors, RuntimePaths, Covered, Render, Agree, Pairs, PromptsPaths, ResolvePrompts,
         EntriesPaths;
    var binding := CompiledBinding(kind, raw, ExtractSelectorPaths(kind, raw).value);
    var p, q;
    if kind == "templated_text" {
      SelectorsArePairs(CutAtTokens(raw.s));
      p, q := UncoveredDiffers(CutAtTokens(raw.s), binding.selectorPaths, path, show);
    } else {
      p, q := UncoveredPrompts(raw.items, path, show);
      PromptsResolve(raw.items, p, show);
      PromptsResolve(raw.items, q, show);
    }
    assert Agree(p, q, binding.selectorPaths) && ResolveBinding(binding, p, show) != ResolveBinding(binding, q, show);
  }

  /** Main result: the recorded paths of a binding are all that its value depends on exactly when every path that one of
      its templates looks up starts with one of them. */
  lemma RecordedPathsSufficeIff(kind: string, raw: Value, show: Value -> string)
    requires ExtractSelectorPaths(kind, raw).Some?
    ensures var paths := ExtractSelectorPaths(kind, raw).value;
            Determined(CompiledBinding(kind, raw, paths), show) <==> AllCovered(paths, TemplatePaths(kind, raw))
  {
    hide ExtractSelectorPaths, TemplatePaths, Covered, Agree, ResolveBinding;
    var paths := ExtractSelectorPaths(kind, raw).value;
    if AllCovered(paths, TemplatePaths(kind, raw)) {
      forall p: Pool, q: Pool | Agree(p, q, paths)
        ensures ResolveBinding(CompiledBinding(kind, raw, paths), p, show) ==
                ResolveBinding(CompiledBinding(kind, raw, paths), q, show)
      {
        CoveredIsDetermined(kind, raw, p, q, show);
      }
    } else {
      var path :| path in TemplatePaths(kind, raw) && !Covered(paths, path);
      UncoveredIsNotDetermined(kind, raw, path, show);
    }
  }

  // ----- What resolving needs -----

  lemma {:induction false} LookupAllPointwise(pool: Pool, paths: seq<Path>)
    ensures LookupAll(pool, paths).Some? <==> forall i | 0 <= i < |paths| :: Lookup(pool, paths[i]).Some?
    ensures LookupAll(pool, paths).Some? ==>
              var values := LookupAll(pool, paths).value;
              |values| == |paths| && forall i | 0 <= i < |paths| :: Lookup(pool, paths[i]) == Some(values[i])
  {
    hide Lookup;
    if paths != [] { LookupAllPointwise(pool, paths[..|paths| - 1]); }
  }

  predicate HasName(entry: Value) {
    AsStr(Get(entry, "name")).Some?
  }

  /** Named bindings resolve exactly when every entry has a name and every recorded path is found. */
  lemma {:induction false} NamedResolveIff(entries: seq<Value>, pool: Pool)
    requires EntriesPaths("named_bindings", entries).Some?
    ensures ResolveNamed(entries, pool).Some? <==>
            (forall i | 0 <= i < |entries| :: HasName(entries[i])) &&
            LookupAll(pool, EntriesPaths("named_bindings", entries).value).Some?
  {
    hide Lookup, SelectorPath, AsStr, Get, LookupAll;
    LookupAllSnoc(pool, [], []);
    if entries != [] {
      var front, last := entries[..|entries| - 1], entries[|entries| - 1];
      NamedResolveIff(front, pool);
      var path := SelectorPath(Member(last, "selector")).value;
      var before := EntriesPaths("named_bindings", front).value;
      assert EntriesPaths("named_bindings", entries).value == before + [path];
      LookupAllSnoc(pool, before, path);
    }
  }

  lemma LookupAllSnoc(pool: Pool, paths: seq<Path>, path: Path)
    ensures LookupAll(pool, []) == Some([])
    ensures LookupAll(pool, paths + [path]).Some? <==> LookupAll(pool, paths).Some? && Lookup(pool, path).Some?
  {
    assert (paths + [path])[..|paths|] == paths;
  }

  /** Of the entries with one name the last one counts. */
  lemma {:induction false} LastNameWins(entries: seq<Value>, pool: Pool, k: nat)
    requires ResolveNamed(entries, pool).Some? && k < |entries|
    requires forall j | k < j < |entries| :: AsStr(Get(entries[j], "name")) != AsStr(Get(entries[k], "name"))
    ensures HasName(entries[k]) && SelectorPath(Member(entries[k], "selector")).Some?
    ensures var name := AsStr(Get(entries[k], "name")).value;
            var found := ResolveNamed(entries, pool).value;
            name in found && Lookup(pool, SelectorPath(Member(entries[k], "selector")).value) == Some(found[name])
    decreases |entries|
  {
    hide Lookup;
    if k < |entries| - 1 { LastNameWins(entries[..|entries| - 1], pool, k); }
  }

  lemma {:induction false} NamesComeFromEntries(entries: seq<Value>, pool: Pool, name: string)
    requires ResolveNamed(entries, pool).Some? && name in ResolveNamed(entries, pool).value
    ensures exists i :: 0 <= i < |entries| && AsStr(Get(entries[i], "name")) == Some(name)
  {
    hide Lookup;
    var last := entries[|entries| - 1];
    if AsStr(Get(last, "name")) != Some(name) {
      var front := entries[..|entries| - 1];
      NamesComeFromEntries(front, pool, name);
      var i :| 0 <= i < |front| && AsStr(Get(front[i], "name")) == Some(name);
      assert entries[i] == front[i];
    }
  }

  lemma {:induction false} PromptsResolve(entries: seq<Value>, pool: Pool, show: Value -> string)
    requires EntriesPaths("prompt_messages", entries).Some?
    ensures ResolvePrompts(entries, pool, show).Some?
    ensures var messages := ResolvePrompts(entries, pool, show).value;
            |messages| == |entries| &&
            forall i | 0 <= i < |entries| ::
              ContentOf(entries[i]).Some? &&
              messages[i] == Message(entries[i], Render(CutAtTokens(ContentOf(entries[i]).value), pool, show))
  {
    hide Render, Message, Selectors, ContentOf;
    if entries != [] { PromptsResolve(entries[..|entries| - 1], pool, show); }
  }

  predicate AllFound(pool: Pool, paths: seq<Path>) {
    forall i | 0 <= i < |paths| :: Lookup(pool, paths[i]).Some?
  }

  /** Main result: when a compiled binding can fail. A selector binding fails exactly when a recorded path is not
      found, a named one also when a name is missing; the others never do, whatever is missing in the pool. */
  lemma ResolvesIff(kind: string, raw: Value, pool: Pool, show: Value -> string)
    requires ExtractSelectorPaths(kind, raw).Some?
    ensures var paths := ExtractSelectorPaths(kind, raw).value;
            ResolveBinding(CompiledBinding(kind, raw, paths), pool, show).Some? <==>
            match kind
            case "selector" => AllFound(pool, paths)
            case "selector_list" => AllFound(pool, paths)
            case "named_bindings" => AllFound(pool, paths) && forall i | 0 <= i < |raw.items| :: HasName(raw.items[i])
            case _ => true
  {
    hide Lookup, Render, Selectors;
    var paths := ExtractSelectorPaths(kind, raw).value;
    LookupAllPointwise(pool, paths);
    if kind == "named_bindings" {
      NamedResolveIff(raw.items, pool);
    } else if kind == "prompt_messages" {
      PromptsResolve(raw.items, pool, show);
    } else {
      KnownKind(kind, raw);
    }
  }

  lemma KnownKind(kind: string, raw: Value)
    requires ExtractSelectorPaths(kind, raw).Some?
    ensures kind in {"selector", "selector_list", "named_bindings", "templated_text", "prompt_messages",
                     "condition_group", "state_write"}
  {
  }
}
