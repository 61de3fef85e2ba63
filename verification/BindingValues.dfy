/** Which paths a binding records and which value it yields, told from the members of the binding. */
module BindingValues {
  import opened Wrappers
  import opened Bindings
  import opened Json
  import opened Template

  // ----- Recorded paths -----

  /** The value is a path written as an array of strings. */
  ghost predicate WritesPath(v: Value, path: Path) {
    && v.Array? && |v.items| == |path|
    && forall i | 0 <= i < |path| :: v.items[i] == String(path[i])
  }

  lemma {:induction false} SegmentsIff(items: seq<Value>, path: Path)
    ensures SegmentsOf(items) == Some(path) <==> WritesPath(Array(items), path)
  {
    if items == [] {
    } else if path != [] {
      var front, last := items[..|items| - 1], items[|items| - 1];
      SegmentsIff(front, path[..|path| - 1]);
      assert path == path[..|path| - 1] + [path[|path| - 1]];
      if WritesPath(Array(items), path) {
        assert items[|path| - 1] == String(path[|path| - 1]);
        assert WritesPath(Array(front), path[..|path| - 1]);
      }
      if SegmentsOf(items) == Some(path) {
        assert SegmentsOf(front) == Some(path[..|path| - 1]);
        forall i | 0 <= i < |path|
          ensures |items| == |path| && items[i] == String(path[i])
        {
          if i < |path| - 1 { assert front[i] == String(path[..|path| - 1][i]); }
        }
      }
    }
  }

  lemma SelectorPathIff(v: Value, path: Path)
    ensures SelectorPath(v) == Some(path) <==> WritesPath(v, path)
  {
    if v.Array? { SegmentsIff(v.items, path); }
  }

  /** The member of an object; nothing else has any. */
  ghost predicate HasMember(v: Value, key: string, member: Value) {
    v.Object? && key in v.fields && v.fields[key] == member
  }

  /** The member is a path. */
  ghost predicate MemberPath(entry: Value, key: string, path: Path) {
    exists member :: HasMember(entry, key, member) && WritesPath(member, path)
  }

  lemma MemberPathIff(entry: Value, key: string, path: Path)
    ensures SelectorPath(Member(entry, key)) == Some(path) <==> MemberPath(entry, key, path)
  {
    SelectorPathIff(Member(entry, key), path);
    hide SelectorPath;
    if MemberPath(entry, key, path) {
      var member :| HasMember(entry, key, member) && WritesPath(member, path);
      assert Member(entry, key) == member;
    }
    if WritesPath(Member(entry, key), path) { assert HasMember(entry, key, Member(entry, key)); }
  }

  /** A member that is an array counts; it must be a path then. */
  ghost predicate OptionalMember(entry: Value, key: string, paths: seq<Path>) {
    if exists items :: HasMember(entry, key, Array(items)) then |paths| == 1 && MemberPath(entry, key, paths[0])
    else paths == []
  }

  lemma OptionalMemberIff(entry: Value, key: string, paths: seq<Path>)
    ensures OptionalPath(entry, key) == Some(paths) <==> OptionalMember(entry, key, paths)
  {
    hide SelectorPath;
    if Member(entry, key).Array? {
      assert HasMember(entry, key, Array(Member(entry, key).items));
      if |paths| == 1 {
        MemberPathIff(entry, key, paths[0]);
        assert paths == [paths[0]];
      }
    } else {
      assert forall items :: !HasMember(entry, key, Array(items));
    }
  }

  /** The text of a message. */
  ghost predicate SaysText(entry: Value, text: string) {
    exists content :: HasMember(entry, "content", content) && HasMember(content, "value", String(text))
  }

  lemma ContentIff(entry: Value, text: string)
    ensures ContentOf(entry) == Some(text) <==> SaysText(entry, text)
  {
    if ContentOf(entry) == Some(text) { assert HasMember(entry, "content", entry.fields["content"]); }
  }

  /** What an entry contributes: its path, the path of its selector, the selectors of its text, the path on the left
      and, if there is one, on the right, or the path of its source, if there is one. */
  ghost predicate Contributes(kind: string, entry: Value, paths: seq<Path>) {
    match kind
    case "selector_list" => |paths| == 1 && WritesPath(entry, paths[0])
    case "named_bindings" => |paths| == 1 && MemberPath(entry, "selector", paths[0])
    case "prompt_messages" => exists text :: SaysText(entry, text) && paths == Selectors(CutAtTokens(text))
    case "condition_group" =>
      paths != [] && MemberPath(entry, "left", paths[0]) && OptionalMember(entry, "right", paths[1..])
    case "state_write" => OptionalMember(entry, "source", paths)
    case _ => false
  }

  lemma EntryPathsIff(kind: string, entry: Value, paths: seq<Path>)
    ensures EntryPaths(kind, entry) == Some(paths) <==> Contributes(kind, entry, paths)
  {
    hide SelectorPath, OptionalPath, WritesPath, MemberPath, OptionalMember, Selectors, SaysText, ContentOf;
    match kind
    case "selector_list" => if |paths| == 1 { SelectorPathIff(entry, paths[0]); OneIff(SelectorPath(entry), paths); }
    case "named_bindings" =>
      if |paths| == 1 {
        MemberPathIff(entry, "selector", paths[0]);
        OneIff(SelectorPath(Member(entry, "selector")), paths);
      }
    case "prompt_messages" => PromptContributes(entry, paths);
    case "condition_group" =>
      if paths != [] {
        MemberPathIff(entry, "left", paths[0]);
        OptionalMemberIff(entry, "right", paths[1..]);
        assert paths == [paths[0]] + paths[1..];
        BothIff(SelectorPath(Member(entry, "left")), OptionalPath(entry, "right"), paths);
      }
    case "state_write" => OptionalMemberIff(entry, "source", paths);
    case _ =>
  }

  lemma OneIff(path: Option<Path>, paths: seq<Path>)
    requires |paths| == 1
    ensures OnePath(path) == Some(paths) <==> path == Some(paths[0])
  {
    assert paths == [paths[0]];
  }

  lemma BothIff(left: Option<Path>, right: Option<seq<Path>>, paths: seq<Path>)
    requires paths != []
    ensures Both(OnePath(left), right) == Some(paths) <==> left == Some(paths[0]) && right == Some(paths[1..])
  {
    assert paths == [paths[0]] + paths[1..];
    if left.Some? && right.Some? { assert ([left.value] + right.value)[1..] == right.value; }
  }

  lemma PromptContributes(entry: Value, paths: seq<Path>)
    ensures EntryPaths("prompt_messages", entry) == Some(paths) <==> Contributes("prompt_messages", entry, paths)
  {
    hide Selectors, CutAtTokens, ContentOf, SaysText;
    if ContentOf(entry).Some? { ContentIff(entry, ContentOf(entry).value); }
    if text :| SaysText(entry, text) && paths == Selectors(CutAtTokens(text)) { ContentIff(entry, text); }
  }

  function Concat(parts: seq<seq<Path>>): seq<Path> {
    if parts == [] then [] else Concat(parts[..|parts| - 1]) + parts[|parts| - 1]
  }

  /** One list of paths for each entry, in order. */
  ghost predicate Parts(kind: string, entries: seq<Value>, parts: seq<seq<Path>>) {
    |parts| == |entries| && forall i | 0 <= i < |entries| :: Contributes(kind, entries[i], parts[i])
  }

  /** The entries record the paths that each contributes, in order; a malformed one fails them all. */
  lemma {:induction false} EntriesPathsIff(kind: string, entries: seq<Value>, paths: seq<Path>)
    ensures EntriesPaths(kind, entries) == Some(paths) <==>
            exists parts :: Parts(kind, entries, parts) && Concat(parts) == paths
  {
    hide EntryPaths, Contributes;
    if entries == [] {
      assert Parts(kind, entries, []) && Concat([]) == [];
    } else {
      var front, last := entries[..|entries| - 1], entries[|entries| - 1];
      if EntriesPaths(kind, entries) == Some(paths) {
        EntriesPathsIff(kind, front, EntriesPaths(kind, front).value);
        EntryPathsIff(kind, last, EntryPaths(kind, last).value);
        var before :| Parts(kind, front, before) && Concat(before) == EntriesPaths(kind, front).value;
        var parts := before + [EntryPaths(kind, last).value];
        assert parts[..|before|] == before;
        assert Parts(kind, entries, parts) && Concat(parts) == paths;
      }
      if parts :| Parts(kind, entries, parts) && Concat(parts) == paths {
        var before, more := parts[..|parts| - 1], parts[|parts| - 1];
        assert forall i | 0 <= i < |front| :: front[i] == entries[i] && before[i] == parts[i];
        assert Parts(kind, front, before);
        EntriesPathsIff(kind, front, Concat(before));
        assert Contributes(kind, entries[|entries| - 1], parts[|parts| - 1]);
        EntryPathsIff(kind, last, more);
      }
    }
  }

  /** Where the entries of a binding are. */
  ghost predicate HasEntries(kind: string, raw: Value, entries: seq<Value>) {
    match kind
    case "selector_list" => raw == Array(entries)
    case "named_bindings" => raw == Array(entries)
    case "prompt_messages" => raw == Array(entries)
    case "state_write" => raw == Array(entries)
    case "condition_group" => HasMember(raw, "conditions", Array(entries))
    case _ => false
  }

  /** Main result: what a binding records, and that it fails otherwise. */
  lemma RecordedIff(kind: string, raw: Value, paths: seq<Path>)
    ensures ExtractSelectorPaths(kind, raw) == Some(paths) <==>
            match kind
            case "templated_text" => exists text :: raw == String(text) && paths == Selectors(CutAtTokens(text))
            case "selector" => |paths| == 1 && WritesPath(raw, paths[0])
            case _ => exists entries, parts ::
                        HasEntries(kind, raw, entries) && Parts(kind, entries, parts) && Concat(parts) == paths
  {
    hide EntriesPaths, Parts, Selectors, CutAtTokens, SelectorPath, WritesPath;
    if kind == "selector" {
      if |paths| == 1 { SelectorPathIff(raw, paths[0]); OneIff(SelectorPath(raw), paths); }
    } else if kind == "templated_text" {
      if raw.String? { assert raw == String(raw.s); }
    } else {
      EntriesIff(kind, raw);
      if entries :| HasEntries(kind, raw, entries) { EntriesPathsIff(kind, entries, paths); }
    }
  }

  lemma EntriesIff(kind: string, raw: Value)
    requires kind != "selector" && kind != "templated_text"
    ensures forall entries | HasEntries(kind, raw, entries) ::
              ExtractSelectorPaths(kind, raw) == EntriesPaths(kind, entries)
    ensures ExtractSelectorPaths(kind, raw).Some? ==> exists entries :: HasEntries(kind, raw, entries)
  {
    hide EntriesPaths, EntryPaths;
    if ExtractSelectorPaths(kind, raw).Some? {
      if kind == "condition_group" {
        assert HasEntries(kind, raw, Member(raw, "conditions").items);
      } else {
        assert HasEntries(kind, raw, raw.items);
      }
    }
  }

  // ----- Values -----

  /** A message has the role and the content of its entry, `user` if it has no role, and its id, if it has one. */
  lemma MessageMeaning(entry: Value, content: string)
    ensures var message := Message(entry, content);
            && message.Object? && message.fields.Keys <= {"role", "content", "id"}
            && HasMember(message, "content", String(content))
            && (forall role | HasMember(entry, "role", String(role)) :: HasMember(message, "role", String(role)))
            && ((forall role :: !HasMember(entry, "role", String(role))) ==>
                  HasMember(message, "role", String("user")))
            && (forall id :: HasMember(entry, "id", String(id)) <==> HasMember(message, "id", String(id)))
            && ("id" in message.fields ==> message.fields["id"].String?)
  {
    assert |"role"| == 4 && |"content"| == 7 && |"id"| == 2;
    if AsStr(Get(entry, "role")).Some? {
      assert HasMember(entry, "role", String(entry.fields["role"].s));
    }
    if AsStr(Get(entry, "id")).Some? {
      assert HasMember(entry, "id", String(entry.fields["id"].s));
    }
  }

  /** Main result: the value that a compiled binding yields: the value at its path, the values at its paths in order, an
      object of the named values, the rendered text, one message for each entry, or the binding itself. */
  lemma ResolvedMeaning(kind: string, raw: Value, pool: Pool, show: Value -> string, v: Value)
    requires ExtractSelectorPaths(kind, raw).Some?
    requires ResolveBinding(CompiledBinding(kind, raw, ExtractSelectorPaths(kind, raw).value), pool, show) == Some(v)
    ensures var paths := ExtractSelectorPaths(kind, raw).value;
            match kind
            case "selector" => |paths| == 1 && Lookup(pool, paths[0]) == Some(v)
            case "selector_list" =>
              && v.Array? && |v.items| == |paths|
              && forall i | 0 <= i < |paths| :: Lookup(pool, paths[i]) == Some(v.items[i])
            case "named_bindings" => raw.Array? && Some(v) == Named(ResolveNamed(raw.items, pool))
            case "templated_text" => raw.String? && v == String(Render(CutAtTokens(raw.s), pool, show))
            case "prompt_messages" =>
              && raw.Array? && v.Array? && |v.items| == |raw.items|
              && forall i | 0 <= i < |raw.items| :: AnswersEntry(raw.items[i], v.items[i], pool, show)
            case _ => v == raw
  {
    hide Lookup, Render, Selectors, CutAtTokens, Message, ContentOf;
    var paths := ExtractSelectorPaths(kind, raw).value;
    KnownKind(kind, raw);
    match kind
    case "selector" =>
    case "selector_list" => LookupAllPointwise(pool, paths);
    case "prompt_messages" =>
      PromptsResolve(raw.items, pool, show);
      forall i | 0 <= i < |raw.items|
        ensures AnswersEntry(raw.items[i], v.items[i], pool, show)
      {
        ContentIff(raw.items[i], ContentOf(raw.items[i]).value);
      }
    case _ =>
  }

  function Named(values: Option<map<string, Value>>): Option<Value> {
    match values
    case None => None
    case Some(fields) => Some(Object(fields))
  }

  /** The message is that of the entry with its text rendered. */
  ghost predicate AnswersEntry(entry: Value, message: Value, pool: Pool, show: Value -> string) {
    exists text :: SaysText(entry, text) && message == Message(entry, Render(CutAtTokens(text), pool, show))
  }
}
