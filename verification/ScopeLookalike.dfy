/** Documents in which a mistyped reference takes the place of the proper one: scoping succeeds, and the proper
    reference leads to the wrong node. */
module ScopeLookalike {
  import opened Wrappers
  import opened Json
  import opened JsonPointer
  import opened OpenApiScope
  import opened PointerEscapes
  import opened ScopeClosure
  import Sorting

  function RefTo(reference: string): Value {
    Object(map["$ref" := String(reference)])
  }

  /** The operations refer to the proper reference only, its node to the lookalike, and that to nothing; both are
      inserted at the same place. */
  ghost predicate Confused(canonical: Value, ops: seq<Operation>, proper: string, lookalike: string, kind: string,
                           name: string, leaf: Value)
  {
    && DocumentProblem(canonical).None? && HeaderProblem(canonical).None?
    && (forall op | op in ops :: OperationProblem(canonical, op).None?)
    && CollectRefs(Object(ScopedPaths(canonical, ops))) == {proper}
    && AllRequirements(canonical, ops) == []
    && ComponentRef(proper) && Lookalike(lookalike)
    && InsertedAt(proper) == InsertedAt(lookalike) == [kind, name]
    && RefProblem(canonical, proper).None? && RefProblem(canonical, lookalike).None?
    && NestedRefs(canonical, proper) == {lookalike} && NestedRefs(canonical, lookalike) == {}
    && Pointed(canonical, lookalike) == Some(leaf)
  }

  /** The references can be discovered in one order only. */
  lemma OnlyOrder(canonical: Value, proper: string, lookalike: string, order: seq<string>)
    requires NestedRefs(canonical, proper) == {lookalike} && NestedRefs(canonical, lookalike) == {}
    requires Discovered(canonical, {proper}, order)
    ensures order == [] || order == [proper] || order == [proper, lookalike]
  {
    hide NestedRefs;
    forall k | 0 <= k < |order|
      ensures order[k] == proper || order[k] == lookalike
      ensures k == 0 ==> order[k] == proper
    {
      OnlyTwo(canonical, proper, lookalike, order, k);
      assert Known(canonical, {proper}, order[..k], order[k]);
    }
    TwoAtMost(order, proper, lookalike);
  }

  lemma TwoAtMost(order: seq<string>, first: string, second: string)
    requires forall i, j | 0 <= i < j < |order| :: order[i] != order[j]
    requires forall k | 0 <= k < |order| :: order[k] == first || order[k] == second
    requires order != [] ==> order[0] == first
    ensures order == [] || order == [first] || order == [first, second]
  {
    assert |order| > 1 ==> order[1] != order[0];
    if |order| > 2 { ThreeDiffer(order); }
  }

  lemma ThreeDiffer(order: seq<string>)
    requires |order| > 2 && forall i, j | 0 <= i < j < |order| :: order[i] != order[j]
    ensures order[0] != order[1] && order[0] != order[2] && order[1] != order[2]
  {
  }

  lemma {:induction false} OnlyTwo(canonical: Value, proper: string, lookalike: string, order: seq<string>, k: nat)
    requires NestedRefs(canonical, proper) == {lookalike} && NestedRefs(canonical, lookalike) == {}
    requires Discovered(canonical, {proper}, order) && k < |order|
    ensures order[k] == proper || order[k] == lookalike
  {
    hide NestedRefs;
    assert Known(canonical, {proper}, order[..k], order[k]);
    if order[k] != proper {
      var q :| q in order[..k] && order[k] in NestedRefs(canonical, q);
      var j :| 0 <= j < k && order[j] == q;
      OnlyTwo(canonical, proper, lookalike, order, j);
    }
  }

  lemma InsertOne(fields: map<string, Value>, kind: string, name: string, inner: map<string, Value>, v: Value)
    requires if kind in fields then fields[kind] == Object(inner) else inner == map[]
    ensures Insert(Object(fields), [kind, name], v) == Some(Object(fields[kind := Object(inner[name := v])]))
  {
    assert [kind, name][1..] == [name] && [name][1..] == [];
    var child := if name in inner then inner[name] else Object(map[]);
    assert Insert(child, [], v) == Some(v);
    assert Insert(Object(inner), [name], v) == Some(Object(inner[name := v]));
  }

  lemma BothInserted(canonical: Value, proper: string, lookalike: string, kind: string, name: string, leaf: Value)
    requires |proper| >= 12 && |lookalike| >= 12 && InsertedAt(proper) == InsertedAt(lookalike) == [kind, name]
    requires Pointed(canonical, proper).Some? && Pointed(canonical, lookalike) == Some(leaf)
    ensures InsertRefs(canonical, []).Some? && InsertRefs(canonical, [proper]).Some?
    ensures InsertRefs(canonical, [proper, lookalike]) == Some(Object(map[kind := Object(map[name := leaf])]))
  {
    hide Pointed, InsertionTokens, Insert;
    var node := Pointed(canonical, proper).value;
    var first := map[kind := Object(map[name := node])];
    assert [proper, lookalike][..1] == [proper] && [proper][..0] == [];
    InsertOne(map[], kind, name, map[], node);
    assert InsertRefs(canonical, [proper]) == Some(Object(first));
    InsertOne(first, kind, name, map[name := node], leaf);
    assert map[name := node][name := leaf] == map[name := leaf];
    assert first[kind := Object(map[name := leaf])] == map[kind := Object(map[name := leaf])];
  }

  lemma OnlyReachable(canonical: Value, proper: string, lookalike: string, q: string)
    requires NestedRefs(canonical, proper) == {lookalike} && NestedRefs(canonical, lookalike) == {}
    requires Reachable(canonical, {proper}, q)
    ensures q == proper || q == lookalike
  {
    hide NestedRefs;
    var chain :| RefChain(canonical, {proper}, chain) && chain[|chain| - 1] == q;
    ChainStaysInClosedSet(canonical, {proper}, chain, {proper, lookalike});
  }

  lemma NotBlocked(canonical: Value, proper: string, lookalike: string, pointer: string)
    requires NestedRefs(canonical, proper) == {lookalike} && NestedRefs(canonical, lookalike) == {}
    requires InsertRefs(canonical, [proper]).Some? && InsertRefs(canonical, [proper, lookalike]).Some?
    ensures !BlockedRef(canonical, {proper}, pointer)
  {
    hide NestedRefs, InsertRefs, Discovered, RefProblem;
    forall order, q
      ensures !BlockedAt(canonical, {proper}, order, q, pointer)
    {
      if Discovered(canonical, {proper}, order + [q]) {
        OnlyOrder(canonical, proper, lookalike, order + [q]);
        assert (order + [q])[..|order|] == order;
      }
    }
  }

  lemma ConfusedSucceeds(canonical: Value, ops: seq<Operation>, proper: string, lookalike: string, kind: string,
                         name: string, leaf: Value, r: Result<Spec, ScopeError>, visited: set<string>)
    requires Confused(canonical, ops, proper, lookalike, kind, name, leaf) && Outcome(canonical, ops, r, visited)
    ensures r.Success?
  {
    ProblemFreeRef(canonical, proper);
    ProblemFreeRef(canonical, lookalike);
    hide CollectRefs, OperationProblem, ScopedPaths, RefProblem, AllRequirements, InsertRefs, Discovered, Reachable,
         NestedRefs, Pointed, ComponentRef, Lookalike, InsertionTokens, BlockedRef, NamedScheme, Scopes, SchemeInTheWay,
         SchemeAt, FirstProblem, Cause;
    BothInserted(canonical, proper, lookalike, kind, name, leaf);
    NoneNamed(canonical, ops);
    forall pointer
      ensures !BlockedRef(canonical, {proper}, pointer) && !SchemeInTheWay(canonical, ops, pointer)
    {
      NotBlocked(canonical, proper, lookalike, pointer);
      NoSchemeInTheWay(canonical, ops, pointer);
    }
    forall q | Reachable(canonical, {proper}, q)
      ensures RefProblem(canonical, q).None?
    {
      OnlyReachable(canonical, proper, lookalike, q);
    }
    if r.Failure? { NoCause(canonical, ops, {proper}, r.error); }
  }

  lemma NoCause(canonical: Value, ops: seq<Operation>, roots: set<string>, error: ScopeError)
    requires DocumentProblem(canonical).None? && HeaderProblem(canonical).None?
    requires forall op | op in ops :: OperationProblem(canonical, op).None?
    requires CollectRefs(Object(ScopedPaths(canonical, ops))) == roots
    requires forall pointer :: !BlockedRef(canonical, roots, pointer) && !SchemeInTheWay(canonical, ops, pointer)
    requires forall q | Reachable(canonical, roots, q) :: RefProblem(canonical, q).None?
    requires forall name :: !NamedScheme(canonical, ops, name)
    ensures !Cause(canonical, ops, error)
  {
    hide CollectRefs, OperationProblem, ScopedPaths, RefProblem, Reachable, BlockedRef, NamedScheme, SchemeInTheWay,
         SchemeAt;
  }

  lemma NoneNamed(canonical: Value, ops: seq<Operation>)
    requires AllRequirements(canonical, ops) == []
    ensures forall name :: !NamedScheme(canonical, ops, name)
  {
    hide AllRequirements, Required;
    RequiredIffListed(canonical, ops);
  }

  lemma NoSchemeInTheWay(canonical: Value, ops: seq<Operation>, pointer: string)
    requires forall op | op in ops :: OperationProblem(canonical, op).None?
    requires AllRequirements(canonical, ops) == []
    ensures !SchemeInTheWay(canonical, ops, pointer)
  {
    hide OperationProblem, AllRequirements, ScopedPaths, CollectRefs, InsertRefs, InsertSchemes, Discovered,
         IsReachableSet, SchemeAt;
    forall components, front, name
      ensures !BlockedSchemeAt(canonical, components, SchemeNames(FirstOccurrences([])), pointer, front, name)
    {
      assert name in front + [name];
    }
  }

  /** Scoping such a document succeeds, and in the result the proper reference leads to the node of the lookalike, while
      the lookalike leads nowhere. */
  lemma LookalikeOverwrites(canonical: Value, ops: seq<Operation>, proper: string, lookalike: string, kind: string,
                            name: string, leaf: Value, r: Result<Spec, ScopeError>, visited: set<string>)
    requires Confused(canonical, ops, proper, lookalike, kind, name, leaf) && Outcome(canonical, ops, r, visited)
    ensures r.Success?
    ensures Pointed(Document(r.value), proper) == Some(leaf) == Pointed(canonical, lookalike)
    ensures Pointed(Document(r.value), lookalike).None?
  {
    ConfusedSucceeds(canonical, ops, proper, lookalike, kind, name, leaf, r, visited);
    LookalikeDangles(canonical, r.value, lookalike);
    ProblemFreeRef(canonical, proper);
    hide CollectRefs, OperationProblem, ScopedPaths, RefProblem, AllRequirements, InsertRefs, Discovered, Reachable,
         SchemeAt, NestedRefs, Pointed, ComponentRef, Lookalike, InsertionTokens, Required, Collected, PointerTokens,
         Lookup;
    var spec := r.value;
    BothInserted(canonical, proper, lookalike, kind, name, leaf);
    RootIsReachable(canonical, {proper}, proper);
    NestedIsReachable(canonical, {proper}, proper, lookalike);
    assert SchemeNames(spec.security) == {};
    var order, list :| GatheredBy(canonical, {proper}, visited, {}, spec.components, order, list);
    assert proper in AsSet(order) && lookalike in AsSet(order);
    OnlyOrder(canonical, proper, lookalike, order);
    DifferentRefs(proper, lookalike);
    assert order == [proper, lookalike];
    Sorting.EmptyList(list, {});
    FoundAt(spec, proper, kind, name, leaf);
  }

  lemma DifferentRefs(proper: string, lookalike: string)
    requires ComponentRef(proper) && Lookalike(lookalike)
    ensures proper != lookalike
  {
  }

  lemma FoundAt(spec: Spec, proper: string, kind: string, name: string, leaf: Value)
    requires ComponentRef(proper) && InsertedAt(proper) == [kind, name]
    requires spec.components == Object(map[kind := Object(map[name := leaf])])
    ensures Pointed(Document(spec), proper) == Some(leaf)
  {
    ComponentRefTokens(proper);
    hide Pointed, InsertionTokens, PointerTokens;
    PointedInDocument(spec, proper, [kind, name]);
    assert [kind, name][1..] == [name] && [name][1..] == [];
    assert Lookup(leaf, []) == Some(leaf);
    assert Lookup(Object(map[name := leaf]), [name]) == Some(leaf);
  }

  // ----- There is such a document for every name -----

  predicate Plain(name: string) {
    name != "" && '/' !in name && '~' !in name
  }

  function Proper(kind: string, name: string): string {
    "#" + COMPONENTS + ("/" + (kind + "/" + name))
  }

  /** The first slash behind `components` is missing. */
  function Mistyped(kind: string, name: string): string {
    "#" + COMPONENTS + (kind + "/" + name)
  }

  function MistypedDocument(kind: string, name: string, op: Operation, text: string): Value {
    Object(map["openapi" := String("3.1.0"), "info" := Object(map["title" := String(text)]),
               "paths" := Object(map[op.path := Object(map[op.method_ := RefTo(Proper(kind, name))])]),
               "components" := Object(map[kind := Object(map[name := RefTo(Mistyped(kind, name))])]),
               "components" + kind := Object(map[name := String(text)])])
  }

  lemma RefShapes(kind: string, name: string)
    requires Plain(kind) && Plain(name)
    ensures ComponentRef(Proper(kind, name)) && Proper(kind, name)[12..] == "/" + (kind + "/" + name)
    ensures Lookalike(Mistyped(kind, name)) && Mistyped(kind, name)[12..] == kind + "/" + name
    ensures Proper(kind, name)[1..] == COMPONENTS + ("/" + (kind + "/" + name))
    ensures Mistyped(kind, name)[1..] == COMPONENTS + (kind + "/" + name)
  {
    Shape("/" + (kind + "/" + name));
    Shape(kind + "/" + name);
    assert ("/" + (kind + "/" + name))[1] == kind[0] && kind[0] in kind && (kind + "/" + name)[0] == kind[0];
  }

  lemma Shape(rest: string)
    ensures var reference := "#" + COMPONENTS + rest;
            |reference| == 12 + |rest| && reference[0] == '#' && reference[1..12] == COMPONENTS
            && reference[12..] == rest && reference[1..] == COMPONENTS + rest
            && forall i | 0 <= i < |rest| :: reference[12 + i] == rest[i]
  {
  }

  lemma RefTokens(kind: string, name: string)
    requires Plain(kind) && Plain(name)
    ensures InsertedAt(Proper(kind, name)) == InsertedAt(Mistyped(kind, name)) == [kind, name]
    ensures PointerTokens(Proper(kind, name)[1..]) == Some(["components", kind, name])
    ensures PointerTokens(Mistyped(kind, name)[1..]) == Some(["components" + kind, name])
  {
    hide Text.Split, Unescape, TrimSlashes, ComponentRef, Lookalike;
    RefShapes(kind, name);
    var rest := kind + "/" + name;
    assert kind[0] in kind;
    TrimOneSlash("/" + rest);
    assert ("/" + rest)[1..] == rest;
    LookalikeInserted(Mistyped(kind, name));
    SplitAtSlash(kind, name);
    SplitAtSlash(name, "");
    NothingToUnescape(kind);
    NothingToUnescape(name);
    TwoUnescaped(kind, name);
    assert [kind] + [name] == [kind, name];
    ComponentRefTokens(Proper(kind, name));
    assert ["components"] + [kind, name] == ["components", kind, name];
    LookalikeLookup(kind, name);
  }

  lemma LookalikeLookup(kind: string, name: string)
    requires Plain(kind) && Plain(name)
    ensures PointerTokens(COMPONENTS + (kind + "/" + name)) == Some(["components" + kind, name])
  {
    hide Text.Split, Unescape;
    var first := "components" + kind;
    assert (COMPONENTS + (kind + "/" + name))[1..] == first + "/" + name;
    SplitAtSlash(first, name);
    SplitAtSlash(name, "");
    NothingToUnescape(first);
    NothingToUnescape(name);
    TwoUnescaped(first, name);
    assert [first] + [name] == [first, name];
  }

  lemma DocumentMembers(kind: string, name: string, op: Operation, text: string)
    requires kind != ""
    ensures var v := MistypedDocument(kind, name, op, text);
            && Child(v, "paths") == Some(Object(map[op.path := Object(map[op.method_ := RefTo(Proper(kind, name))])]))
            && Child(v, "components") == Some(Object(map[kind := Object(map[name := RefTo(Mistyped(kind, name))])]))
            && Child(v, "components" + kind) == Some(Object(map[name := String(text)]))
            && Child(v, "security").None?
            && DocumentProblem(v).None? && HeaderProblem(v).None?
  {
    hide Proper, Mistyped;
    assert |"components" + kind| > |"components"| && ("components" + kind)[0] == 'c';
    assert "security"[0] == 's' && "paths"[0] == 'p' && "components"[0] == 'c';
    assert "openapi"[0] == 'o' && "info"[0] == 'i';
  }

  lemma DocumentPointed(kind: string, name: string, op: Operation, text: string)
    requires Plain(kind) && Plain(name)
    ensures var v := MistypedDocument(kind, name, op, text);
            && Pointed(v, Proper(kind, name)) == Some(RefTo(Mistyped(kind, name)))
            && Pointed(v, Mistyped(kind, name)) == Some(String(text))
  {
    DocumentMembers(kind, name, op, text);
    RefTokens(kind, name);
    RefShapes(kind, name);
    hide PointerTokens, MistypedDocument, Proper, Mistyped, ComponentRef, InsertionTokens;
    var v := MistypedDocument(kind, name, op, text);
    LookupThree(v, "components", kind, name, RefTo(Mistyped(kind, name)));
    LookupTwo(v, "components" + kind, name, String(text));
  }

  lemma LookupTwo(v: Value, a: string, b: string, leaf: Value)
    requires Child(v, a) == Some(Object(map[b := leaf]))
    ensures Lookup(v, [a, b]) == Some(leaf)
  {
    assert [a, b][1..] == [b] && [b][1..] == [] && Lookup(leaf, []) == Some(leaf);
    assert Lookup(Object(map[b := leaf]), [b]) == Some(leaf);
  }

  lemma LookupThree(v: Value, a: string, b: string, c: string, leaf: Value)
    requires Child(v, a) == Some(Object(map[b := Object(map[c := leaf])]))
    ensures Lookup(v, [a, b, c]) == Some(leaf)
  {
    assert [a, b, c][1..] == [b, c];
    LookupTwo(Object(map[b := Object(map[c := leaf])]), b, c, leaf);
  }

  lemma RefsOfRef(reference: string)
    ensures CollectRefs(RefTo(reference)) == {reference}
    ensures CollectRefs(String(reference)) == {}
  {
    var fields := RefTo(reference).fields;
    assert fields["$ref"] == String(reference);
    assert forall k | k in fields :: CollectRefs(fields[k]) == {};
  }

  lemma OneMember(key: string, v: Value)
    requires key != "$ref"
    ensures CollectRefs(Object(map[key := v])) == CollectRefs(v)
  {
    var fields := map[key := v];
    assert fields[key] == v;
  }

  lemma DocumentPaths(kind: string, name: string, op: Operation, text: string)
    requires kind != "" && op.path != "$ref" && op.method_ != "$ref"
    ensures var v := MistypedDocument(kind, name, op, text);
            && DocumentProblem(v).None? && HeaderProblem(v).None?
            && OperationProblem(v, op).None?
            && CollectRefs(Object(ScopedPaths(v, [op]))) == {Proper(kind, name)}
            && AllRequirements(v, [op]) == []
  {
    DocumentMembers(kind, name, op, text);
    hide MistypedDocument, Proper, CollectRefs, ScopedPaths, OperationProblem, AllRequirements;
    OneOperationPaths(MistypedDocument(kind, name, op, text), op, Proper(kind, name));
  }

  /** In a document whose only operation is a reference, that is all that is scoped. */
  lemma OneOperationPaths(v: Value, op: Operation, reference: string)
    requires op.path != "$ref" && op.method_ != "$ref"
    requires Child(v, "paths") == Some(Object(map[op.path := Object(map[op.method_ := RefTo(reference)])]))
    requires Child(v, "security").None?
    ensures OperationProblem(v, op).None?
    ensures CollectRefs(Object(ScopedPaths(v, [op]))) == {reference}
    ensures AllRequirements(v, [op]) == []
  {
    hide CollectRefs;
    var members := map[op.method_ := RefTo(reference)];
    assert v.Object?;
    assert PathsOf(v) == map[op.path := Object(members)];
    assert Picked(v, op) == members;
    assert [op][..0] == [];
    assert members + map[] == members;
    assert ScopedPaths(v, [op]) == map[op.path := Object(members)];
    OneMember(op.method_, RefTo(reference));
    OneMember(op.path, Object(members));
    RefsOfRef(reference);
    assert Get(v, "security").None? && Get(RefTo(reference), "security").None?;
    assert RequirementsOf(v, op) == [];
  }

  /** For every kind and name of a component and every operation there is such a document. */
  lemma EveryNameCanBeConfused(kind: string, name: string, op: Operation, text: string)
    requires Plain(kind) && Plain(name) && op.path != "$ref" && op.method_ != "$ref"
    ensures Confused(MistypedDocument(kind, name, op, text), [op], Proper(kind, name), Mistyped(kind, name), kind, name,
                     String(text))
  {
    DocumentPaths(kind, name, op, text);
    DocumentPointed(kind, name, op, text);
    RefTokens(kind, name);
    RefShapes(kind, name);
    NestedInDocument(kind, name, op, text);
    var v := MistypedDocument(kind, name, op, text);
    PassesChecks(v, Proper(kind, name));
    PassesChecks(v, Mistyped(kind, name));
    hide MistypedDocument, Proper, Mistyped, CollectRefs, Pointed, InsertionTokens, ComponentRef, Lookalike, RefProblem,
         OperationProblem, ScopedPaths, AllRequirements, PointerTokens, NestedRefs;
  }

  lemma NestedInDocument(kind: string, name: string, op: Operation, text: string)
    requires Plain(kind) && Plain(name)
    ensures var v := MistypedDocument(kind, name, op, text);
            NestedRefs(v, Proper(kind, name)) == {Mistyped(kind, name)} && NestedRefs(v, Mistyped(kind, name)) == {}
  {
    DocumentPointed(kind, name, op, text);
    RefsOfRef(Mistyped(kind, name));
    RefsOfRef(text);
    hide MistypedDocument, Proper, Mistyped, CollectRefs, Pointed;
  }

  lemma PassesChecks(canonical: Value, reference: string)
    requires BeginsLikeComponents(reference) && Pointed(canonical, reference).Some?
    ensures RefProblem(canonical, reference).None?
  {
    hide Pointed;
    assert reference[1..][..11] == reference[1..12];
  }
}
