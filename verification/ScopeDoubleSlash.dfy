/** Documents with a reference that has a double slash behind `components`: scoping succeeds, and the reference
    dangles. */
module ScopeDoubleSlash {
  import opened Wrappers
  import opened Json
  import opened JsonPointer
  import opened OpenApiScope
  import opened PointerEscapes
  import opened ScopeClosure
  import opened ScopeLookalike

  /** The operations refer to one node only, which refers to nothing. */
  ghost predicate OneRef(canonical: Value, ops: seq<Operation>, reference: string) {
    && DocumentProblem(canonical).None? && HeaderProblem(canonical).None?
    && (forall op | op in ops :: OperationProblem(canonical, op).None?)
    && CollectRefs(Object(ScopedPaths(canonical, ops))) == {reference}
    && AllRequirements(canonical, ops) == []
    && RefProblem(canonical, reference).None? && NestedRefs(canonical, reference) == {}
  }

  lemma OneDiscovered(canonical: Value, reference: string, order: seq<string>)
    requires NestedRefs(canonical, reference) == {} && Discovered(canonical, {reference}, order)
    ensures order == [] || order == [reference]
  {
    hide NestedRefs;
    forall k | 0 <= k < |order|
      ensures order[k] == reference
    {
      IsTheOne(canonical, reference, order, k);
    }
    if |order| > 1 { TwoDiffer(order); }
  }

  lemma TwoDiffer(order: seq<string>)
    requires |order| > 1 && forall i, j | 0 <= i < j < |order| :: order[i] != order[j]
    ensures order[0] != order[1]
  {
  }

  lemma {:induction false} IsTheOne(canonical: Value, reference: string, order: seq<string>, k: nat)
    requires NestedRefs(canonical, reference) == {} && Discovered(canonical, {reference}, order) && k < |order|
    ensures order[k] == reference
  {
    hide NestedRefs;
    assert Known(canonical, {reference}, order[..k], order[k]);
    if order[k] != reference {
      var q :| q in order[..k] && order[k] in NestedRefs(canonical, q);
      var j :| 0 <= j < k && order[j] == q;
      IsTheOne(canonical, reference, order, j);
    }
  }

  lemma OneReachable(canonical: Value, reference: string, q: string)
    requires NestedRefs(canonical, reference) == {} && Reachable(canonical, {reference}, q)
    ensures q == reference
  {
    hide NestedRefs;
    var chain :| RefChain(canonical, {reference}, chain) && chain[|chain| - 1] == q;
    ChainStaysInClosedSet(canonical, {reference}, chain, {reference});
  }

  lemma OneInserted(canonical: Value, reference: string)
    requires RefProblem(canonical, reference).None?
    ensures InsertRefs(canonical, [reference]).Some?
  {
    ProblemFreeRef(canonical, reference);
    hide Pointed, InsertionTokens, RefProblem;
    assert [reference][..0] == [];
    InsertIntoNothing(InsertedAt(reference), Pointed(canonical, reference).value);
  }

  lemma {:induction false} InsertIntoNothing(tokens: Tokens, v: Value)
    ensures Insert(Object(map[]), tokens, v).Some?
  {
    if tokens != [] { InsertIntoNothing(tokens[1..], v); }
  }

  lemma OneNotBlocked(canonical: Value, reference: string, pointer: string)
    requires NestedRefs(canonical, reference) == {} && RefProblem(canonical, reference).None?
    ensures !BlockedRef(canonical, {reference}, pointer)
  {
    OneInserted(canonical, reference);
    hide NestedRefs, InsertRefs, Discovered, RefProblem;
    forall order, q
      ensures !BlockedAt(canonical, {reference}, order, q, pointer)
    {
      if Discovered(canonical, {reference}, order + [q]) {
        OneDiscovered(canonical, reference, order + [q]);
      }
    }
  }

  lemma OneRefSucceeds(canonical: Value, ops: seq<Operation>, reference: string, r: Result<Spec, ScopeError>,
                       visited: set<string>)
    requires OneRef(canonical, ops, reference) && Outcome(canonical, ops, r, visited)
    ensures r.Success? && Scopes(canonical, ops, r.value, visited)
    ensures visited == {reference} && SchemeNames(r.value.security) == {}
  {
    hide CollectRefs, OperationProblem, ScopedPaths, RefProblem, AllRequirements, Reachable, NestedRefs, BlockedRef,
         NamedScheme, SchemeInTheWay, Cause, DocumentProblem, HeaderProblem, Gathered, Collected, Required;
    NoneNamed(canonical, ops);
    forall pointer
      ensures !BlockedRef(canonical, {reference}, pointer) && !SchemeInTheWay(canonical, ops, pointer)
    {
      OneNotBlocked(canonical, reference, pointer);
      NoSchemeInTheWay(canonical, ops, pointer);
    }
    forall q | Reachable(canonical, {reference}, q)
      ensures q == reference
    {
      OneReachable(canonical, reference, q);
    }
    if r.Failure? { NoCause(canonical, ops, {reference}, r.error); }
    RootIsReachable(canonical, {reference}, reference);
  }

  /** Scoping succeeds although the only reference, which has a double slash, does not resolve in the result. */
  lemma DoubleSlashPasses(canonical: Value, ops: seq<Operation>, reference: string, r: Result<Spec, ScopeError>,
                          visited: set<string>)
    requires OneRef(canonical, ops, reference) && DoubleSlash(reference) && !WholeRef(reference)
    requires Outcome(canonical, ops, r, visited)
    ensures r.Success? && reference in CollectRefs(Document(r.value))
    ensures Pointed(canonical, reference).Some? && Pointed(Document(r.value), reference).None?
  {
    hide OneRef, Outcome, Scopes, CollectRefs, OperationProblem, ScopedPaths, RefProblem, AllRequirements, NestedRefs,
         WholeRef, DocumentProblem, HeaderProblem, Pointed, Document, DoubleSlash, Collected, SchemeNames,
         InsertionTokens;
    OneRefSucceeds(canonical, ops, reference, r, visited);
    OneRefMeaning(canonical, ops, reference);
    OneCollected(canonical, ops, reference, r.value, visited);
    DoubleSlashDangles(canonical, {reference}, r.value, reference);
    PathsRefs(r.value);
  }

  lemma OneRefMeaning(canonical: Value, ops: seq<Operation>, reference: string)
    requires OneRef(canonical, ops, reference)
    ensures CollectRefs(Object(ScopedPaths(canonical, ops))) == {reference}
    ensures Pointed(canonical, reference).Some?
  {
    ProblemFreeRef(canonical, reference);
    hide CollectRefs, ScopedPaths, OperationProblem, Pointed;
  }

  lemma OneCollected(canonical: Value, ops: seq<Operation>, reference: string, spec: Spec, visited: set<string>)
    requires Scopes(canonical, ops, spec, visited) && visited == {reference} && SchemeNames(spec.security) == {}
    requires CollectRefs(Object(ScopedPaths(canonical, ops))) == {reference}
    ensures Collected(canonical, {reference}, spec.components) && CollectRefs(spec.paths) == {reference}
  {
    hide CollectRefs, OperationProblem, ScopedPaths, AllRequirements, DocumentProblem, Gathered, Collected, Required,
         PlainName, IsReachableSet;
    assert visited + SchemeRefs({}) == {reference};
  }

  lemma PathsRefs(spec: Spec)
    ensures CollectRefs(spec.paths) <= CollectRefs(Document(spec))
  {
    var fields := Document(spec).fields;
    assert fields["paths"] == spec.paths;
    MemberRefs(fields, "paths");
  }

  // ----- There is such a document for every name -----

  function Doubled(name: string): string {
    "#" + COMPONENTS + ("//" + name)
  }

  /** The components have a member with an empty name, which holds the node. */
  function DoubledDocument(name: string, op: Operation, text: string): Value {
    Object(map["openapi" := String("3.1.0"), "info" := Object(map["title" := String(text)]),
               "paths" := Object(map[op.path := Object(map[op.method_ := RefTo(Doubled(name))])]),
               "components" := Object(map["" := Object(map[name := String(text)])])])
  }

  lemma DoubledShape(name: string)
    requires Plain(name)
    ensures DoubleSlash(Doubled(name)) && !WholeRef(Doubled(name))
    ensures Doubled(name)[0] == '#' && Doubled(name)[14..] == name
  {
    Shape("//" + name);
    var rest := "//" + name;
    assert rest[1..] == "/" + name && rest[1..][1..] == name && name[0] in name;
    assert !AllSlashes(name) && !AllSlashes(rest[1..]) && !AllSlashes(rest);
    assert Doubled(name)[14..] == Doubled(name)[12..][2..] == name;
  }

  lemma DoubledPointed(name: string, op: Operation, text: string)
    requires Plain(name)
    ensures Pointed(DoubledDocument(name, op, text), Doubled(name)) == Some(String(text))
  {
    hide Text.Split, Unescape, DoubleSlash, WholeRef, Doubled;
    DoubledShape(name);
    DoubleSlashTokens(Doubled(name));
    SplitAtSlash(name, "");
    NothingToUnescape(name);
    assert UnescapeAll([name]) == [name];
    assert ["components", ""] + [name] == ["components", "", name];
    var v := DoubledDocument(name, op, text);
    LookupThree(v, "components", "", name, String(text));
  }

  lemma DoubledPaths(name: string, op: Operation, text: string)
    requires op.path != "$ref" && op.method_ != "$ref"
    ensures var v := DoubledDocument(name, op, text);
            && DocumentProblem(v).None? && HeaderProblem(v).None?
            && OperationProblem(v, op).None?
            && CollectRefs(Object(ScopedPaths(v, [op]))) == {Doubled(name)}
            && AllRequirements(v, [op]) == []
  {
    hide Doubled, CollectRefs;
    var v := DoubledDocument(name, op, text);
    assert "security"[0] == 's' && "paths"[0] == 'p' && "components"[0] == 'c';
    assert "openapi"[0] == 'o' && "info"[0] == 'i';
    OneOperationPaths(v, op, Doubled(name));
  }

  /** For every name of a component and every operation there is such a document. */
  lemma EveryNameCanBeDoubled(name: string, op: Operation, text: string)
    requires Plain(name) && op.path != "$ref" && op.method_ != "$ref"
    ensures OneRef(DoubledDocument(name, op, text), [op], Doubled(name))
    ensures DoubleSlash(Doubled(name)) && !WholeRef(Doubled(name))
  {
    DoubledShape(name);
    DoubledPointed(name, op, text);
    DoubledPaths(name, op, text);
    RefsOfRef(text);
    hide DoubledDocument, Doubled, CollectRefs, Pointed, OperationProblem, ScopedPaths, AllRequirements,
         DocumentProblem, HeaderProblem, WholeRef, RefProblem;
    PassesChecks(DoubledDocument(name, op, text), Doubled(name));
  }
}
