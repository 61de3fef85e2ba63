/** Scoped OpenAPI documents (`close_scoped_spec` in api-server/src/openapi_docs.rs): some operations of the canonical
    document with exactly the components they need. */
module OpenApiScope {
  import opened Wrappers
  import opened Json
  import opened Text
  import opened JsonPointer
  import opened PointerEscapes
  import Sorting

  datatype Operation = Operation(path: string, method_: string)

  datatype ScopeError =
    | NotAnObject
    | MissingMember(name: string)
    | PathNotFound(path: string)
    | OperationNotFound(operation: Operation)
    | ExternalRef(reference: string)
    | MissingNode(reference: string)
    | NonComponentsRef(reference: string)
    | BlockedInsertion(pointer: string)
    | MissingSecurityScheme(name: string)

  const HTTP_METHODS: seq<string> := ["get", "put", "post", "delete", "options", "head", "patch", "trace"]

  // ----- References in a value -----

  function OwnRef(fields: map<string, Value>): set<string> {
    if "$ref" in fields && fields["$ref"].String? then {fields["$ref"].s} else {}
  }

  function CollectRefs(v: Value): set<string> {
    match v
    case Object(fields) => OwnRef(fields) + (set k, r | k in fields && r in CollectRefs(fields[k]) :: r)
    case Array(items) => set i, r | 0 <= i < |items| && r in CollectRefs(items[i]) :: r
    case _ => {}
  }

  /** The program's collector adds to a set. */
  method CollectRefsInto(v: Value, before: set<string>) returns (refs: set<string>)
    ensures refs == before + CollectRefs(v)
    decreases v
  {
    hide CollectRefs, OwnRef;
    RefsOfValue(v);
    refs := before;
    match v
    case Object(fields) =>
      refs := refs + OwnRef(fields);
      var rest := fields.Keys;
      while rest != {}
        invariant rest <= fields.Keys
        invariant refs == before + OwnRef(fields) + MembersRefs(fields, fields.Keys - rest)
        decreases rest
      {
        var k :| k in rest;
        refs := CollectRefsInto(fields[k], refs);
        MoreMembers(fields, fields.Keys - rest, k);
        assert fields.Keys - (rest - {k}) == (fields.Keys - rest) + {k};
        rest := rest - {k};
      }
      assert fields.Keys - rest == fields.Keys;
    case Array(items) =>
      for i := 0 to |items|
        invariant refs == before + ItemsRefs(items, i)
      {
        refs := CollectRefsInto(items[i], refs);
        MoreItems(items, i);
      }
    case _ =>
  }

  ghost function MembersRefs(fields: map<string, Value>, keys: set<string>): set<string>
    requires keys <= fields.Keys
  {
    set k, r | k in keys && r in CollectRefs(fields[k]) :: r
  }

  ghost function ItemsRefs(items: seq<Value>, n: nat): set<string>
    requires n <= |items|
  {
    set i, r | 0 <= i < n && r in CollectRefs(items[i]) :: r
  }

  lemma RefsOfValue(v: Value)
    ensures match v
            case Object(fields) =>
              && MembersRefs(fields, {}) == {}
              && CollectRefs(v) == OwnRef(fields) + MembersRefs(fields, fields.Keys)
            case Array(items) => ItemsRefs(items, 0) == {} && CollectRefs(v) == ItemsRefs(items, |items|)
            case _ => CollectRefs(v) == {}
  {
  }

  lemma MoreMembers(fields: map<string, Value>, keys: set<string>, key: string)
    requires keys <= fields.Keys && key in fields
    ensures MembersRefs(fields, keys + {key}) == MembersRefs(fields, keys) + CollectRefs(fields[key])
  {
    hide CollectRefs;
  }

  lemma MoreItems(items: seq<Value>, n: nat)
    requires n < |items|
    ensures ItemsRefs(items, n + 1) == ItemsRefs(items, n) + CollectRefs(items[n])
  {
    hide CollectRefs;
  }

  lemma ChildRefs(v: Value, token: string)
    requires Child(v, token).Some?
    ensures CollectRefs(Child(v, token).value) <= CollectRefs(v)
  {
  }

  lemma {:induction false} NodeRefs(v: Value, tokens: Tokens)
    requires Lookup(v, tokens).Some?
    ensures CollectRefs(Lookup(v, tokens).value) <= CollectRefs(v)
    decreases |tokens|
  {
    if tokens != [] {
      ChildRefs(v, tokens[0]);
      NodeRefs(Child(v, tokens[0]).value, tokens[1..]);
    }
  }

  // ----- What a reference names -----

  function Pointed(canonical: Value, reference: string): Option<Value> {
    if reference == "" || reference[0] != '#' then None
    else
      match PointerTokens(reference[1..])
      case None => None
      case Some(tokens) => Lookup(canonical, tokens)
  }

  function RefProblem(canonical: Value, reference: string): Option<ScopeError> {
    if reference == "" || reference[0] != '#' then Some(ExternalRef(reference))
    else if Pointed(canonical, reference).None? then Some(MissingNode(reference))
    else if !(COMPONENTS <= reference[1..]) then Some(NonComponentsRef(reference))
    else None
  }

  function NestedRefs(canonical: Value, reference: string): set<string> {
    if Pointed(canonical, reference).Some? then CollectRefs(Pointed(canonical, reference).value) else {}
  }

  /** Each reference of the chain occurs in the node the one before it names. */
  ghost predicate RefChain(canonical: Value, roots: set<string>, chain: seq<string>) {
    && chain != [] && chain[0] in roots
    && forall i, j | 0 <= i < j < |chain| && j == i + 1 :: chain[j] in NestedRefs(canonical, chain[i])
  }

  ghost predicate Reachable(canonical: Value, roots: set<string>, reference: string) {
    exists chain :: RefChain(canonical, roots, chain) && chain[|chain| - 1] == reference
  }

  lemma RootIsReachable(canonical: Value, roots: set<string>, reference: string)
    requires reference in roots
    ensures Reachable(canonical, roots, reference)
  {
    assert RefChain(canonical, roots, [reference]);
  }

  lemma NestedIsReachable(canonical: Value, roots: set<string>, reference: string, nested: string)
    requires Reachable(canonical, roots, reference) && nested in NestedRefs(canonical, reference)
    ensures Reachable(canonical, roots, nested)
  {
    var chain :| RefChain(canonical, roots, chain) && chain[|chain| - 1] == reference;
    var longer := chain + [nested];
    forall i, j | 0 <= i < j < |longer| && j == i + 1
      ensures longer[j] in NestedRefs(canonical, longer[i])
    {
      if j < |chain| { assert chain[j] in NestedRefs(canonical, chain[i]); }
    }
    assert RefChain(canonical, roots, longer);
  }

  lemma {:induction false} ChainStaysInClosedSet(canonical: Value, roots: set<string>, chain: seq<string>,
                                                 closed: set<string>)
    requires RefChain(canonical, roots, chain) && roots <= closed
    requires forall r | r in closed :: NestedRefs(canonical, r) <= closed
    ensures chain[|chain| - 1] in closed
    decreases |chain|
  {
    if |chain| > 1 {
      var front := chain[..|chain| - 1];
      assert RefChain(canonical, roots, front) by {
        forall i, j | 0 <= i < j < |front| && j == i + 1
          ensures front[j] in NestedRefs(canonical, front[i])
        {
          assert chain[j] in NestedRefs(canonical, chain[i]);
        }
      }
      ChainStaysInClosedSet(canonical, roots, front, closed);
      assert chain[|chain| - 1] in NestedRefs(canonical, chain[|chain| - 2]);
    }
  }

  /** Reachability from several sets of roots is reachability from one of them. */
  lemma ReachableFromUnion(canonical: Value, roots: set<string>, parts: seq<set<string>>, reference: string)
    requires forall r :: r in roots <==> exists i :: 0 <= i < |parts| && r in parts[i]
    ensures Reachable(canonical, roots, reference) <==>
            exists i :: 0 <= i < |parts| && Reachable(canonical, parts[i], reference)
  {
    if Reachable(canonical, roots, reference) {
      var chain :| RefChain(canonical, roots, chain) && chain[|chain| - 1] == reference;
      var i :| 0 <= i < |parts| && chain[0] in parts[i];
      assert RefChain(canonical, parts[i], chain);
    }
    if i :| 0 <= i < |parts| && Reachable(canonical, parts[i], reference) {
      var chain :| RefChain(canonical, parts[i], chain) && chain[|chain| - 1] == reference;
      assert RefChain(canonical, roots, chain);
    }
  }

  // ----- The worklist -----

  /** The tokens among the components that a reference is inserted at. */
  function InsertedAt(reference: string): Tokens
    requires |reference| >= 12
  {
    InsertionTokens(reference[12..])
  }

  /** The references visited so far are reachable, name components, and what they contain is visited or waits. */
  ghost predicate WorklistState(canonical: Value, roots: set<string>, visited: set<string>, pending: set<string>) {
    && (forall r | r in visited + pending :: Reachable(canonical, roots, r))
    && (forall r | r in visited :: RefProblem(canonical, r).None?)
    && roots <= visited + pending
    && (forall r | r in visited :: NestedRefs(canonical, r) <= visited + pending)
  }

  ghost predicate AllComponentRefs(references: set<string>) {
    forall r | r in references :: ComponentRef(r)
  }

  /** If all visited references are proper, each has its canonical value among the components. Nothing is there
      that does not lead to or belong to a visited reference. */
  ghost predicate Collected(canonical: Value, visited: set<string>, components: Value) {
    && (forall r | r in visited :: RefProblem(canonical, r).None? && |r| >= 12)
    && (AllComponentRefs(visited) ==>
          forall r | r in visited :: Lookup(components, InsertedAt(r)) == Pointed(canonical, r))
    && (forall q | Lookup(components, q).Some? :: q == [] || LeadsToVisited(visited, q))
  }

  ghost predicate LeadsToVisited(visited: set<string>, q: Tokens) {
    exists r :: r in visited && |r| >= 12 && Comparable(q, InsertedAt(r))
  }

  lemma ProblemFreeRef(canonical: Value, reference: string)
    requires RefProblem(canonical, reference).None?
    ensures |reference| >= 12 && reference[0] == '#' && reference[1..12] == COMPONENTS
    ensures Pointed(canonical, reference).Some?
  {
    assert reference[1..][..11] == COMPONENTS;
  }

  lemma PointedComponent(canonical: Value, reference: string)
    requires ComponentRef(reference)
    ensures Pointed(canonical, reference) ==
            if Child(canonical, "components").Some?
            then Lookup(Child(canonical, "components").value, InsertedAt(reference)) else None
  {
    ComponentRefTokens(reference);
    assert (["components"] + InsertedAt(reference))[1..] == InsertedAt(reference);
  }

  lemma NothingCollected(canonical: Value)
    ensures Collected(canonical, {}, Object(map[]))
  {
  }

  lemma KeepsCollected(canonical: Value, components: Value, kept: string, reference: string, after: Value)
    requires ComponentRef(kept) && ComponentRef(reference)
    requires Pointed(canonical, kept).Some? && Pointed(canonical, reference).Some?
    requires Lookup(components, InsertedAt(kept)) == Pointed(canonical, kept)
    requires Insert(components, InsertedAt(reference), Pointed(canonical, reference).value) == Some(after)
    ensures Lookup(after, InsertedAt(kept)) == Pointed(canonical, kept)
  {
    hide InsertionTokens, Pointed, Lookup, Insert;
    PointedComponent(canonical, kept);
    PointedComponent(canonical, reference);
    InsertKeepsCopies(Child(canonical, "components").value, components, InsertedAt(reference), InsertedAt(kept));
  }

  lemma CollectOne(canonical: Value, visited: set<string>, components: Value, reference: string, after: Value)
    requires Collected(canonical, visited, components)
    requires RefProblem(canonical, reference).None? && |reference| >= 12 && Pointed(canonical, reference).Some?
    requires Insert(components, InsertedAt(reference), Pointed(canonical, reference).value) == Some(after)
    ensures Collected(canonical, visited + {reference}, after)
  {
    hide Insert, Lookup, RefProblem, InsertionTokens, Pointed, ComponentRef, Comparable;
    var all := visited + {reference};
    if AllComponentRefs(all) {
      forall r | r in all
        ensures Lookup(after, InsertedAt(r)) == Pointed(canonical, r)
      {
        if r == reference {
          InsertThenLookup(components, InsertedAt(reference), Pointed(canonical, reference).value);
        } else {
          assert ComponentRef(r) && ComponentRef(reference);
          ProblemFreeRef(canonical, r);
          KeepsCollected(canonical, components, r, reference, after);
        }
      }
    }
    forall q | Lookup(after, q).Some?
      ensures q == [] || LeadsToVisited(all, q)
    {
      InsertAddsOnlyItsWay(components, InsertedAt(reference), Pointed(canonical, reference).value, q);
      if LeadsToVisited(visited, q) {
        var r :| r in visited && |r| >= 12 && Comparable(q, InsertedAt(r));
        assert r in all;
      }
    }
  }

  // ----- Two-segment references -----

  /** `#/components/<kind>/<name>`. */
  predicate NamesComponent(reference: string) {
    ComponentRef(reference) && |InsertedAt(reference)| == 2
  }

  predicate TwoLevels(v: Value) {
    v.Object? && forall k | k in v.fields :: v.fields[k].Object?
  }

  lemma InsertTwoLevels(v: Value, tokens: Tokens, x: Value)
    requires TwoLevels(v) && |tokens| == 2
    ensures Insert(v, tokens, x).Some? && TwoLevels(Insert(v, tokens, x).value)
  {
    var child := if tokens[0] in v.fields then v.fields[tokens[0]] else Object(map[]);
    assert Insert(Object(map[]), [], x) == Some(x);
    assert tokens[1..][1..] == [];
    assert Insert(child, tokens[1..], x).Some? && Insert(child, tokens[1..], x).value.Object?;
  }

  lemma ListsMeaning(list: seq<string>, elements: set<string>)
    requires Sorting.Lists(list, elements)
    ensures forall x :: x in list <==> x in elements
    ensures AsSet(list) == elements
  {
  }

  ghost predicate IsReachableSet(canonical: Value, roots: set<string>, visited: set<string>) {
    forall r :: r in visited <==> Reachable(canonical, roots, r)
  }

  lemma WorklistDone(canonical: Value, roots: set<string>, visited: set<string>)
    requires WorklistState(canonical, roots, visited, {})
    ensures IsReachableSet(canonical, roots, visited)
  {
    assert visited + {} == visited;
    forall r | Reachable(canonical, roots, r)
      ensures r in visited
    {
      var chain :| RefChain(canonical, roots, chain) && chain[|chain| - 1] == r;
      ChainStaysInClosedSet(canonical, roots, chain, visited);
    }
  }

  lemma VisitOne(canonical: Value, roots: set<string>, visited: set<string>, pending: set<string>, reference: string)
    requires WorklistState(canonical, roots, visited, pending + {reference})
    requires RefProblem(canonical, reference).None?
    ensures WorklistState(canonical, roots, visited + {reference}, pending + NestedRefs(canonical, reference))
  {
    hide RefProblem, NestedRefs, Reachable;
    assert reference in visited + (pending + {reference});
    forall r | r in (visited + {reference}) + (pending + NestedRefs(canonical, reference))
      ensures Reachable(canonical, roots, r)
    {
      if r in NestedRefs(canonical, reference) {
        NestedIsReachable(canonical, roots, reference, r);
      } else {
        assert r in visited + (pending + {reference});
      }
    }
  }

  ghost function AsSet(s: seq<string>): set<string> {
    set x | x in s
  }

  lemma EmptyIsTwoLevels()
    ensures TwoLevels(Object(map[]))
  {
  }

  lemma StartWorklist(canonical: Value, roots: set<string>, pending: seq<string>)
    requires forall x :: x in pending <==> x in roots
    ensures WorklistState(canonical, roots, {}, AsSet(pending))
  {
    forall r | r in roots
      ensures Reachable(canonical, roots, r)
    {
      RootIsReachable(canonical, roots, r);
    }
  }

  lemma PopPending(canonical: Value, roots: set<string>, visited: set<string>, pending: seq<string>)
    requires pending != [] && WorklistState(canonical, roots, visited, AsSet(pending))
    ensures var (rest, reference) := (pending[..|pending| - 1], pending[|pending| - 1]);
            && WorklistState(canonical, roots, visited, AsSet(rest) + {reference})
            && Reachable(canonical, roots, reference)
            && (reference in visited ==> WorklistState(canonical, roots, visited, AsSet(rest)))
  {
    hide Reachable, RefProblem, NestedRefs;
    var rest, reference := pending[..|pending| - 1], pending[|pending| - 1];
    assert pending == rest + [reference];
    assert AsSet(pending) == AsSet(rest) + {reference};
    assert reference in visited + AsSet(pending);
    if reference in visited { assert visited + AsSet(rest) == visited + AsSet(pending); }
  }

  lemma NestedRefsOf(canonical: Value, reference: string)
    requires Pointed(canonical, reference).Some?
    ensures NestedRefs(canonical, reference) == {} + CollectRefs(Pointed(canonical, reference).value)
  {
  }

  lemma NestedInDocument(canonical: Value, reference: string)
    ensures NestedRefs(canonical, reference) <= CollectRefs(canonical)
  {
    if Pointed(canonical, reference).Some? { NodeRefs(canonical, PointerTokens(reference[1..]).value); }
  }

  lemma InsertSimple(components: Value, reference: string, node: Value)
    requires TwoLevels(components) && NamesComponent(reference)
    ensures Insert(components, InsertedAt(reference), node).Some?
    ensures TwoLevels(Insert(components, InsertedAt(reference), node).value)
  {
    InsertTwoLevels(components, InsertedAt(reference), node);
  }

  lemma ReachableHaveNoProblem(canonical: Value, roots: set<string>, visited: set<string>, components: Value)
    requires IsReachableSet(canonical, roots, visited) && Collected(canonical, visited, components)
    ensures forall q | Reachable(canonical, roots, q) :: RefProblem(canonical, q).None?
  {
  }

  // ----- The order of discovery -----

  /** Inserts the node that a reference names. */
  function InsertRef(canonical: Value, components: Value, reference: string): Option<Value> {
    if |reference| >= 12 && Pointed(canonical, reference).Some?
    then Insert(components, InsertedAt(reference), Pointed(canonical, reference).value)
    else None
  }

  function InsertRefs(canonical: Value, order: seq<string>): Option<Value> {
    if order == [] then Some(Object(map[]))
    else
      match InsertRefs(canonical, order[..|order| - 1])
      case None => None
      case Some(components) => InsertRef(canonical, components, order[|order| - 1])
  }

  /** The reference is a root or occurs in a node that is named by one of these. */
  ghost predicate Known(canonical: Value, roots: set<string>, before: seq<string>, reference: string) {
    reference in roots || exists q <- before :: reference in NestedRefs(canonical, q)
  }

  /** Each reference once, and none before it is known. */
  ghost predicate Discovered(canonical: Value, roots: set<string>, order: seq<string>) {
    && (forall i, j | 0 <= i < j < |order| :: order[i] != order[j])
    && forall k | 0 <= k < |order| :: Known(canonical, roots, order[..k], order[k])
  }

  /** After a discovery the node of the next reference cannot be inserted, because the way leads through a value that is
      not an object. */
  ghost predicate BlockedRef(canonical: Value, roots: set<string>, pointer: string) {
    exists order, q :: BlockedAt(canonical, roots, order, q, pointer)
  }

  ghost predicate BlockedAt(canonical: Value, roots: set<string>, order: seq<string>, q: string, pointer: string) {
    && Discovered(canonical, roots, order + [q]) && RefProblem(canonical, q).None? && |q| >= 12 && pointer == q[12..]
    && InsertRefs(canonical, order).Some? && InsertRefs(canonical, order + [q]).None?
  }

  lemma NothingDiscovered(canonical: Value, roots: set<string>)
    ensures Discovered(canonical, roots, []) && InsertRefs(canonical, []) == Some(Object(map[]))
  {
  }

  lemma DiscoverOne(canonical: Value, roots: set<string>, order: seq<string>, reference: string)
    requires Discovered(canonical, roots, order) && reference !in order && Known(canonical, roots, order, reference)
    ensures Discovered(canonical, roots, order + [reference])
    ensures InsertRefs(canonical, order).Some? ==>
              InsertRefs(canonical, order + [reference]) ==
              InsertRef(canonical, InsertRefs(canonical, order).value, reference)
  {
    hide Known, InsertRef;
    var more := order + [reference];
    assert more[..|order|] == order;
    forall k | 0 <= k < |more|
      ensures Known(canonical, roots, more[..k], more[k])
    {
      if k < |order| { assert more[..k] == order[..k]; }
    }
  }

  ghost predicate AllKnown(canonical: Value, roots: set<string>, before: seq<string>, pending: seq<string>) {
    forall r <- pending :: Known(canonical, roots, before, r)
  }

  lemma RootsKnown(canonical: Value, roots: set<string>, pending: seq<string>)
    requires forall x :: x in pending <==> x in roots
    ensures AllKnown(canonical, roots, [], pending)
  {
    hide NestedRefs;
  }

  lemma StillKnown(canonical: Value, roots: set<string>, before: seq<string>, pending: seq<string>, reference: string,
                   nested: seq<string>)
    requires AllKnown(canonical, roots, before, pending)
    requires forall x :: x in nested ==> x in NestedRefs(canonical, reference)
    ensures AllKnown(canonical, roots, before + [reference], pending + nested)
  {
    hide NestedRefs;
    var after := before + [reference];
    forall r | r in pending + nested
      ensures Known(canonical, roots, after, r)
    {
      if r in pending {
        assert Known(canonical, roots, before, r);
        if r !in roots {
          var q :| q in before && r in NestedRefs(canonical, q);
          assert q in after;
        }
      } else {
        assert reference in after;
      }
    }
  }

  lemma LastKnown(canonical: Value, roots: set<string>, before: seq<string>, pending: seq<string>)
    requires pending != [] && AllKnown(canonical, roots, before, pending)
    ensures Known(canonical, roots, before, pending[|pending| - 1])
    ensures AllKnown(canonical, roots, before, pending[..|pending| - 1])
  {
    hide Known;
    assert pending[|pending| - 1] in pending;
    assert forall x | x in pending[..|pending| - 1] :: x in pending;
  }

  lemma InsertRefMeaning(canonical: Value, components: Value, reference: string)
    requires |reference| >= 12 && Pointed(canonical, reference).Some?
    ensures InsertRef(canonical, components, reference) ==
            Insert(components, InsertedAt(reference), Pointed(canonical, reference).value)
  {
  }

  lemma IsBlocked(canonical: Value, roots: set<string>, order: seq<string>, q: string)
    requires Discovered(canonical, roots, order + [q]) && RefProblem(canonical, q).None? && |q| >= 12
    requires InsertRefs(canonical, order).Some? && InsertRefs(canonical, order + [q]).None?
    ensures BlockedRef(canonical, roots, q[12..])
  {
    assert BlockedAt(canonical, roots, order, q, q[12..]);
  }

  lemma AsSetSnoc(s: seq<string>, x: string)
    ensures AsSet(s + [x]) == AsSet(s) + {x}
  {
  }

  /** Main result: the worklist stops, also on cyclic schemas, and has then visited exactly the references reachable
      from the roots; or it reports a reachable reference that is external, dangling or not among the components.
      With two-segment references nothing else can go wrong. */
  method CollectComponents(canonical: Value, roots: set<string>)
    returns (r: Result<Value, ScopeError>, visited: set<string>, ghost order: seq<string>)
    ensures r.Success? ==>
              && Discovered(canonical, roots, order) && AsSet(order) == visited
              && InsertRefs(canonical, order) == Some(r.value)
    ensures r.Failure? && r.error.BlockedInsertion? ==> BlockedRef(canonical, roots, r.error.pointer)
    ensures r.Success? ==> IsReachableSet(canonical, roots, visited) && Collected(canonical, visited, r.value)
    ensures r.Failure? && !r.error.BlockedInsertion? ==>
              exists q :: Reachable(canonical, roots, q) && RefProblem(canonical, q) == Some(r.error)
    ensures (forall q | Reachable(canonical, roots, q) :: NamesComponent(q)) ==>
              (r.Success? <==> forall q | Reachable(canonical, roots, q) :: RefProblem(canonical, q).None?)
    ensures r.Success? && (forall q | Reachable(canonical, roots, q) :: NamesComponent(q)) ==> TwoLevels(r.value)
  {
    hide RefProblem, Pointed, NestedRefs, Reachable, WorklistState, Collected, NamesComponent, CollectRefs, Insert,
         InsertionTokens, IsReachableSet, TwoLevels, Discovered, InsertRefs, InsertRef, AllKnown, Known,
         Sorting.Lists, BlockedRef;
    var components := Object(map[]);
    var pending := Sorting.Sort(roots);
    ListsMeaning(pending, roots);
    order := [];
    NothingDiscovered(canonical, roots);
    RootsKnown(canonical, roots, pending);
    visited := {};
    ghost var simple := forall q | Reachable(canonical, roots, q) :: NamesComponent(q);
    ghost var universe := roots + CollectRefs(canonical);
    StartWorklist(canonical, roots, pending);
    NothingCollected(canonical);
    EmptyIsTwoLevels();
    while pending != []
      invariant visited <= universe && AsSet(pending) <= universe
      invariant WorklistState(canonical, roots, visited, AsSet(pending))
      invariant Collected(canonical, visited, components)
      invariant simple ==> TwoLevels(components)
      invariant Discovered(canonical, roots, order) && AsSet(order) == visited
      invariant InsertRefs(canonical, order) == Some(components)
      invariant AllKnown(canonical, roots, order, pending)
      decreases universe - visited, |pending|
    {
      var reference := pending[|pending| - 1];
      PopPending(canonical, roots, visited, pending);
      assert reference in AsSet(pending);
      LastKnown(canonical, roots, order, pending);
      pending := pending[..|pending| - 1];
      if reference !in visited {
        var problem := RefProblem(canonical, reference);
        if problem.Some? {
          RefProblemKind(canonical);
          return Failure(problem.value), visited, order;
        }
        ProblemFreeRef(canonical, reference);
        var node := Pointed(canonical, reference).value;
        var after := Insert(components, InsertedAt(reference), node);
        if simple { InsertSimple(components, reference, node); }
        DiscoverOne(canonical, roots, order, reference);
        InsertRefMeaning(canonical, components, reference);
        if after.None? {
          IsBlocked(canonical, roots, order, reference);
          return Failure(BlockedInsertion(reference[12..])), visited, order;
        }
        CollectOne(canonical, visited, components, reference, after.value);
        VisitOne(canonical, roots, visited, AsSet(pending), reference);
        NestedInDocument(canonical, reference);
        components := after.value;
        visited := visited + {reference};
        var nestedRefs := CollectRefsInto(node, {});
        NestedRefsOf(canonical, reference);
        var nested := Sorting.Sort(nestedRefs);
        ListsMeaning(nested, nestedRefs);
        StillKnown(canonical, roots, order, pending, reference, nested);
        AsSetSnoc(order, reference);
        order := order + [reference];
        assert AsSet(pending + nested) == AsSet(pending) + NestedRefs(canonical, reference);
        pending := pending + nested;
      }
    }
    assert AsSet(pending) == {};
    WorklistDone(canonical, roots, visited);
    ReachableHaveNoProblem(canonical, roots, visited, components);
    r := Success(components);
  }

  // ----- Scoped paths -----

  /** The canonical document is not an object with paths. */
  function DocumentProblem(canonical: Value): Option<ScopeError> {
    var paths := Get(canonical, "paths");
    if !canonical.Object? then Some(NotAnObject)
    else if paths.None? || !paths.value.Object? then Some(MissingMember("paths"))
    else None
  }

  /** A member that every scoped document copies is not there. */
  function HeaderProblem(canonical: Value): Option<ScopeError> {
    if Get(canonical, "openapi").None? then Some(MissingMember("openapi"))
    else if Get(canonical, "info").None? then Some(MissingMember("info"))
    else None
  }

  function PathsOf(canonical: Value): map<string, Value> {
    var paths := Get(canonical, "paths");
    if paths.Some? && paths.value.Object? then paths.value.fields else map[]
  }

  function OperationProblem(canonical: Value, op: Operation): Option<ScopeError> {
    var paths := PathsOf(canonical);
    if op.path !in paths || !paths[op.path].Object? then Some(PathNotFound(op.path))
    else if op.method_ !in paths[op.path].fields then Some(OperationNotFound(op))
    else None
  }

  /** Of a path item the operation itself and everything that is not an operation. */
  function Picked(canonical: Value, op: Operation): map<string, Value>
    requires OperationProblem(canonical, op).None?
  {
    var item := PathsOf(canonical)[op.path].fields;
    map key | key in item && (key == op.method_ || key !in HTTP_METHODS) :: item[key]
  }

  /** The path items of the operations, those of one path merged. */
  function ScopedPaths(canonical: Value, ops: seq<Operation>): (r: map<string, Value>)
    requires forall op | op in ops :: OperationProblem(canonical, op).None?
    ensures forall p | p in r :: r[p].Object? && p in PathsOf(canonical) && PathsOf(canonical)[p].Object?
    ensures forall p, k | p in r && k in r[p].fields ::
              k in PathsOf(canonical)[p].fields && r[p].fields[k] == PathsOf(canonical)[p].fields[k]
  {
    if ops == [] then map[]
    else
      var before, op := ScopedPaths(canonical, ops[..|ops| - 1]), ops[|ops| - 1];
      var existing := if op.path in before then before[op.path].fields else map[];
      before[op.path := Object(Picked(canonical, op) + existing)]
  }

  /** The loops over the operations and over the members of their path items. What is there already stays. */
  method BuildScopedPaths(canonical: Value, ops: seq<Operation>) returns (scoped: map<string, Value>)
    requires forall op | op in ops :: OperationProblem(canonical, op).None?
    ensures scoped == ScopedPaths(canonical, ops)
  {
    hide OperationProblem, PathsOf, Picked, Keeps, ScopedPaths;
    scoped := map[];
    NoScopedPaths(canonical);
    for i := 0 to |ops|
      invariant forall op | op in ops[..i] :: OperationProblem(canonical, op).None?
      invariant scoped == ScopedPaths(canonical, ops[..i])
    {
      var op := ops[i];
      assert ops[..i + 1] == ops[..i] + [op];
      PickedFromItem(canonical, op);
      var existing := if op.path in scoped then scoped[op.path].fields else map[];
      var kept := KeepMembers(PathsOf(canonical)[op.path].fields, op.method_, existing);
      KeptIsPicked(canonical, op, existing, kept);
      ScopedPathsSnoc(canonical, ops[..i], op);
      scoped := scoped[op.path := Object(kept)];
    }
    assert ops[..|ops|] == ops;
  }

  lemma NoScopedPaths(canonical: Value)
    ensures ScopedPaths(canonical, []) == map[]
  {
  }

  lemma ScopedPathsSnoc(canonical: Value, ops: seq<Operation>, op: Operation)
    requires forall o | o in ops + [op] :: OperationProblem(canonical, o).None?
    requires forall o | o in ops :: OperationProblem(canonical, o).None?
    requires OperationProblem(canonical, op).None?
    ensures var before := ScopedPaths(canonical, ops);
            var existing := if op.path in before then before[op.path].fields else map[];
            ScopedPaths(canonical, ops + [op]) == before[op.path := Object(Picked(canonical, op) + existing)]
  {
    assert (ops + [op])[..|ops|] == ops;
  }

  /** The existing members, and of the item the operation and everything that is not an operation. */
  ghost predicate Keeps(item: map<string, Value>, method_: string, existing: map<string, Value>,
                        kept: map<string, Value>)
  {
    && (forall k :: k in kept <==> k in existing || (k in item && (k == method_ || k !in HTTP_METHODS)))
    && forall k | k in kept :: kept[k] == if k in existing then existing[k] else item[k]
  }

  method KeepMembers(item: map<string, Value>, method_: string, existing: map<string, Value>)
    returns (kept: map<string, Value>)
    ensures Keeps(item, method_, existing, kept)
  {
    kept := existing;
    var rest := item.Keys;
    while rest != {}
      invariant rest <= item.Keys
      invariant forall k :: k in kept <==>
                  k in existing || (k in item.Keys - rest && (k == method_ || k !in HTTP_METHODS))
      invariant forall k | k in kept :: kept[k] == if k in existing then existing[k] else item[k]
      decreases rest
    {
      var k :| k in rest;
      rest := rest - {k};
      if (k == method_ || k !in HTTP_METHODS) && k !in kept {
        kept := kept[k := item[k]];
      }
    }
  }

  lemma KeptIsPicked(canonical: Value, op: Operation, existing: map<string, Value>, kept: map<string, Value>)
    requires OperationProblem(canonical, op).None?
    requires Keeps(PathsOf(canonical)[op.path].fields, op.method_, existing, kept)
    ensures kept == Picked(canonical, op) + existing
  {
  }

  lemma MergedRefs(a: map<string, Value>, b: map<string, Value>)
    requires forall k | k in a && k in b :: a[k] == b[k]
    ensures CollectRefs(Object(a + b)) == CollectRefs(Object(a)) + CollectRefs(Object(b))
  {
    var c := a + b;
    forall r
      ensures r in CollectRefs(Object(c)) <==> r in CollectRefs(Object(a)) || r in CollectRefs(Object(b))
    {
      if k :| k in a && r in CollectRefs(a[k]) { assert k in c && c[k] == a[k]; }
      if k :| k in b && r in CollectRefs(b[k]) { assert k in c && c[k] == b[k]; }
      if k :| k in c && r in CollectRefs(c[k]) { assert (k in a && c[k] == a[k]) || (k in b && c[k] == b[k]); }
    }
  }

  lemma UpdatedRefs(m: map<string, Value>, key: string, v: Value)
    requires v.Object? && forall k | k in m :: m[k].Object?
    requires key in m ==> CollectRefs(m[key]) <= CollectRefs(v)
    ensures CollectRefs(Object(m[key := v])) == CollectRefs(Object(m)) + CollectRefs(v)
  {
    var c := m[key := v];
    forall r
      ensures r in CollectRefs(Object(c)) <==> r in CollectRefs(Object(m)) || r in CollectRefs(v)
    {
      if k :| k in m && r in CollectRefs(m[k]) { assert k in c; }
      if r in CollectRefs(v) { assert key in c && c[key] == v; }
    }
  }

  ghost predicate PickedRef(canonical: Value, ops: seq<Operation>, r: string)
    requires forall op | op in ops :: OperationProblem(canonical, op).None?
  {
    exists i :: 0 <= i < |ops| && r in CollectRefs(Object(Picked(canonical, ops[i])))
  }

  /** The roots of a scope are those of its operations together. */
  lemma {:induction false} ScopedRoots(canonical: Value, ops: seq<Operation>)
    requires forall op | op in ops :: OperationProblem(canonical, op).None?
    ensures forall r :: r in CollectRefs(Object(ScopedPaths(canonical, ops))) <==> PickedRef(canonical, ops, r)
  {
    hide CollectRefs, Picked, OperationProblem;
    if ops == [] {
      NoRefs();
    } else {
      var front, op := ops[..|ops| - 1], ops[|ops| - 1];
      assert ops == front + [op];
      ScopedRoots(canonical, front);
      var before := ScopedPaths(canonical, front);
      var existing := if op.path in before then before[op.path].fields else map[];
      var picked := Picked(canonical, op);
      PickedFromItem(canonical, op);
      MergedRefs(picked, existing);
      UpdatedRefs(before, op.path, Object(picked + existing));
      if op.path in before {
        assert Object(existing) == before[op.path];
        MemberRefs(before, op.path);
      } else {
        NoRefs();
      }
      forall r
        ensures PickedRef(canonical, ops, r) <==> PickedRef(canonical, front, r) || r in CollectRefs(Object(picked))
      {
        if i :| 0 <= i < |front| && r in CollectRefs(Object(Picked(canonical, front[i]))) { assert ops[i] == front[i]; }
        if r in CollectRefs(Object(picked)) { assert ops[|ops| - 1] == op; }
      }
    }
  }

  lemma NoRefs()
    ensures CollectRefs(Object(map[])) == {}
  {
  }

  lemma MemberRefs(m: map<string, Value>, key: string)
    requires key in m
    ensures CollectRefs(m[key]) <= CollectRefs(Object(m))
  {
  }

  lemma PickedFromItem(canonical: Value, op: Operation)
    requires OperationProblem(canonical, op).None?
    ensures op.path in PathsOf(canonical) && PathsOf(canonical)[op.path].Object?
    ensures forall k | k in Picked(canonical, op) ::
              && k in PathsOf(canonical)[op.path].fields
              && Picked(canonical, op)[k] == PathsOf(canonical)[op.path].fields[k]
  {
  }

  // ----- Security -----

  /** The operation's own requirements, or else those of the document. */
  function RequirementsOf(canonical: Value, op: Operation): seq<Value> {
    var item := GetIn(Get(canonical, "paths"), op.path);
    var own := AsArray(GetIn(GetIn(item, op.method_), "security"));
    var default := AsArray(Get(canonical, "security"));
    if own.Some? then own.value else if default.Some? then default.value else []
  }

  function AllRequirements(canonical: Value, ops: seq<Operation>): seq<Value> {
    if ops == [] then []
    else AllRequirements(canonical, ops[..|ops| - 1]) + RequirementsOf(canonical, ops[|ops| - 1])
  }

  /** Each value once, where it occurs first. */
  function FirstOccurrences(values: seq<Value>): (r: seq<Value>)
    ensures forall v :: v in r <==> v in values
    ensures forall i, j | 0 <= i < j < |r| :: r[i] != r[j]
  {
    if values == [] then []
    else
      var before, last := FirstOccurrences(values[..|values| - 1]), values[|values| - 1];
      assert values == values[..|values| - 1] + [last];
      if last in before then before else before + [last]
  }

  ghost predicate FirstProblem(canonical: Value, ops: seq<Operation>, error: ScopeError) {
    exists i :: 0 <= i < |ops| && ProblemAt(canonical, ops, i, error)
  }

  ghost predicate ProblemAt(canonical: Value, ops: seq<Operation>, i: nat, error: ScopeError)
    requires i < |ops|
  {
    && OperationProblem(canonical, ops[i]) == Some(error)
    && forall op <- ops[..i] :: OperationProblem(canonical, op).None?
  }

  /** Requirements of all operations in order, each once. Fails at the first unknown operation. */
  method CollectRequirements(canonical: Value, ops: seq<Operation>) returns (r: Result<seq<Value>, ScopeError>)
    ensures r.Success? <==> forall op | op in ops :: OperationProblem(canonical, op).None?
    ensures r.Success? ==> r.value == FirstOccurrences(AllRequirements(canonical, ops))
    ensures r.Success? ==> forall v :: v in r.value <==> Required(canonical, ops, v)
    ensures r.Failure? ==> FirstProblem(canonical, ops, r.error)
  {
    hide OperationProblem, RequirementsOf, FirstOccurrences, Required;
    var collected := [];
    NoOccurrences(canonical);
    for i := 0 to |ops|
      invariant forall op | op in ops[..i] :: OperationProblem(canonical, op).None?
      invariant collected == FirstOccurrences(AllRequirements(canonical, ops[..i]))
    {
      assert ops[..i + 1] == ops[..i] + [ops[i]];
      assert ops[..i + 1][..i] == ops[..i];
      var problem := OperationProblem(canonical, ops[i]);
      if problem.Some? {
        assert ops[i] in ops && ProblemAt(canonical, ops, i, problem.value);
        return Failure(problem.value);
      }
      collected := CollectNew(collected, RequirementsOf(canonical, ops[i]), AllRequirements(canonical, ops[..i]));
    }
    assert ops[..|ops|] == ops;
    RequiredIffListed(canonical, ops);
    r := Success(collected);
  }

  /** The loop over the requirements of one operation. */
  method CollectNew(before: seq<Value>, requirements: seq<Value>, ghost all: seq<Value>) returns (collected: seq<Value>)
    requires before == FirstOccurrences(all)
    ensures collected == FirstOccurrences(all + requirements)
  {
    hide FirstOccurrences;
    collected := before;
    assert all + requirements[..0] == all;
    for j := 0 to |requirements|
      invariant collected == FirstOccurrences(all + requirements[..j])
    {
      OccurrencesSnoc(all + requirements[..j], requirements[j]);
      assert (all + requirements[..j]) + [requirements[j]] == all + requirements[..j + 1];
      if requirements[j] !in collected {
        collected := collected + [requirements[j]];
      }
    }
    assert requirements[..|requirements|] == requirements;
  }

  lemma NoOccurrences(canonical: Value)
    ensures FirstOccurrences(AllRequirements(canonical, [])) == []
  {
  }

  lemma OccurrencesSnoc(values: seq<Value>, v: Value)
    ensures var before := FirstOccurrences(values);
            FirstOccurrences(values + [v]) == if v in before then before else before + [v]
  {
    assert (values + [v])[..|values|] == values;
  }

  lemma {:induction false} RequiredIffListed(canonical: Value, ops: seq<Operation>)
    ensures forall v :: v in AllRequirements(canonical, ops) <==> Required(canonical, ops, v)
  {
    hide RequirementsOf;
    if ops != [] {
      var front, last := ops[..|ops| - 1], ops[|ops| - 1];
      RequiredIffListed(canonical, front);
      assert ops == front + [last];
      RequiredSnoc(canonical, front, last);
      hide Required;
    }
  }

  ghost predicate Required(canonical: Value, ops: seq<Operation>, v: Value) {
    exists i :: 0 <= i < |ops| && v in RequirementsOf(canonical, ops[i])
  }

  lemma RequiredSnoc(canonical: Value, ops: seq<Operation>, op: Operation)
    ensures forall v :: Required(canonical, ops + [op], v) <==>
                        Required(canonical, ops, v) || v in RequirementsOf(canonical, op)
  {
    var all := ops + [op];
    forall v
      ensures Required(canonical, all, v) <==> Required(canonical, ops, v) || v in RequirementsOf(canonical, op)
    {
      if i :| 0 <= i < |ops| && v in RequirementsOf(canonical, ops[i]) { assert all[i] == ops[i]; }
      if v in RequirementsOf(canonical, op) { assert all[|ops|] == op; }
    }
  }

  function SchemeNames(requirements: seq<Value>): set<string> {
    set i, name | 0 <= i < |requirements| && requirements[i].Object? && name in requirements[i].fields :: name
  }

  /** The names under which a scheme is read and written at the same place. */
  predicate PlainName(name: string) {
    '/' !in name && Unescape(name) == name
  }

  const SCHEMES := "/securitySchemes/"

  function SchemeRef(name: string): string {
    "#" + COMPONENTS + (SCHEMES + name)
  }

  function SchemeAt(canonical: Value, name: string): Option<Value> {
    Pointed(canonical, SchemeRef(EscapeToken(name)))
  }

  lemma SchemeRefShape(name: string)
    ensures ComponentRef(SchemeRef(name)) && SchemeRef(name)[12..] == SCHEMES + name
    ensures COMPONENTS <= SchemeRef(name)[1..]
  {
    var reference, rest := SchemeRef(name), SCHEMES + name;
    assert |COMPONENTS| == 11 && reference == ("#" + COMPONENTS) + rest;
    assert reference[1..12] == COMPONENTS && reference[12..] == rest;
    assert reference[1..] == COMPONENTS + rest;
    assert rest[0] == '/' && rest[1] == 's';
  }

  lemma SchemeTokens(name: string)
    requires '/' !in name
    ensures InsertionTokens(SCHEMES + name) == ["securitySchemes", Unescape(name)]
  {
    hide Split, Find, Unescape;
    SchemeParts(name);
    SplitAtSlash(name, "");
    assert ["securitySchemes"] + Split(name, '/') == ["securitySchemes", name];
    TwoUnescaped("securitySchemes", name);
    NothingToUnescape("securitySchemes");
  }

  lemma SchemeParts(name: string)
    ensures InsertionTokens(SCHEMES + name) == UnescapeAll(["securitySchemes"] + Split(name, '/'))
  {
    hide Split, Unescape;
    TrimOneSlash(SCHEMES + name);
    assert (SCHEMES + name)[1..] == "securitySchemes" + "/" + name;
    SplitAtSlash("securitySchemes", name);
  }

  lemma TwoUnescaped(a: string, b: string)
    ensures UnescapeAll([a, b]) == [Unescape(a), Unescape(b)]
  {
    assert [a, b][1..] == [b] && [b][1..] == [];
  }

  lemma SchemeLookup(canonical: Value, name: string)
    requires '/' !in name
    ensures PointerTokens(SchemeRef(name)[1..]) == Some(["components", "securitySchemes", Unescape(name)])
    ensures Pointed(canonical, SchemeRef(name)) == Lookup(canonical, ["components", "securitySchemes", Unescape(name)])
  {
    hide PointerTokens, InsertionTokens, Unescape, Lookup;
    SchemeRefShape(name);
    ComponentRefTokens(SchemeRef(name));
    SchemeTokens(name);
    assert ["components"] + ["securitySchemes", Unescape(name)] == ["components", "securitySchemes", Unescape(name)];
  }

  /** The place where a scheme is read is the one where it is written exactly for plain names. */
  lemma SamePlaceIff(name: string)
    ensures PointerTokens(SchemeRef(EscapeToken(name))[1..]) == Some(["components", "securitySchemes", name])
    ensures InsertionTokens(SCHEMES + name) == ["securitySchemes", name] <==> PlainName(name)
  {
    hide Split, Unescape, EscapeToken, PointerTokens;
    EscapeRoundTrip(name);
    SchemeLookup(Null, EscapeToken(name));
    if '/' in name {
      SchemeParts(name);
      SlashesCounted(name);
      FewerWithoutSlashes(name);
      hide InsertionTokens;
    } else {
      SchemeTokens(name);
    }
  }

  lemma {:induction false} FewerWithoutSlashes(s: string)
    ensures |WithoutSlashes(s)| <= |s|
    ensures '/' in s ==> |WithoutSlashes(s)| < |s|
  {
    if s != "" { FewerWithoutSlashes(s[1..]); }
  }

  lemma PlainScheme(canonical: Value, name: string)
    requires PlainName(name)
    ensures ComponentRef(SchemeRef(name)) && InsertedAt(SchemeRef(name)) == ["securitySchemes", name]
    ensures SchemeAt(canonical, name) == Pointed(canonical, SchemeRef(name))
    ensures SchemeAt(canonical, name).Some? ==> RefProblem(canonical, SchemeRef(name)).None?
  {
    SchemeRefShape(name);
    SchemeTokens(name);
    EscapeRoundTrip(name);
    SchemeLookup(canonical, name);
    SchemeLookup(canonical, EscapeToken(name));
    hide Pointed, InsertionTokens, Unescape, EscapeToken;
  }

  // ----- The scoped document -----

  datatype Spec = Spec(openapi: Value, info: Value, paths: Value, components: Value, security: seq<Value>)

  function Document(spec: Spec): Value {
    Object(map["openapi" := spec.openapi, "info" := spec.info, "paths" := spec.paths, "components" := spec.components])
  }

  ghost function SchemeRefs(names: set<string>): set<string> {
    set name | name in names :: SchemeRef(name)
  }

  /** Adds one security scheme under its name. */
  function InsertScheme(canonical: Value, components: Value, name: string): Option<Value> {
    if SchemeAt(canonical, name).Some?
    then Insert(components, InsertionTokens(SCHEMES + name), SchemeAt(canonical, name).value)
    else None
  }

  function InsertSchemes(canonical: Value, components: Value, list: seq<string>): Option<Value> {
    if list == [] then Some(components)
    else
      match InsertSchemes(canonical, components, list[..|list| - 1])
      case None => None
      case Some(before) => InsertScheme(canonical, before, list[|list| - 1])
  }

  /** The components are the nodes of all visited references, inserted in an order of discovery, and then the named
      security schemes, inserted in the order of their names. */
  ghost predicate Gathered(canonical: Value, roots: set<string>, visited: set<string>, names: set<string>,
                           components: Value)
  {
    exists order, list :: GatheredBy(canonical, roots, visited, names, components, order, list)
  }

  ghost predicate GatheredBy(canonical: Value, roots: set<string>, visited: set<string>, names: set<string>,
                             components: Value, order: seq<string>, list: seq<string>)
  {
    && Discovered(canonical, roots, order) && AsSet(order) == visited && InsertRefs(canonical, order).Some?
    && Sorting.Lists(list, names)
    && InsertSchemes(canonical, InsertRefs(canonical, order).value, list) == Some(components)
  }

  /** After some of the schemes the next one cannot be inserted. */
  ghost predicate BlockedScheme(canonical: Value, components: Value, names: set<string>, pointer: string) {
    exists front, name :: BlockedSchemeAt(canonical, components, names, pointer, front, name)
  }

  ghost predicate BlockedSchemeAt(canonical: Value, components: Value, names: set<string>, pointer: string,
                                  front: seq<string>, name: string)
  {
    && (forall n <- front + [name] :: n in names) && SchemeAt(canonical, name).Some? && pointer == SCHEMES + name
    && InsertSchemes(canonical, components, front).Some? && InsertSchemes(canonical, components, front + [name]).None?
  }

  /** What a successful scoping returns. */
  ghost predicate Scopes(canonical: Value, ops: seq<Operation>, spec: Spec, visited: set<string>) {
    && DocumentProblem(canonical).None? && (forall op | op in ops :: OperationProblem(canonical, op).None?)
    && Get(canonical, "openapi") == Some(spec.openapi) && Get(canonical, "info") == Some(spec.info)
    && spec.paths == Object(ScopedPaths(canonical, ops))
    && spec.security == FirstOccurrences(AllRequirements(canonical, ops))
    && (forall v :: v in spec.security <==> Required(canonical, ops, v))
    && Gathered(canonical, CollectRefs(spec.paths), visited, SchemeNames(spec.security), spec.components)
    && IsReachableSet(canonical, CollectRefs(spec.paths), visited)
    && var names := SchemeNames(spec.security);
       (forall name | name in names :: PlainName(name)) ==>
         Collected(canonical, visited + SchemeRefs(names), spec.components)
  }

  /** Adds the named security schemes. They are not searched for references. */
  method AddSecuritySchemes(canonical: Value, components: Value, names: set<string>, ghost visited: set<string>)
    returns (r: Result<Value, ScopeError>, ghost list: seq<string>)
    requires Collected(canonical, visited, components)
    ensures Sorting.Lists(list, names)
    ensures r.Success? ==> InsertSchemes(canonical, components, list) == Some(r.value)
    ensures r.Success? && (forall name | name in names :: PlainName(name)) ==>
              Collected(canonical, visited + SchemeRefs(names), r.value)
    ensures r.Failure? && r.error.MissingSecurityScheme? ==>
              r.error.name in names && SchemeAt(canonical, r.error.name).None?
    ensures r.Failure? && r.error.BlockedInsertion? ==> BlockedScheme(canonical, components, names, r.error.pointer)
    ensures r.Failure? ==> r.error.MissingSecurityScheme? || r.error.BlockedInsertion?
    ensures r.Success? ==> forall name | name in names :: SchemeAt(canonical, name).Some?
    ensures TwoLevels(components) && (forall name | name in names :: PlainName(name)) ==>
              (r.Success? <==> forall name | name in names :: SchemeAt(canonical, name).Some?)
  {
    hide Collected, Insert, InsertionTokens, SchemeAt, RefProblem, Pointed, TwoLevels, InsertSchemes, InsertScheme,
         PlainName, Sorting.Lists, BlockedScheme, AsSet, SchemeRefs;
    var sorted := Sorting.Sort(names);
    list := sorted;
    ListsMeaning(sorted, names);
    var current := components;
    ghost var plain := forall name | name in names :: PlainName(name);
    ghost var simple := plain && TwoLevels(components);
    NoSchemes(canonical, components, visited);
    assert sorted[..0] == [];
    for i := 0 to |sorted|
      invariant InsertSchemes(canonical, components, sorted[..i]) == Some(current)
      invariant plain ==> Collected(canonical, visited + SchemeRefs(AsSet(sorted[..i])), current)
      invariant forall name | name in sorted[..i] :: SchemeAt(canonical, name).Some?
      invariant simple ==> TwoLevels(current)
    {
      var name := sorted[i];
      assert sorted[..i + 1] == sorted[..i] + [name];
      var scheme := SchemeAt(canonical, name);
      if scheme.None? {
        return Failure(MissingSecurityScheme(name)), list;
      }
      var after := Insert(current, InsertionTokens(SCHEMES + name), scheme.value);
      InsertSchemesSnoc(canonical, components, sorted[..i], name);
      if simple { PlainTwoLevels(current, name, scheme.value); }
      if after.None? {
        SchemeIsBlocked(canonical, components, names, sorted[..i], name);
        return Failure(BlockedInsertion(SCHEMES + name)), list;
      }
      if plain { CollectScheme(canonical, visited, AsSet(sorted[..i]), current, name, after.value); }
      AsSetSnoc(sorted[..i], name);
      current := after.value;
    }
    assert sorted[..|sorted|] == sorted;
    r := Success(current);
  }

  lemma NoSchemes(canonical: Value, components: Value, visited: set<string>)
    ensures InsertSchemes(canonical, components, []) == Some(components)
    ensures visited + SchemeRefs(AsSet([])) == visited
  {
  }

  lemma InsertSchemesSnoc(canonical: Value, components: Value, front: seq<string>, name: string)
    requires InsertSchemes(canonical, components, front).Some? && SchemeAt(canonical, name).Some?
    ensures InsertSchemes(canonical, components, front + [name]) ==
            Insert(InsertSchemes(canonical, components, front).value, InsertionTokens(SCHEMES + name),
                   SchemeAt(canonical, name).value)
  {
    hide Insert, InsertionTokens, SchemeAt;
    assert (front + [name])[..|front|] == front;
  }

  lemma SchemeIsBlocked(canonical: Value, components: Value, names: set<string>, front: seq<string>, name: string)
    requires (forall n <- front + [name] :: n in names) && SchemeAt(canonical, name).Some?
    requires InsertSchemes(canonical, components, front).Some?
    requires InsertSchemes(canonical, components, front + [name]).None?
    ensures BlockedScheme(canonical, components, names, SCHEMES + name)
  {
    assert BlockedSchemeAt(canonical, components, names, SCHEMES + name, front, name);
  }

  lemma PlainTwoLevels(components: Value, name: string, scheme: Value)
    requires TwoLevels(components) && PlainName(name)
    ensures var after := Insert(components, InsertionTokens(SCHEMES + name), scheme);
            after.Some? && TwoLevels(after.value)
  {
    hide Insert, InsertionTokens, TwoLevels;
    SchemeTokens(name);
    InsertTwoLevels(components, ["securitySchemes", name], scheme);
  }

  lemma CollectScheme(canonical: Value, visited: set<string>, names: set<string>, components: Value, name: string,
                      after: Value)
    requires PlainName(name) && SchemeAt(canonical, name).Some?
    requires Collected(canonical, visited + SchemeRefs(names), components)
    requires Insert(components, InsertionTokens(SCHEMES + name), SchemeAt(canonical, name).value) == Some(after)
    ensures Collected(canonical, visited + SchemeRefs(names + {name}), after)
  {
    hide Collected, Insert, InsertionTokens, SchemeAt, RefProblem, Pointed, PlainName;
    PlainScheme(canonical, name);
    SchemeRefShape(name);
    CollectOne(canonical, visited + SchemeRefs(names), components, SchemeRef(name), after);
    SchemeRefsMore(names, name);
    assert (visited + SchemeRefs(names)) + {SchemeRef(name)} == visited + SchemeRefs(names + {name});
  }

  lemma SchemeRefsMore(names: set<string>, name: string)
    ensures SchemeRefs(names + {name}) == SchemeRefs(names) + {SchemeRef(name)}
  {
    hide SchemeRef;
    forall r
      ensures r in SchemeRefs(names + {name}) <==> r in SchemeRefs(names) + {SchemeRef(name)}
    {
      if n :| n in names && r == SchemeRef(n) { assert n in names + {name}; }
    }
  }

  /** Why a scoping failed: the document has no paths; or at the first unknown operation; or at a reachable reference
      that is external, dangling or not among the components; or at a security scheme that is not there; or because a
      component is in the way; or, when everything is gathered, because the document has no version or no info. */
  ghost predicate Cause(canonical: Value, ops: seq<Operation>, error: ScopeError) {
    if DocumentProblem(canonical).Some? then Some(error) == DocumentProblem(canonical)
    else if exists op <- ops :: OperationProblem(canonical, op).Some? then FirstProblem(canonical, ops, error)
    else CauseInside(canonical, ops, error)
  }

  ghost predicate CauseInside(canonical: Value, ops: seq<Operation>, error: ScopeError)
    requires forall op | op in ops :: OperationProblem(canonical, op).None?
  {
    var roots := CollectRefs(Object(ScopedPaths(canonical, ops)));
    match error
    case BlockedInsertion(pointer) => BlockedRef(canonical, roots, pointer) || SchemeInTheWay(canonical, ops, pointer)
    case MissingSecurityScheme(name) => NamedScheme(canonical, ops, name) && SchemeAt(canonical, name).None?
    case MissingMember(_) => HeaderProblem(canonical) == Some(error) && AllGathered(canonical, ops)
    case _ => exists q :: Reachable(canonical, roots, q) && RefProblem(canonical, q) == Some(error)
  }

  ghost predicate AllGathered(canonical: Value, ops: seq<Operation>)
    requires forall op | op in ops :: OperationProblem(canonical, op).None?
  {
    var roots := CollectRefs(Object(ScopedPaths(canonical, ops)));
    var names := SchemeNames(FirstOccurrences(AllRequirements(canonical, ops)));
    exists visited, components :: Gathered(canonical, roots, visited, names, components)
  }

  ghost predicate SchemeInTheWay(canonical: Value, ops: seq<Operation>, pointer: string)
    requires forall op | op in ops :: OperationProblem(canonical, op).None?
  {
    var roots := CollectRefs(Object(ScopedPaths(canonical, ops)));
    exists order :: SchemeBlockedBehind(canonical, ops, roots, order, pointer)
  }

  ghost predicate SchemeBlockedBehind(canonical: Value, ops: seq<Operation>, roots: set<string>, order: seq<string>,
                                      pointer: string)
  {
    && Discovered(canonical, roots, order) && IsReachableSet(canonical, roots, AsSet(order))
    && InsertRefs(canonical, order).Some?
    && BlockedScheme(canonical, InsertRefs(canonical, order).value,
                     SchemeNames(FirstOccurrences(AllRequirements(canonical, ops))), pointer)
  }

  /** All that is promised about a scoping. */
  ghost predicate Outcome(canonical: Value, ops: seq<Operation>, r: Result<Spec, ScopeError>, visited: set<string>) {
    && (r.Success? ==> Scopes(canonical, ops, r.value, visited))
    && (r.Failure? ==> Cause(canonical, ops, r.error))
  }

  method CloseScopedSpec(canonical: Value, ops: seq<Operation>)
    returns (r: Result<Spec, ScopeError>, visited: set<string>)
    ensures Outcome(canonical, ops, r, visited)
    ensures r.Success? ==> Scopes(canonical, ops, r.value, visited)
    ensures r.Failure? && (r.error.PathNotFound? || r.error.OperationNotFound?) <==>
              DocumentProblem(canonical).None? && exists op :: op in ops && OperationProblem(canonical, op).Some?
    ensures (forall op | op in ops :: OperationProblem(canonical, op).None?) && SimpleScope(canonical, ops) ==>
              (r.Success? <==> NothingMissing(canonical, ops))
  {
    hide Collected, IsReachableSet, OperationProblem, CollectRefs, RefProblem, ScopedPaths, Required, NamesComponent,
         PlainName, SchemeAt, TwoLevels, SchemeNames, Reachable, NamedScheme, SchemeRefs, Discovered, InsertRefs,
         InsertSchemes, Gathered, BlockedRef, BlockedScheme, SchemeInTheWay, FirstProblem, FirstOccurrences,
         AllRequirements, AsSet, Sorting.Lists, DocumentProblem;
    visited := {};
    var unreadable := DocumentProblem(canonical);
    if unreadable.Some? {
      DocumentProblemKind(canonical);
      return Failure(unreadable.value), {};
    }
    var requirements := CollectRequirements(canonical, ops);
    if requirements.Failure? {
      ProblemKind(canonical, ops);
      FirstProblemIsProblem(canonical, ops, requirements.error);
      return Failure(requirements.error), {};
    }
    NamesOfRequired(canonical, ops, requirements.value);
    var names := SchemeNames(requirements.value);
    var scopedPaths := BuildScopedPaths(canonical, ops);
    var refs := CollectRefsInto(Object(scopedPaths), {});
    assert refs == CollectRefs(Object(scopedPaths));
    var components;
    ghost var order;
    components, visited, order := CollectComponents(canonical, refs);
    if components.Failure? {
      RefProblemKind(canonical);
      return Failure(components.error), visited;
    }
    var withSchemes;
    ghost var list;
    withSchemes, list := AddSecuritySchemes(canonical, components.value, names, visited);
    if withSchemes.Failure? {
      if withSchemes.error.BlockedInsertion? {
        SchemeBlocked(canonical, ops, refs, order, withSchemes.error.pointer);
      }
      return Failure(withSchemes.error), visited;
    }
    IsGathered(canonical, refs, visited, names, withSchemes.value, order, list);
    var missing := HeaderProblem(canonical);
    if missing.Some? {
      HeaderProblemKind(canonical);
      IsAllGathered(canonical, ops, refs, visited, names, withSchemes.value);
      return Failure(missing.value), visited;
    }
    r := Success(Spec(Get(canonical, "openapi").value, Get(canonical, "info").value, Object(scopedPaths),
                      withSchemes.value, requirements.value));
  }

  lemma DocumentProblemKind(canonical: Value)
    requires DocumentProblem(canonical).Some?
    ensures var e := DocumentProblem(canonical).value; e.NotAnObject? || e.MissingMember?
  {
  }

  lemma HeaderProblemKind(canonical: Value)
    requires HeaderProblem(canonical).Some?
    ensures HeaderProblem(canonical).value.MissingMember?
  {
  }

  lemma IsAllGathered(canonical: Value, ops: seq<Operation>, roots: set<string>, visited: set<string>,
                      names: set<string>, components: Value)
    requires forall op | op in ops :: OperationProblem(canonical, op).None?
    requires roots == CollectRefs(Object(ScopedPaths(canonical, ops)))
    requires names == SchemeNames(FirstOccurrences(AllRequirements(canonical, ops)))
    requires Gathered(canonical, roots, visited, names, components)
    ensures AllGathered(canonical, ops)
  {
    hide Gathered;
  }

  lemma FirstProblemIsProblem(canonical: Value, ops: seq<Operation>, error: ScopeError)
    requires FirstProblem(canonical, ops, error)
    ensures exists op :: op in ops && OperationProblem(canonical, op) == Some(error)
  {
    hide OperationProblem;
    var i :| 0 <= i < |ops| && ProblemAt(canonical, ops, i, error);
    assert ops[i] in ops;
  }

  lemma IsGathered(canonical: Value, roots: set<string>, visited: set<string>, names: set<string>, components: Value,
                   order: seq<string>, list: seq<string>)
    requires Discovered(canonical, roots, order) && AsSet(order) == visited && InsertRefs(canonical, order).Some?
    requires Sorting.Lists(list, names)
    requires InsertSchemes(canonical, InsertRefs(canonical, order).value, list) == Some(components)
    ensures Gathered(canonical, roots, visited, names, components)
  {
    assert GatheredBy(canonical, roots, visited, names, components, order, list);
  }

  lemma SchemeBlocked(canonical: Value, ops: seq<Operation>, roots: set<string>, order: seq<string>, pointer: string)
    requires forall op | op in ops :: OperationProblem(canonical, op).None?
    requires roots == CollectRefs(Object(ScopedPaths(canonical, ops)))
    requires Discovered(canonical, roots, order) && IsReachableSet(canonical, roots, AsSet(order))
    requires InsertRefs(canonical, order).Some?
    requires BlockedScheme(canonical, InsertRefs(canonical, order).value,
                           SchemeNames(FirstOccurrences(AllRequirements(canonical, ops))), pointer)
    ensures SchemeInTheWay(canonical, ops, pointer)
  {
    assert SchemeBlockedBehind(canonical, ops, roots, order, pointer);
  }

  ghost predicate NamedScheme(canonical: Value, ops: seq<Operation>, name: string) {
    exists v :: Required(canonical, ops, v) && v.Object? && name in v.fields
  }

  lemma NamesOfRequired(canonical: Value, ops: seq<Operation>, requirements: seq<Value>)
    requires forall v :: v in requirements <==> Required(canonical, ops, v)
    ensures forall name :: name in SchemeNames(requirements) <==> NamedScheme(canonical, ops, name)
  {
    hide Required;
    forall name
      ensures name in SchemeNames(requirements) <==> NamedScheme(canonical, ops, name)
    {
      NameInSome(requirements, name);
    }
  }

  /** All references are two-segment ones and the names of the security schemes need no escapes. */
  ghost predicate SimpleScope(canonical: Value, ops: seq<Operation>)
    requires forall op | op in ops :: OperationProblem(canonical, op).None?
  {
    && (forall q | Reachable(canonical, CollectRefs(Object(ScopedPaths(canonical, ops))), q) :: NamesComponent(q))
    && (forall name | NamedScheme(canonical, ops, name) :: PlainName(name))
  }

  /** Everything that is referred to, at any depth, and every security scheme is there. */
  ghost predicate NothingMissing(canonical: Value, ops: seq<Operation>)
    requires forall op | op in ops :: OperationProblem(canonical, op).None?
  {
    && DocumentProblem(canonical).None? && HeaderProblem(canonical).None?
    && (forall q | Reachable(canonical, CollectRefs(Object(ScopedPaths(canonical, ops))), q) ::
          RefProblem(canonical, q).None?)
    && (forall name | NamedScheme(canonical, ops, name) :: SchemeAt(canonical, name).Some?)
  }

  lemma ProblemKind(canonical: Value, ops: seq<Operation>)
    ensures forall op | op in ops && OperationProblem(canonical, op).Some? ::
              var e := OperationProblem(canonical, op).value; e.PathNotFound? || e.OperationNotFound?
  {
  }

  lemma RefProblemKind(canonical: Value)
    ensures forall q | RefProblem(canonical, q).Some? ::
              var e := RefProblem(canonical, q).value; e.ExternalRef? || e.MissingNode? || e.NonComponentsRef?
  {
  }

  // ----- What the scoped document is good for -----

  /** Main result: in a scoped document every reference of the paths and of the collected nodes resolves, and to the
      node it names in the canonical document. */
  lemma ScopedRefsResolve(canonical: Value, ops: seq<Operation>, spec: Spec, visited: set<string>, reference: string)
    requires Scopes(canonical, ops, spec, visited)
    requires forall name | name in SchemeNames(spec.security) :: PlainName(name)
    requires forall q | Reachable(canonical, CollectRefs(spec.paths), q) :: ComponentRef(q)
    requires reference in CollectRefs(spec.paths) || exists q :: q in visited && reference in NestedRefs(canonical, q)
    ensures reference in visited
    ensures Pointed(canonical, reference).Some?
    ensures Pointed(Document(spec), reference) == Pointed(canonical, reference)
  {
    hide Reachable, NestedRefs, Pointed, InsertionTokens, ComponentRef, RefProblem, CollectRefs, Required, Collected,
         OperationProblem, ScopedPaths;
    var roots := CollectRefs(spec.paths);
    if reference in roots {
      RootIsReachable(canonical, roots, reference);
    } else {
      var q :| q in visited && reference in NestedRefs(canonical, q);
      NestedIsReachable(canonical, roots, q, reference);
    }
    var all := visited + SchemeRefs(SchemeNames(spec.security));
    SchemesAreComponents(canonical, SchemeNames(spec.security));
    CollectedResolves(canonical, all, spec, reference);
  }

  lemma CollectedResolves(canonical: Value, references: set<string>, spec: Spec, reference: string)
    requires Collected(canonical, references, spec.components) && AllComponentRefs(references)
    requires reference in references
    ensures Pointed(canonical, reference).Some? && Pointed(Document(spec), reference) == Pointed(canonical, reference)
  {
    hide Pointed, InsertionTokens, ComponentRef, RefProblem, Lookup;
    ProblemFreeRef(canonical, reference);
    PointedComponent(Document(spec), reference);
  }

  lemma SchemesAreComponents(canonical: Value, names: set<string>)
    requires forall name | name in names :: PlainName(name)
    ensures forall r | r in SchemeRefs(names) :: NamesComponent(r) && ComponentRef(r)
  {
    forall r | r in SchemeRefs(names)
      ensures NamesComponent(r) && ComponentRef(r)
    {
      var name :| name in names && r == SchemeRef(name);
      hide ComponentRef, InsertionTokens, Pointed;
      PlainScheme(canonical, name);
    }
  }

  /** One of the references is inserted at `q` and names `v`. */
  ghost predicate Names(canonical: Value, references: set<string>, q: Tokens, v: Value) {
    exists r :: r in references && |r| >= 12 && InsertedAt(r) == q && Pointed(canonical, r) == Some(v)
  }

  /** With two-segment references the collected components are exactly the named ones. */
  lemma ComponentsAreNamed(canonical: Value, references: set<string>, components: Value, q: Tokens, v: Value)
    requires Collected(canonical, references, components) && |q| == 2
    requires forall r | r in references :: NamesComponent(r)
    ensures Lookup(components, q) == Some(v) <==> Names(canonical, references, q, v)
  {
    hide *;
    if Lookup(components, q) == Some(v) { PresentIsNamed(canonical, references, components, q, v); }
    if Names(canonical, references, q, v) { NamedIsPresent(canonical, references, components, q, v); }
  }

  lemma PresentIsNamed(canonical: Value, references: set<string>, components: Value, q: Tokens, v: Value)
    requires Collected(canonical, references, components) && |q| == 2
    requires forall r | r in references :: NamesComponent(r)
    requires Lookup(components, q) == Some(v)
    ensures Names(canonical, references, q, v)
  {
    hide Pointed, InsertedAt, Lookup, Collected, Comparable, NamesComponent;
    ShapesOfNamed(references);
    CollectedMeaning(canonical, references, components, q);
    var r :| r in references && |r| >= 12 && Comparable(q, InsertedAt(r));
    ComparablePair(q, InsertedAt(r));
  }

  lemma NamedIsPresent(canonical: Value, references: set<string>, components: Value, q: Tokens, v: Value)
    requires Collected(canonical, references, components) && |q| == 2
    requires forall r | r in references :: NamesComponent(r)
    requires Names(canonical, references, q, v)
    ensures Lookup(components, q) == Some(v)
  {
    hide Pointed, InsertedAt, Lookup, Collected, NamesComponent;
    ShapesOfNamed(references);
    CollectedMeaning(canonical, references, components, q);
  }

  lemma ShapesOfNamed(references: set<string>)
    requires forall r | r in references :: NamesComponent(r)
    ensures AllComponentRefs(references)
    ensures forall r | r in references :: |r| >= 12 && |InsertedAt(r)| == 2
  {
  }

  lemma CollectedMeaning(canonical: Value, references: set<string>, components: Value, q: Tokens)
    requires Collected(canonical, references, components) && AllComponentRefs(references) && q != []
    ensures forall r | r in references :: |r| >= 12 && Lookup(components, InsertedAt(r)) == Pointed(canonical, r)
    ensures Lookup(components, q).Some? ==> LeadsToVisited(references, q)
  {
  }

  lemma ComparablePair(a: Tokens, b: Tokens)
    requires Comparable(a, b) && |a| == |b|
    ensures a == b
  {
  }

  /** Main result: a document for several operations reaches exactly the references that the documents for its
      operations reach together. */
  lemma ScopeIsUnion(canonical: Value, ops: seq<Operation>, spec: Spec, visited: set<string>,
                     parts: seq<Spec>, partVisited: seq<set<string>>)
    requires |parts| == |partVisited| == |ops|
    requires Scopes(canonical, ops, spec, visited)
    requires forall i | 0 <= i < |ops| :: Scopes(canonical, [ops[i]], parts[i], partVisited[i])
    ensures forall r :: r in visited <==> exists i :: 0 <= i < |ops| && r in partVisited[i]
  {
    hide CollectRefs, Reachable, OperationProblem, Required, Collected, Picked, ScopedPaths, Gathered, FirstOccurrences,
         AllRequirements, SchemeNames, SchemeRefs;
    var roots := CollectRefs(spec.paths);
    var partRoots := RootsOf(parts);
    ScopedRoots(canonical, ops);
    forall i | 0 <= i < |ops|
      ensures forall r :: r in partRoots[i] <==> r in CollectRefs(Object(Picked(canonical, ops[i])))
    {
      ScopedRoots(canonical, [ops[i]]);
      OnePicked(canonical, ops[i]);
    }
    forall r
      ensures r in roots <==> exists i :: 0 <= i < |partRoots| && r in partRoots[i]
    {
      assert PickedRef(canonical, ops, r) <==> r in roots;
    }
    forall r
      ensures r in visited <==> exists i :: 0 <= i < |ops| && r in partVisited[i]
    {
      ReachableFromUnion(canonical, roots, partRoots, r);
      forall i | 0 <= i < |ops|
        ensures r in partVisited[i] <==> Reachable(canonical, partRoots[i], r)
      {
      }
    }
  }

  ghost function RootsOf(specs: seq<Spec>): (r: seq<set<string>>)
    ensures |r| == |specs| && forall i | 0 <= i < |specs| :: r[i] == CollectRefs(specs[i].paths)
  {
    if specs == [] then [] else RootsOf(specs[..|specs| - 1]) + [CollectRefs(specs[|specs| - 1].paths)]
  }

  lemma OnePicked(canonical: Value, op: Operation)
    requires OperationProblem(canonical, op).None?
    ensures forall r :: PickedRef(canonical, [op], r) <==> r in CollectRefs(Object(Picked(canonical, op)))
  {
    hide CollectRefs, Picked;
    assert [op][0] == op;
  }

  lemma SecurityIsUnion(canonical: Value, ops: seq<Operation>, spec: Spec, visited: set<string>,
                        parts: seq<Spec>, partVisited: seq<set<string>>)
    requires |parts| == |partVisited| == |ops|
    requires Scopes(canonical, ops, spec, visited)
    requires forall i | 0 <= i < |ops| :: Scopes(canonical, [ops[i]], parts[i], partVisited[i])
    ensures forall name :: name in SchemeNames(spec.security) <==>
                           exists i :: 0 <= i < |ops| && name in SchemeNames(parts[i].security)
  {
    hide OperationProblem, ScopedPaths, CollectRefs, IsReachableSet, Collected, RequirementsOf, Gathered,
         FirstOccurrences,
         AllRequirements;
    forall v
      ensures v in spec.security <==> exists i :: 0 <= i < |ops| && v in parts[i].security
    {
      forall i | 0 <= i < |ops|
        ensures v in parts[i].security <==> v in RequirementsOf(canonical, ops[i])
      {
        assert [ops[i]][0] == ops[i];
        assert Required(canonical, [ops[i]], v) <==> v in RequirementsOf(canonical, ops[i]);
      }
    }
    forall name
      ensures name in SchemeNames(spec.security) <==>
              exists i :: 0 <= i < |ops| && name in SchemeNames(parts[i].security)
    {
      NameInSome(spec.security, name);
      forall i | 0 <= i < |ops| { NameInSome(parts[i].security, name); }
    }
  }

  lemma NameInSome(requirements: seq<Value>, name: string)
    ensures name in SchemeNames(requirements) <==> exists v :: v in requirements && v.Object? && name in v.fields
  {
  }

  /** Everything inserted among the components of a scoped document. */
  ghost function Inserted(spec: Spec, visited: set<string>): set<string> {
    visited + SchemeRefs(SchemeNames(spec.security))
  }

  lemma InsertedIsUnion(canonical: Value, ops: seq<Operation>, spec: Spec, visited: set<string>,
                        parts: seq<Spec>, partVisited: seq<set<string>>)
    requires |parts| == |partVisited| == |ops|
    requires Scopes(canonical, ops, spec, visited)
    requires forall i | 0 <= i < |ops| :: Scopes(canonical, [ops[i]], parts[i], partVisited[i])
    ensures forall r :: r in Inserted(spec, visited) <==>
                        exists i :: 0 <= i < |ops| && r in Inserted(parts[i], partVisited[i])
    ensures forall i, name | 0 <= i < |ops| && name in SchemeNames(parts[i].security) ::
              name in SchemeNames(spec.security)
    ensures forall i, r | 0 <= i < |ops| && r in partVisited[i] :: r in visited
  {
    hide SchemeNames, SchemeRefs, Scopes, Inserted;
    ScopeIsUnion(canonical, ops, spec, visited, parts, partVisited);
    SecurityIsUnion(canonical, ops, spec, visited, parts, partVisited);
    forall r
      ensures r in Inserted(spec, visited) <==> exists i :: 0 <= i < |ops| && r in Inserted(parts[i], partVisited[i])
    {
      InsertedInSome(spec, visited, parts, partVisited, r);
    }
  }

  lemma InsertedInSome(spec: Spec, visited: set<string>, parts: seq<Spec>, partVisited: seq<set<string>>, r: string)
    requires |parts| == |partVisited|
    requires forall q :: q in visited <==> exists i :: 0 <= i < |parts| && q in partVisited[i]
    requires forall name :: name in SchemeNames(spec.security) <==>
                            exists i :: 0 <= i < |parts| && name in SchemeNames(parts[i].security)
    ensures r in Inserted(spec, visited) <==> exists i :: 0 <= i < |parts| && r in Inserted(parts[i], partVisited[i])
  {
    hide SchemeNames, SchemeRef;
    if name :| name in SchemeNames(spec.security) && r == SchemeRef(name) {
      var i :| 0 <= i < |parts| && name in SchemeNames(parts[i].security);
      assert r in SchemeRefs(SchemeNames(parts[i].security));
    }
    if i :| 0 <= i < |parts| && r in SchemeRefs(SchemeNames(parts[i].security)) {
      var name :| name in SchemeNames(parts[i].security) && r == SchemeRef(name);
      assert name in SchemeNames(spec.security);
    }
  }

  lemma NodesOfScope(canonical: Value, ops: seq<Operation>, spec: Spec, visited: set<string>, q: Tokens, v: Value)
    requires Scopes(canonical, ops, spec, visited) && |q| == 2
    requires forall name | name in SchemeNames(spec.security) :: PlainName(name)
    requires forall r | r in visited :: NamesComponent(r)
    ensures Lookup(spec.components, q) == Some(v) <==> Names(canonical, Inserted(spec, visited), q, v)
  {
    hide Names, NamesComponent, Lookup, SchemeNames, PlainName, OperationProblem, ScopedPaths, IsReachableSet,
         Collected,
         Required;
    SchemesAreComponents(canonical, SchemeNames(spec.security));
    ComponentsAreNamed(canonical, Inserted(spec, visited), spec.components, q, v);
  }

  /** Main result: and it has exactly the components of the documents for its operations. */
  lemma ScopeComponentsAreUnion(canonical: Value, ops: seq<Operation>, spec: Spec, visited: set<string>,
                                parts: seq<Spec>, partVisited: seq<set<string>>, q: Tokens, v: Value)
    requires |parts| == |partVisited| == |ops| && |q| == 2
    requires Scopes(canonical, ops, spec, visited)
    requires forall i | 0 <= i < |ops| :: Scopes(canonical, [ops[i]], parts[i], partVisited[i])
    requires forall name | name in SchemeNames(spec.security) :: PlainName(name)
    requires forall r | r in visited :: NamesComponent(r)
    ensures Lookup(spec.components, q) == Some(v) <==>
            exists i :: 0 <= i < |ops| && Lookup(parts[i].components, q) == Some(v)
  {
    hide Pointed, InsertionTokens, NamesComponent, SchemeNames, Lookup, PlainName, Inserted, Scopes;
    InsertedIsUnion(canonical, ops, spec, visited, parts, partVisited);
    NodesOfScope(canonical, ops, spec, visited, q, v);
    forall i | 0 <= i < |ops|
      ensures Lookup(parts[i].components, q) == Some(v) <==> Names(canonical, Inserted(parts[i], partVisited[i]), q, v)
    {
      NodesOfScope(canonical, [ops[i]], parts[i], partVisited[i], q, v);
    }
  }

  lemma FirstTokenMissing(v: Value, tokens: Tokens)
    requires tokens != [] && Child(v, tokens[0]).None?
    ensures Lookup(v, tokens).None?
  {
  }
}
