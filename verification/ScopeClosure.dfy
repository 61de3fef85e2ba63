/** Whether the references in a scoped OpenAPI document resolve inside it: exactly when they are references to
    components, and what becomes of the others. */
module ScopeClosure {
  import opened Wrappers
  import opened Json
  import opened JsonPointer
  import opened OpenApiScope
  import opened PointerEscapes
  import Sorting

  // ----- References that are not to components -----

  /** A reference whose first token only begins like `components` passes the checks and resolves in no scoped document;
      its node is inserted in place of the one named by the reference with the missing slash. */
  lemma LookalikeDangles(canonical: Value, spec: Spec, reference: string)
    requires Lookalike(reference)
    ensures Pointed(Document(spec), reference).None?
    ensures Pointed(canonical, reference).Some? ==> RefProblem(canonical, reference).None?
    ensures InsertedAt(reference) == InsertedAt("#/components/" + reference[12..])
  {
    LookalikeTokens(reference);
    LookalikeInserted(reference);
    hide Lookup, PointerTokens, InsertionTokens;
    FirstTokenMissing(Document(spec), PointerTokens(reference[1..]).value);
    assert reference[1..][..11] == reference[1..12];
    SlashAdded(reference[12..]);
  }

  lemma SlashAdded(rest: string)
    ensures ("#/components/" + rest)[12..] == "/" + rest
  {
    assert "#/components/" == "#/components" + "/" && |"#/components"| == 12;
  }

  /** The reference names the components as a whole, perhaps with slashes behind. */
  predicate WholeRef(reference: string) {
    |reference| >= 12 && AllSlashes(reference[12..])
  }

  /** A reference with an empty token behind `components` is inserted as if the slash were not there twice. It dangles
      unless another reference names the components as a whole. */
  lemma DoubleSlashDangles(canonical: Value, references: set<string>, spec: Spec, reference: string)
    requires Collected(canonical, references, spec.components) && DoubleSlash(reference)
    requires forall r | r in references :: !WholeRef(r)
    ensures Pointed(Document(spec), reference).None?
    ensures InsertedAt(reference) == InsertionTokens(reference[13..])
  {
    DoubleSlashTokens(reference);
    hide PointerTokens, InsertionTokens, Pointed, Comparable, Lookup, RefProblem, ComponentRef;
    var tokens := PointerTokens(reference[1..]).value;
    assert tokens == ["components"] + tokens[1..] && tokens[1..] != [] && tokens[1..][0] == "";
    PointedInDocument(spec, reference, tokens[1..]);
    if Lookup(spec.components, tokens[1..]).Some? {
      assert LeadsToVisited(references, tokens[1..]);
      var r :| r in references && |r| >= 12 && Comparable(tokens[1..], InsertedAt(r));
      FirstInsertedToken(r[12..]);
      NotComparable(tokens[1..], InsertedAt(r));
    }
  }

  lemma NotComparable(a: Tokens, b: Tokens)
    requires a != [] && b != [] && a[0] != b[0]
    ensures !Comparable(a, b)
  {
  }

  lemma PointedInDocument(spec: Spec, reference: string, rest: Tokens)
    requires reference != "" && reference[0] == '#' && PointerTokens(reference[1..]) == Some(["components"] + rest)
    ensures Pointed(Document(spec), reference) == Lookup(spec.components, rest)
  {
    hide PointerTokens;
    assert (["components"] + rest)[1..] == rest;
  }

  /** Main result: when the names of the security schemes are plain, and unless references with a double slash occur
      together with one to the components as a whole, every reachable reference resolves in the scoped document to its
      canonical node if and only if all of them are references to components. */
  lemma ClosedIff(canonical: Value, ops: seq<Operation>, spec: Spec, visited: set<string>)
    requires Scopes(canonical, ops, spec, visited)
    requires forall name | name in SchemeNames(spec.security) :: PlainName(name)
    requires (forall q | q in visited :: !DoubleSlash(q)) || (forall q | q in visited :: !WholeRef(q))
    ensures IsReachableSet(canonical, CollectRefs(spec.paths), visited)
    ensures (forall q | q in visited :: Pointed(Document(spec), q) == Pointed(canonical, q)) <==>
            (forall q | q in visited :: ComponentRef(q))
  {
    hide Pointed, InsertionTokens, ComponentRef, RefProblem, CollectRefs, Required, Collected, OperationProblem,
         ScopedPaths, Gathered, FirstOccurrences, AllRequirements, Lookalike, DoubleSlash, WholeRef, PlainName;
    var names := SchemeNames(spec.security);
    var all := visited + SchemeRefs(names);
    SchemesAreComponents(canonical, names);
    if forall q | q in visited :: ComponentRef(q) {
      forall q | q in visited
        ensures Pointed(Document(spec), q) == Pointed(canonical, q)
      {
        CollectedResolves(canonical, all, spec, q);
      }
    }
    forall q | q in visited && !ComponentRef(q)
      ensures Pointed(Document(spec), q) != Pointed(canonical, q)
    {
      OtherRefsDangle(canonical, visited, names, spec, q);
    }
  }

  lemma OtherRefsDangle(canonical: Value, visited: set<string>, names: set<string>, spec: Spec, q: string)
    requires Collected(canonical, visited + SchemeRefs(names), spec.components)
    requires forall name | name in names :: PlainName(name)
    requires (forall r | r in visited :: !DoubleSlash(r)) || (forall r | r in visited :: !WholeRef(r))
    requires q in visited && !ComponentRef(q)
    ensures Pointed(Document(spec), q).None? && Pointed(canonical, q).Some?
  {
    var all := visited + SchemeRefs(names);
    hide Pointed, InsertionTokens, RefProblem, ComponentRef, PlainName, Lookup;
    assert RefProblem(canonical, q).None? by { assert q in all; }
    hide Collected;
    ProblemFreeRef(canonical, q);
    ThreeKinds(q);
    if Lookalike(q) {
      LookalikeDangles(canonical, spec, q);
    } else {
      forall r | r in all
        ensures !WholeRef(r)
      {
        if r !in visited {
          var name :| name in names && r == SchemeRef(name);
          SchemeIsNotWhole(name);
        }
      }
      DoubleSlashDangles(canonical, all, spec, q);
    }
  }

  lemma SchemeIsNotWhole(name: string)
    ensures !WholeRef(SchemeRef(name))
  {
    SchemeRefShape(name);
    var rest := SchemeRef(name)[12..];
    assert rest == SCHEMES + name && rest[1..][0] == rest[1] == 's' && rest[0] == '/';
    assert !AllSlashes(rest[1..]);
  }

  // ----- All references of the document -----

  /** The node is inserted as a member called `$ref`. */
  predicate EndsInRef(reference: string) {
    |reference| >= 12 && InsertedAt(reference) != [] && InsertedAt(reference)[|InsertedAt(reference)| - 1] == "$ref"
  }

  /** An insertion brings in no references but those of the value. */
  lemma {:induction false} InsertedRefs(target: Value, tokens: Tokens, v: Value)
    requires Insert(target, tokens, v).Some? && (tokens == [] || tokens[|tokens| - 1] != "$ref")
    ensures CollectRefs(Insert(target, tokens, v).value) <= CollectRefs(target) + CollectRefs(v)
    decreases |tokens|
  {
    if tokens != [] {
      var child := if tokens[0] in target.fields then target.fields[tokens[0]] else Object(map[]);
      var next := Insert(child, tokens[1..], v).value;
      InsertedRefs(child, tokens[1..], v);
      NoRefs();
      if tokens[0] in target.fields { MemberRefs(target.fields, tokens[0]); }
      NotOwnRef(child, tokens, v, next);
      MemberReplaced(target.fields, tokens[0], next);
    }
  }

  lemma NotOwnRef(child: Value, tokens: Tokens, v: Value, next: Value)
    requires tokens != [] && tokens[|tokens| - 1] != "$ref" && Insert(child, tokens[1..], v) == Some(next)
    ensures tokens[0] == "$ref" ==> !next.String?
  {
  }

  lemma MemberReplaced(fields: map<string, Value>, key: string, v: Value)
    requires key == "$ref" ==> !v.String?
    ensures CollectRefs(Object(fields[key := v])) <= CollectRefs(Object(fields)) + CollectRefs(v)
  {
    var after := fields[key := v];
    forall r | r in CollectRefs(Object(after))
      ensures r in CollectRefs(Object(fields)) + CollectRefs(v)
    {
      if r !in OwnRef(after) {
        var k :| k in after && r in CollectRefs(after[k]);
        if k != key { assert k in fields && after[k] == fields[k]; }
      }
    }
  }

  ghost predicate FromSome(canonical: Value, order: seq<string>, r: string) {
    exists q <- order :: r in NestedRefs(canonical, q)
  }

  lemma {:induction false} GatheredRefs(canonical: Value, order: seq<string>)
    requires InsertRefs(canonical, order).Some? && forall q <- order :: !EndsInRef(q)
    ensures forall r | r in CollectRefs(InsertRefs(canonical, order).value) :: FromSome(canonical, order, r)
  {
    hide CollectRefs, Pointed, EndsInRef, InsertionTokens, Insert;
    if order == [] {
      NoRefs();
    } else {
      var front, last := order[..|order| - 1], order[|order| - 1];
      assert order == front + [last];
      GatheredRefs(canonical, front);
      var components := InsertRefs(canonical, front).value;
      EndsInRefMeaning(last);
      InsertedRefs(components, InsertedAt(last), Pointed(canonical, last).value);
      forall r | r in CollectRefs(InsertRefs(canonical, order).value)
        ensures FromSome(canonical, order, r)
      {
        if r in CollectRefs(components) {
          var q :| q in front && r in NestedRefs(canonical, q);
          assert q in order;
        } else {
          assert last in order && r in NestedRefs(canonical, last);
        }
      }
    }
  }

  lemma EndsInRefMeaning(reference: string)
    requires |reference| >= 12
    ensures EndsInRef(reference) <==>
            InsertedAt(reference) != [] && InsertedAt(reference)[|InsertedAt(reference)| - 1] == "$ref"
  {
  }

  /** The references inside a security scheme. */
  function SchemeOwnRefs(canonical: Value, name: string): set<string> {
    if SchemeAt(canonical, name).Some? then CollectRefs(SchemeAt(canonical, name).value) else {}
  }

  lemma {:induction false} SchemesRefs(canonical: Value, components: Value, list: seq<string>)
    requires InsertSchemes(canonical, components, list).Some?
    requires forall name <- list :: PlainName(name) && name != "$ref"
    ensures forall r | r in CollectRefs(InsertSchemes(canonical, components, list).value) ::
              r in CollectRefs(components) || exists name <- list :: r in SchemeOwnRefs(canonical, name)
  {
    hide CollectRefs, SchemeAt, PlainName, InsertionTokens, Insert;
    if list != [] {
      var front, last := list[..|list| - 1], list[|list| - 1];
      assert list == front + [last];
      SchemesRefs(canonical, components, front);
      PlainTokens(last);
      InsertedRefs(InsertSchemes(canonical, components, front).value, InsertionTokens(SCHEMES + last),
                   SchemeAt(canonical, last).value);
    }
  }

  lemma PlainTokens(name: string)
    requires PlainName(name)
    ensures InsertionTokens(SCHEMES + name) == ["securitySchemes", name]
  {
    SchemeTokens(name);
  }

  lemma DocumentRefs(spec: Spec)
    ensures CollectRefs(Document(spec)) <=
            HeaderRefs(spec) + CollectRefs(spec.paths) + CollectRefs(spec.components)
  {
    var fields := Document(spec).fields;
    assert fields["openapi"] == spec.openapi && fields["info"] == spec.info;
    assert fields["paths"] == spec.paths && fields["components"] == spec.components;
    assert fields.Keys == {"openapi", "info", "paths", "components"};
    forall r | r in CollectRefs(Document(spec))
      ensures r in HeaderRefs(spec) + CollectRefs(spec.paths) + CollectRefs(spec.components)
    {
      var k :| k in fields && r in CollectRefs(fields[k]);
    }
  }

  /** The references in the members that are copied without being searched. */
  function HeaderRefs(spec: Spec): set<string> {
    CollectRefs(spec.openapi) + CollectRefs(spec.info)
  }

  /** Main result: if all reachable references are to components, every reference that occurs in the returned document,
      except in what is copied without being searched (the header and the security schemes), resolves in it and to its
      canonical node. No node and no scheme may be inserted as
      a member called `$ref`, which would be read as a reference. */
  lemma DocumentRefsResolve(canonical: Value, ops: seq<Operation>, spec: Spec, visited: set<string>, reference: string)
    requires Scopes(canonical, ops, spec, visited)
    requires forall name | name in SchemeNames(spec.security) :: PlainName(name) && name != "$ref"
    requires forall q | q in visited :: ComponentRef(q) && !EndsInRef(q)
    requires reference in CollectRefs(Document(spec)) && reference !in HeaderRefs(spec)
    requires forall name | name in SchemeNames(spec.security) :: reference !in SchemeOwnRefs(canonical, name)
    ensures reference in visited && Pointed(canonical, reference).Some?
    ensures Pointed(Document(spec), reference) == Pointed(canonical, reference)
  {
    hide CollectRefs, Reachable, NestedRefs, Pointed, InsertionTokens, ComponentRef, RefProblem, Required, Collected,
         OperationProblem, ScopedPaths, FirstOccurrences, AllRequirements, EndsInRef, PlainName, SchemeOwnRefs,
         Discovered, InsertRefs, InsertSchemes, Sorting.Sorted;
    DocumentRefs(spec);
    var roots, names := CollectRefs(spec.paths), SchemeNames(spec.security);
    var order, list :| GatheredBy(canonical, roots, visited, names, spec.components, order, list);
    if reference !in roots {
      ListsMeaning(list, names);
      SchemesRefs(canonical, InsertRefs(canonical, order).value, list);
      assert forall q | q in order :: q in visited;
      GatheredRefs(canonical, order);
      assert FromSome(canonical, order, reference);
    }
    ScopedRefsResolve(canonical, ops, spec, visited, reference);
  }
}
