/** What scoped OpenAPI documents are made of, told from the members of the canonical document: its path items, its
    security requirements and the references that occur in a value. */
module ScopeMeaning {
  import opened Wrappers
  import opened Json
  import opened JsonPointer
  import opened OpenApiScope
  import opened Text

  // ----- Pointers into arrays -----

  function Digit(n: nat): char
    requires n < 10
  {
    ['0', '1', '2', '3', '4', '5', '6', '7', '8', '9'][n]
  }

  /** The decimal digits of a number, without leading zeros. */
  function Decimal(n: nat): string {
    if n < 10 then [Digit(n)] else Decimal(n / 10) + [Digit(n % 10)]
  }

  lemma DigitValue(c: char, n: nat)
    requires n < 10
    ensures Digit(n) == c <==> '0' <= c <= '9' && c as int - '0' as int == n
  {
  }

  lemma {:induction false} DecimalMeaning(n: nat)
    ensures Decimal(n) != "" && DigitsValue(Decimal(n)) == Some(n)
    ensures Decimal(n)[0] == '0' ==> n == 0
  {
    hide Digit;
    DigitValue(Digit(n % 10), n % 10);
    if n < 10 {
      assert Decimal(n)[..0] == "";
      assert DigitsValue("") == Some(0);
    } else {
      DecimalMeaning(n / 10);
      assert Decimal(n)[..|Decimal(n)| - 1] == Decimal(n / 10);
      assert n == 10 * (n / 10) + n % 10;
    }
  }

  lemma {:induction false} DigitsAreDecimal(s: string, n: nat)
    requires s != "" && DigitsValue(s) == Some(n) && (|s| > 1 ==> s[0] != '0')
    ensures s == Decimal(n) && (s[0] != '0' ==> n > 0)
  {
    hide Digit;
    var front, last := s[..|s| - 1], s[|s| - 1];
    assert s == front + [last];
    var d := last as int - '0' as int;
    DigitValue(last, d);
    if front == "" {
      assert DigitsValue(front) == Some(0);
      if last == '0' { assert n == 0; }
    } else {
      var m := DigitsValue(front).value;
      DigitsAreDecimal(front, m);
      assert n == 10 * m + d;
      assert n / 10 == m && n % 10 == d && n >= 10;
    }
  }

  /** An array item is named by the decimal digits of its index, and by nothing else. */
  lemma ItemIff(items: seq<Value>, token: string, v: Value)
    ensures Child(Array(items), token) == Some(v) <==>
            exists i :: 0 <= i < |items| && token == Decimal(i) && items[i] == v
  {
    hide DigitsValue;
    if Child(Array(items), token) == Some(v) { DigitsAreDecimal(token, ArrayIndex(token).value); }
    if i :| 0 <= i < |items| && token == Decimal(i) && items[i] == v { DecimalMeaning(i); }
  }

  /** Only a text that is empty or begins with a slash is a pointer. */
  lemma PointerIff(pointer: string)
    ensures PointerTokens(pointer).Some? <==> pointer == "" || pointer[0] == '/'
    ensures PointerTokens("") == Some([])
  {
  }

  /** A pointer names one token behind each slash; in a token `~1` stands for a slash and `~0` for a tilde. */
  lemma PointerSteps(token: string, rest: string)
    requires '/' !in token && (rest == "" || rest[0] == '/')
    ensures PointerTokens("/" + token + rest) == Some([Unescape(token)] + PointerTokens(rest).value)
  {
    var s := token + rest;
    assert ("/" + token + rest)[1..] == s;
    if rest == "" {
      assert s == token;
      forall i: nat
        ensures !OccursAt(s, "/", i)
      {
        if i < |s| { assert s[i..i + 1][0] == s[i] && s[i] in token; }
      }
      SplitNone(s, '/');
      assert UnescapeAll([token]) == [Unescape(token)] + UnescapeAll([token][1..]);
    } else {
      SlashBehind(token, rest);
      SplitAt(s, '/', |token|);
      assert s[..|token|] == token && s[|token| + 1..] == rest[1..];
      assert ([token] + Split(rest[1..], '/'))[1..] == Split(rest[1..], '/');
    }
  }

  lemma SlashBehind(token: string, rest: string)
    requires '/' !in token && rest != "" && rest[0] == '/'
    ensures Find(token + rest, "/") == Some(|token|)
  {
    var s := token + rest;
    assert s[|token|..|token| + 1] == [rest[0]];
    assert OccursAt(s, "/", |token|);
    forall i: nat | i < |token|
      ensures !OccursAt(s, "/", i)
    {
      assert s[i..i + 1][0] == token[i] && token[i] in token;
    }
    var found := Find(s, "/");
    assert found.Some? && !(found.value < |token|) && !(|token| < found.value);
  }

  /** A value leads to another one by a member name or by the digits of an index. */
  ghost predicate Leads(v: Value, token: string, w: Value) {
    match v
    case Object(fields) => token in fields && fields[token] == w
    case Array(items) => exists i :: 0 <= i < |items| && token == Decimal(i) && items[i] == w
    case _ => false
  }

  /** Tokens are followed one after the other. */
  lemma {:induction false} LookupSteps(v: Value, tokens: Tokens, token: string, w: Value)
    ensures Lookup(v, []) == Some(v)
    ensures Lookup(v, tokens + [token]) == Some(w) <==>
            exists u :: Lookup(v, tokens) == Some(u) && Leads(u, token, w)
  {
    hide ArrayIndex, Decimal;
    if tokens == [] {
      assert [token][1..] == [] && tokens + [token] == [token];
      if v.Array? { ItemIff(v.items, token, w); }
      assert Lookup(v, [token]) == Child(v, token);
    } else {
      assert (tokens + [token])[1..] == tokens[1..] + [token];
      var child := Child(v, tokens[0]);
      if child.Some? { LookupSteps(child.value, tokens[1..], token, w); }
    }
  }

  /** The tokens of this pointer lead from the canonical document to this value. */
  ghost predicate PointsTo(canonical: Value, reference: string, v: Value) {
    exists pointer, tokens ::
      reference == "#" + pointer && PointerTokens(pointer) == Some(tokens) && Lookup(canonical, tokens) == Some(v)
  }

  /** What is wrong with a reference: it is not one into the document, or leads nowhere, or does not begin as those to
      components do. */
  lemma RefProblemIff(canonical: Value, reference: string)
    ensures forall v :: Pointed(canonical, reference) == Some(v) <==> PointsTo(canonical, reference, v)
    ensures var problem := RefProblem(canonical, reference);
            var inside := reference != "" && reference[0] == '#';
            var found := exists v :: PointsTo(canonical, reference, v);
            var proper := "#/components" <= reference;
            && (problem == None <==> found && proper)
            && (problem == Some(ExternalRef(reference)) <==> !inside)
            && (problem == Some(MissingNode(reference)) <==> inside && !found)
            && (problem == Some(NonComponentsRef(reference)) <==> found && !proper)
  {
    hide PointerTokens, Lookup;
    forall v
      ensures Pointed(canonical, reference) == Some(v) <==> PointsTo(canonical, reference, v)
    {
      if PointsTo(canonical, reference, v) {
        var pointer, tokens :| reference == "#" + pointer && PointerTokens(pointer) == Some(tokens)
                               && Lookup(canonical, tokens) == Some(v);
        assert reference[1..] == pointer;
      }
      if Pointed(canonical, reference) == Some(v) { assert reference == "#" + reference[1..]; }
    }
    ProperIff(reference);
    if Pointed(canonical, reference).Some? {
      assert PointsTo(canonical, reference, Pointed(canonical, reference).value);
    }
  }

  lemma ProperIff(reference: string)
    ensures "#/components" <= reference <==> reference != "" && reference[0] == '#' && COMPONENTS <= reference[1..]
  {
    assert "#" + COMPONENTS == "#/components";
    if reference != "" && reference[0] == '#' {
      assert reference == "#" + reference[1..];
      if COMPONENTS <= reference[1..] { assert reference[..12] == "#" + reference[1..][..11]; }
      if "#/components" <= reference { assert reference[1..][..11] == reference[..12][1..]; }
    }
  }

  // ----- References in a value -----

  /** The value at these tokens is an object with this reference. */
  ghost predicate RefersAt(v: Value, tokens: Tokens, reference: string) {
    match Lookup(v, tokens)
    case Some(Object(fields)) => "$ref" in fields && fields["$ref"] == String(reference)
    case _ => false
  }

  /** Exactly the references of objects anywhere in the value are collected. */
  lemma CollectedIff(v: Value, reference: string)
    ensures reference in CollectRefs(v) <==> exists tokens :: RefersAt(v, tokens, reference)
  {
    if reference in CollectRefs(v) { var tokens := PlaceOfRef(v, reference); }
    if tokens :| RefersAt(v, tokens, reference) {
      NodeRefs(v, tokens);
      assert reference in CollectRefs(Lookup(v, tokens).value);
    }
  }

  lemma {:induction false} PlaceOfRef(v: Value, reference: string) returns (tokens: Tokens)
    requires reference in CollectRefs(v)
    ensures RefersAt(v, tokens, reference)
    decreases v
  {
    hide ArrayIndex, Digit;
    match v
    case Object(fields) =>
      if reference in OwnRef(fields) {
        tokens := [];
      } else {
        var k :| k in fields && reference in CollectRefs(fields[k]);
        var rest := PlaceOfRef(fields[k], reference);
        tokens := [k] + rest;
        assert tokens[1..] == rest && Child(v, k) == Some(fields[k]);
      }
    case Array(items) =>
      var i :| 0 <= i < |items| && reference in CollectRefs(items[i]);
      var rest := PlaceOfRef(items[i], reference);
      tokens := [Decimal(i)] + rest;
      ItemIff(items, Decimal(i), items[i]);
      assert tokens[1..] == rest;
  }

  // ----- Operations -----

  /** The canonical document has this path item. */
  ghost predicate HasItem(canonical: Value, path: string, item: map<string, Value>) {
    && canonical.Object? && "paths" in canonical.fields && canonical.fields["paths"].Object?
    && path in canonical.fields["paths"].fields && canonical.fields["paths"].fields[path] == Object(item)
  }

  /** What is wrong with an operation. */
  lemma OperationProblemIff(canonical: Value, op: Operation)
    ensures var problem := OperationProblem(canonical, op);
            && (problem == None <==> exists item :: HasItem(canonical, op.path, item) && op.method_ in item)
            && (problem == Some(PathNotFound(op.path)) <==> forall item :: !HasItem(canonical, op.path, item))
            && (problem == Some(OperationNotFound(op)) <==>
                  exists item :: HasItem(canonical, op.path, item) && op.method_ !in item)
  {
    var paths := PathsOf(canonical);
    if op.path in paths && paths[op.path].Object? { assert HasItem(canonical, op.path, paths[op.path].fields); }
  }

  /** What is wrong with a document as a whole. */
  lemma DocumentProblemsIff(canonical: Value)
    ensures DocumentProblem(canonical) == None <==>
            canonical.Object? && "paths" in canonical.fields && canonical.fields["paths"].Object?
    ensures DocumentProblem(canonical) == Some(NotAnObject) <==> !canonical.Object?
    ensures DocumentProblem(canonical) == Some(MissingMember("paths")) <==>
            canonical.Object? && !("paths" in canonical.fields && canonical.fields["paths"].Object?)
    ensures canonical.Object? ==>
              (HeaderProblem(canonical) == None <==> {"openapi", "info"} <= canonical.fields.Keys)
    ensures HeaderProblem(canonical) == Some(MissingMember("openapi")) <==>
            !(canonical.Object? && "openapi" in canonical.fields)
    ensures HeaderProblem(canonical) == Some(MissingMember("info")) <==>
            canonical.Object? && "openapi" in canonical.fields && "info" !in canonical.fields
  {
    assert |"openapi"| != |"info"|;
  }

  predicate IsMethod(key: string) {
    key in {"get", "put", "post", "delete", "options", "head", "patch", "trace"}
  }

  /** One of the operations keeps this member of its path item: it is the operation, or no operation at all. */
  ghost predicate Keeps(ops: seq<Operation>, path: string, key: string) {
    exists op <- ops :: op.path == path && (key == op.method_ || !IsMethod(key))
  }

  /** What is picked from a path item for one operation. */
  lemma PickedIff(canonical: Value, op: Operation, item: map<string, Value>)
    requires OperationProblem(canonical, op).None? && HasItem(canonical, op.path, item)
    ensures var picked := Picked(canonical, op);
            && (forall key :: key in picked <==> key in item && (key == op.method_ || !IsMethod(key)))
            && forall key | key in picked && key in item :: picked[key] == item[key]
  {
    assert forall key :: key in HTTP_METHODS <==> IsMethod(key);
  }

  lemma KeepsMore(front: seq<Operation>, op: Operation, path: string)
    ensures forall key :: Keeps(front + [op], path, key) <==>
                          Keeps(front, path, key) || (op.path == path && (key == op.method_ || !IsMethod(key)))
    ensures (exists o <- front + [op] :: o.path == path) <==> (exists o <- front :: o.path == path) || op.path == path
  {
  }

  lemma OneMoreOperation(canonical: Value, front: seq<Operation>, op: Operation)
    requires forall o | o in front + [op] :: OperationProblem(canonical, o).None?
    ensures forall o | o in front :: OperationProblem(canonical, o).None?
    ensures OperationProblem(canonical, op).None?
    ensures var before := ScopedPaths(canonical, front);
            var existing := if op.path in before then before[op.path].fields else map[];
            ScopedPaths(canonical, front + [op]) == before[op.path := Object(Picked(canonical, op) + existing)]
  {
    hide OperationProblem, Picked, PathsOf;
    var ops := front + [op];
    assert ops[..|front|] == front;
    assert forall o | o in front :: o in ops;
    assert op in ops;
  }

  ghost predicate KeptOf(scoped: Value, item: map<string, Value>, ops: seq<Operation>, path: string) {
    && scoped.Object?
    && (forall key :: key in scoped.fields <==> key in item && Keeps(ops, path, key))
    && forall key | key in scoped.fields && key in item :: scoped.fields[key] == item[key]
  }

  /** Main result for paths: the scoped document has the paths of the operations, and of each path item what one of its
      operations keeps, as it is in the canonical document. */
  lemma {:induction false} ScopedPathsIff(canonical: Value, ops: seq<Operation>)
    requires forall op | op in ops :: OperationProblem(canonical, op).None?
    ensures forall path :: path in ScopedPaths(canonical, ops) <==> exists op <- ops :: op.path == path
    ensures forall path | path in ScopedPaths(canonical, ops) ::
              exists item ::
                HasItem(canonical, path, item) && KeptOf(ScopedPaths(canonical, ops)[path], item, ops, path)
  {
    if ops != [] {
      var front, op := ops[..|ops| - 1], ops[|ops| - 1];
      assert ops == front + [op];
      OneMoreOperation(canonical, front, op);
      ScopedPathsIff(canonical, front);
      forall path
        ensures path in ScopedPaths(canonical, ops) <==> exists o <- ops :: o.path == path
      {
        hide ScopedPaths, OperationProblem, Picked, PathsOf, KeptOf;
        KeepsMore(front, op, path);
      }
      forall path | path in ScopedPaths(canonical, ops)
        ensures exists item ::
                  HasItem(canonical, path, item) && KeptOf(ScopedPaths(canonical, ops)[path], item, ops, path)
      {
        var item := PathsOf(canonical)[path].fields;
        assert HasItem(canonical, path, item);
        KeptAfter(canonical, front, op, path, item);
      }
    }
  }

  lemma KeptAfter(canonical: Value, front: seq<Operation>, op: Operation, path: string, item: map<string, Value>)
    requires forall o | o in front + [op] :: OperationProblem(canonical, o).None?
    requires path in ScopedPaths(canonical, front + [op]) && HasItem(canonical, path, item)
    requires path in ScopedPaths(canonical, front) <==> exists o <- front :: o.path == path
    requires path in ScopedPaths(canonical, front) ==>
               exists i :: HasItem(canonical, path, i) && KeptOf(ScopedPaths(canonical, front)[path], i, front, path)
    ensures KeptOf(ScopedPaths(canonical, front + [op])[path], item, front + [op], path)
  {
    KeptBefore(canonical, front, path, item);
    OneMoreOperation(canonical, front, op);
    if op.path == path { PickedIff(canonical, op, item); }
    hide ScopedPaths, OperationProblem, Picked, PathsOf, HasItem, KeptOf, Keeps, IsMethod;
    KeptStep(ScopedPaths(canonical, front), Picked(canonical, op), item, front, op, path);
  }

  lemma KeptStep(before: map<string, Value>, picked: map<string, Value>, item: map<string, Value>,
                 front: seq<Operation>, op: Operation, path: string)
    requires op.path in before ==> before[op.path].Object?
    requires if path in before then KeptOf(before[path], item, front, path)
             else op.path == path && KeptOf(Object(map[]), item, front, path)
    requires op.path == path ==>
               && (forall key :: key in picked <==> key in item && (key == op.method_ || !IsMethod(key)))
               && forall key | key in picked && key in item :: picked[key] == item[key]
    ensures var existing := if op.path in before then before[op.path].fields else map[];
            KeptOf(before[op.path := Object(picked + existing)][path], item, front + [op], path)
  {
    var existing := if op.path in before then before[op.path].fields else map[];
    if op.path == path {
      assert op.path in before ==> before[op.path] == Object(existing);
      hide KeptOf, IsMethod;
      MoreKept(picked, existing, item, front, op);
    } else {
      KeepsMore(front, op, path);
      hide Keeps, IsMethod;
    }
  }

  lemma KeptBefore(canonical: Value, front: seq<Operation>, path: string, item: map<string, Value>)
    requires (forall o | o in front :: OperationProblem(canonical, o).None?) && HasItem(canonical, path, item)
    requires path in ScopedPaths(canonical, front) <==> exists o <- front :: o.path == path
    requires path in ScopedPaths(canonical, front) ==>
               exists i :: HasItem(canonical, path, i) && KeptOf(ScopedPaths(canonical, front)[path], i, front, path)
    ensures var before := ScopedPaths(canonical, front);
            if path in before then KeptOf(before[path], item, front, path)
            else KeptOf(Object(map[]), item, front, path)
  {
    hide ScopedPaths, OperationProblem;
    if path !in ScopedPaths(canonical, front) { assert forall key :: !Keeps(front, path, key); }
  }

  lemma MoreKept(picked: map<string, Value>, existing: map<string, Value>, item: map<string, Value>,
                 front: seq<Operation>, op: Operation)
    requires forall key :: key in picked <==> key in item && (key == op.method_ || !IsMethod(key))
    requires forall key | key in picked && key in item :: picked[key] == item[key]
    requires KeptOf(Object(existing), item, front, op.path)
    ensures KeptOf(Object(picked + existing), item, front + [op], op.path)
  {
    KeepsMore(front, op, op.path);
    hide Keeps, IsMethod;
  }

  // ----- Security -----

  /** The requirements of an operation: its own, also if there are none, and only without any those of the document. */
  ghost predicate Requires(canonical: Value, op: Operation, requirements: seq<Value>) {
    if exists own :: OwnSecurity(canonical, op, own) then OwnSecurity(canonical, op, requirements)
    else if exists general :: DefaultSecurity(canonical, general) then DefaultSecurity(canonical, requirements)
    else requirements == []
  }

  ghost predicate OwnSecurity(canonical: Value, op: Operation, own: seq<Value>) {
    exists item, operation ::
      && HasItem(canonical, op.path, item) && op.method_ in item && item[op.method_] == Object(operation)
      && "security" in operation && operation["security"] == Array(own)
  }

  ghost predicate DefaultSecurity(canonical: Value, general: seq<Value>) {
    canonical.Object? && "security" in canonical.fields && canonical.fields["security"] == Array(general)
  }

  lemma RequirementsIff(canonical: Value, op: Operation, requirements: seq<Value>)
    requires OperationProblem(canonical, op).None?
    ensures RequirementsOf(canonical, op) == requirements <==> Requires(canonical, op, requirements)
  {
    var item := PathsOf(canonical)[op.path].fields;
    assert HasItem(canonical, op.path, item);
    OwnIff(canonical, op, item);
    DefaultIff(canonical);
    hide OwnSecurity, DefaultSecurity;
  }

  lemma OwnIff(canonical: Value, op: Operation, item: map<string, Value>)
    requires HasItem(canonical, op.path, item) && op.method_ in item
    ensures var own := AsArray(Get(item[op.method_], "security"));
            && GetIn(GetIn(GetIn(Get(canonical, "paths"), op.path), op.method_), "security")
               == Get(item[op.method_], "security")
            && forall values :: own == Some(values) <==> OwnSecurity(canonical, op, values)
  {
    var operation := item[op.method_];
    forall values
      ensures AsArray(Get(operation, "security")) == Some(values) <==> OwnSecurity(canonical, op, values)
    {
      if AsArray(Get(operation, "security")) == Some(values) {
        assert operation == Object(operation.fields) && operation.fields["security"] == Array(values);
      }
    }
  }

  lemma DefaultIff(canonical: Value)
    ensures forall values :: AsArray(Get(canonical, "security")) == Some(values) <==> DefaultSecurity(canonical, values)
  {
  }

  /** Main result for security: the scoped document requires exactly what one of its operations requires, each once; the
      named schemes are the members of these requirements. */
  lemma SecurityIff(canonical: Value, ops: seq<Operation>, spec: Spec, visited: set<string>)
    requires Scopes(canonical, ops, spec, visited)
    ensures forall v :: v in spec.security <==>
                        exists op, requirements ::
                          op in ops && Requires(canonical, op, requirements) && v in requirements
    ensures forall i, j | 0 <= i < j < |spec.security| :: spec.security[i] != spec.security[j]
    ensures forall name :: name in SchemeNames(spec.security) <==>
                           exists v <- spec.security :: v.Object? && name in v.fields
  {
    forall v
      ensures v in spec.security <==>
              exists op, requirements :: op in ops && Requires(canonical, op, requirements) && v in requirements
    {
      RequiredIff(canonical, ops, v);
    }
    hide Required, Gathered, Collected, CollectRefs, ScopedPaths, AllRequirements, IsReachableSet, Requires;
    var values := spec.security;
    forall name
      ensures name in SchemeNames(values) <==> exists v <- values :: v.Object? && name in v.fields
    {
      if v :| v in values && v.Object? && name in v.fields { var i :| 0 <= i < |values| && values[i] == v; }
    }
  }

  /** A security scheme is the value under its name among those of the canonical document. */
  lemma SchemeIff(canonical: Value, name: string, v: Value)
    ensures SchemeAt(canonical, name) == Some(v) <==>
            exists components, schemes ::
              && Leads(canonical, "components", components) && Leads(components, "securitySchemes", schemes)
              && Leads(schemes, name, v)
  {
    SchemeTokensOf(canonical, name);
    hide SchemeAt, Lookup, Leads;
    var a := ["components"];
    assert [] + a == a && a + ["securitySchemes"] == ["components", "securitySchemes"];
    assert ["components", "securitySchemes"] + [name] == ["components", "securitySchemes", name];
    forall w
      ensures Lookup(canonical, a) == Some(w) <==> Leads(canonical, "components", w)
    {
      LookupSteps(canonical, [], "components", w);
    }
    forall w
      ensures Lookup(canonical, ["components", "securitySchemes"]) == Some(w) <==>
              exists u :: Leads(canonical, "components", u) && Leads(u, "securitySchemes", w)
    {
      LookupSteps(canonical, a, "securitySchemes", w);
    }
    LookupSteps(canonical, ["components", "securitySchemes"], name, v);
  }

  lemma SchemeTokensOf(canonical: Value, name: string)
    ensures SchemeAt(canonical, name) == Lookup(canonical, ["components", "securitySchemes", name])
  {
    SamePlaceIff(name);
    hide PointerTokens, Lookup, PlainName;
  }

  /** Requirements are in the order of the operations and of each list; a repeated one stays where it was first. */
  lemma {:induction false} RequirementsInOrder(canonical: Value, a: seq<Operation>, b: seq<Operation>, op: Operation)
    ensures AllRequirements(canonical, a + b) == AllRequirements(canonical, a) + AllRequirements(canonical, b)
    ensures AllRequirements(canonical, [op]) == RequirementsOf(canonical, op)
    ensures AllRequirements(canonical, []) == []
  {
    hide RequirementsOf;
    assert [op][..0] == [];
    if b == [] {
      assert a + b == a;
    } else {
      assert (a + b)[..|a + b| - 1] == a + b[..|b| - 1];
      RequirementsInOrder(canonical, a, b[..|b| - 1], op);
    }
  }

  lemma RequiredIff(canonical: Value, ops: seq<Operation>, v: Value)
    requires forall op | op in ops :: OperationProblem(canonical, op).None?
    ensures Required(canonical, ops, v) <==>
            exists op, requirements :: op in ops && Requires(canonical, op, requirements) && v in requirements
  {
    hide OperationProblem, RequirementsOf, Requires;
    if Required(canonical, ops, v) {
      var op :| op in ops && v in RequirementsOf(canonical, op);
      RequirementsIff(canonical, op, RequirementsOf(canonical, op));
    }
    if op, requirements :| op in ops && Requires(canonical, op, requirements) && v in requirements {
      RequirementsIff(canonical, op, requirements);
    }
  }

  // ----- The result -----

  ghost predicate HasPaths(canonical: Value) {
    canonical.Object? && "paths" in canonical.fields && canonical.fields["paths"].Object?
  }

  ghost predicate IsThere(canonical: Value, op: Operation) {
    exists item :: HasItem(canonical, op.path, item) && op.method_ in item
  }

  ghost predicate AllThere(canonical: Value, ops: seq<Operation>) {
    forall op <- ops :: IsThere(canonical, op)
  }

  /** The first operation that is not there is this one. */
  ghost predicate FirstMissing(canonical: Value, ops: seq<Operation>, op: Operation) {
    exists i :: 0 <= i < |ops| && ops[i] == op && AllThere(canonical, ops[..i]) && !IsThere(canonical, op)
  }

  /** Some operation requires the scheme with this name. */
  ghost predicate RequiresScheme(canonical: Value, ops: seq<Operation>, name: string) {
    exists op, requirements: seq<Value>, v ::
      && op in ops && Requires(canonical, op, requirements) && v in requirements
      && v.Object? && name in v.fields
  }

  ghost predicate HasScheme(canonical: Value, name: string) {
    exists components, schemes, v ::
      && Leads(canonical, "components", components) && Leads(components, "securitySchemes", schemes)
      && Leads(schemes, name, v)
  }

  /** The reference occurs in the paths of the operations or behind references that do. */
  ghost predicate Occurs(canonical: Value, ops: seq<Operation>, reference: string)
    requires forall op | op in ops :: OperationProblem(canonical, op).None?
  {
    Reachable(canonical, CollectRefs(Object(ScopedPaths(canonical, ops))), reference)
  }

  /** Why there is no scoped document, told from the canonical one. */
  ghost predicate Explains(canonical: Value, ops: seq<Operation>, error: ScopeError) {
    match error
    case NotAnObject => !canonical.Object?
    case PathNotFound(path) =>
      && HasPaths(canonical)
      && exists op :: FirstMissing(canonical, ops, op) && op.path == path
                      && forall item :: !HasItem(canonical, path, item)
    case OperationNotFound(op) =>
      HasPaths(canonical) && FirstMissing(canonical, ops, op) && exists item :: HasItem(canonical, op.path, item)
    case MissingMember(key) =>
      && canonical.Object?
      && if !HasPaths(canonical) then key == "paths"
         else
           && AllThere(canonical, ops)
           && key == (if "openapi" in canonical.fields then "info" else "openapi") && key !in canonical.fields
    case _ => HasPaths(canonical) && AllThere(canonical, ops) && ExplainsInside(canonical, ops, error)
  }

  ghost predicate ExplainsInside(canonical: Value, ops: seq<Operation>, error: ScopeError)
    requires AllThere(canonical, ops)
  {
    AllThereIff(canonical, ops);
    match error
    case ExternalRef(reference) => Occurs(canonical, ops, reference) && !("#" <= reference)
    case MissingNode(reference) =>
      Occurs(canonical, ops, reference) && "#" <= reference && forall v :: !PointsTo(canonical, reference, v)
    case NonComponentsRef(reference) =>
      && Occurs(canonical, ops, reference) && !("#/components" <= reference)
      && exists v :: PointsTo(canonical, reference, v)
    case MissingSecurityScheme(name) => RequiresScheme(canonical, ops, name) && !HasScheme(canonical, name)
    case BlockedInsertion(pointer) =>
      || (exists v :: PointsTo(canonical, "#/components" + pointer, v))
      || exists name :: pointer == "/securitySchemes/" + name && RequiresScheme(canonical, ops, name)
                        && HasScheme(canonical, name)
    case _ => false
  }

  lemma AllThereIff(canonical: Value, ops: seq<Operation>)
    ensures AllThere(canonical, ops) <==> forall op | op in ops :: OperationProblem(canonical, op).None?
  {
    forall op
      ensures IsThere(canonical, op) <==> OperationProblem(canonical, op).None?
    {
      OperationProblemIff(canonical, op);
    }
    hide IsThere, OperationProblem;
  }

  lemma SchemesIff(canonical: Value, ops: seq<Operation>, name: string)
    requires forall op | op in ops :: OperationProblem(canonical, op).None?
    ensures NamedScheme(canonical, ops, name) <==> RequiresScheme(canonical, ops, name)
    ensures SchemeAt(canonical, name).Some? <==> HasScheme(canonical, name)
  {
    forall v
      ensures Required(canonical, ops, v) <==>
              exists op, requirements :: op in ops && Requires(canonical, op, requirements) && v in requirements
    {
      RequiredIff(canonical, ops, v);
    }
    if SchemeAt(canonical, name).Some? { SchemeIff(canonical, name, SchemeAt(canonical, name).value); }
    hide Required, Requires, OperationProblem, SchemeAt, Leads;
    if HasScheme(canonical, name) {
      var components, schemes, v :| Leads(canonical, "components", components)
                                    && Leads(components, "securitySchemes", schemes) && Leads(schemes, name, v);
      SchemeIff(canonical, name, v);
    }
  }

  lemma FirstMissingIff(canonical: Value, ops: seq<Operation>, error: ScopeError)
    requires FirstProblem(canonical, ops, error) && HasPaths(canonical)
    ensures Explains(canonical, ops, error) && (error.PathNotFound? || error.OperationNotFound?)
  {
    var i :| 0 <= i < |ops| && ProblemAt(canonical, ops, i, error);
    OperationProblemIff(canonical, ops[i]);
    AllThereIff(canonical, ops[..i]);
    hide OperationProblem, HasItem, HasPaths, AllThere;
    assert FirstMissing(canonical, ops, ops[i]);
  }

  lemma BlockedIsExplained(canonical: Value, ops: seq<Operation>, pointer: string)
    requires forall op | op in ops :: OperationProblem(canonical, op).None?
    requires CauseInside(canonical, ops, BlockedInsertion(pointer))
    ensures AllThere(canonical, ops) && ExplainsInside(canonical, ops, BlockedInsertion(pointer))
  {
    AllThereIff(canonical, ops);
    hide OperationProblem, AllThere, Discovered, InsertRefs, InsertSchemes, RefProblem, SchemeAt, PointsTo, HasScheme,
         RequiresScheme, IsReachableSet;
    var roots := CollectRefs(Object(ScopedPaths(canonical, ops)));
    if BlockedRef(canonical, roots, pointer) {
      var order, q :| BlockedAt(canonical, roots, order, q, pointer);
      RefProblemIff(canonical, q);
      assert q[..12] == "#/components" && q == "#/components" + pointer;
    } else {
      var order :| SchemeBlockedBehind(canonical, ops, roots, order, pointer);
      BlockedSchemeIsExplained(canonical, ops, order, pointer);
    }
  }

  lemma BlockedSchemeIsExplained(canonical: Value, ops: seq<Operation>, order: seq<string>, pointer: string)
    requires forall op | op in ops :: OperationProblem(canonical, op).None?
    requires SchemeBlockedBehind(canonical, ops, CollectRefs(Object(ScopedPaths(canonical, ops))), order, pointer)
    ensures exists name :: pointer == "/securitySchemes/" + name && RequiresScheme(canonical, ops, name)
                           && HasScheme(canonical, name)
  {
    var requirements := FirstOccurrences(AllRequirements(canonical, ops));
    var names := SchemeNames(requirements);
    RequiredIffListed(canonical, ops);
    NamesOfRequired(canonical, ops, requirements);
    hide OperationProblem, Discovered, InsertRefs, InsertSchemes, SchemeAt, HasScheme, RequiresScheme, IsReachableSet,
         NamedScheme, SchemeNames, FirstOccurrences, AllRequirements, Required;
    var components := InsertRefs(canonical, order).value;
    var front, name :| BlockedSchemeAt(canonical, components, names, pointer, front, name);
    assert name in front + [name];
    SchemesIff(canonical, ops, name);
  }

  /** Main result for failures: the error explains why there is no scoped document. */
  lemma FailuresAreExplained(canonical: Value, ops: seq<Operation>, error: ScopeError, visited: set<string>)
    requires Outcome(canonical, ops, Failure(error), visited)
    ensures Explains(canonical, ops, error)
  {
    DocumentProblemsIff(canonical);
    AllThereIff(canonical, ops);
    hide OperationProblem, AllThere, HasItem;
    if DocumentProblem(canonical).Some? {
    } else if exists op <- ops :: OperationProblem(canonical, op).Some? {
      FirstMissingIff(canonical, ops, error);
    } else {
      InsideIsExplained(canonical, ops, error);
    }
  }

  lemma InsideIsExplained(canonical: Value, ops: seq<Operation>, error: ScopeError)
    requires HasPaths(canonical) && forall op | op in ops :: OperationProblem(canonical, op).None?
    requires CauseInside(canonical, ops, error)
    ensures Explains(canonical, ops, error)
  {
    AllThereIff(canonical, ops);
    DocumentProblemsIff(canonical);
    hide OperationProblem, AllThere, Reachable, RefProblem, PointsTo, SchemeAt, RequiresScheme, HasScheme,
         AllGathered, ScopedPaths, CollectRefs, NamedScheme;
    match error
    case BlockedInsertion(pointer) => BlockedIsExplained(canonical, ops, pointer);
    case MissingSecurityScheme(name) => SchemesIff(canonical, ops, name);
    case MissingMember(_) =>
    case _ =>
      var roots := CollectRefs(Object(ScopedPaths(canonical, ops)));
      var q :| Reachable(canonical, roots, q) && RefProblem(canonical, q) == Some(error);
      RefProblemIff(canonical, q);
      RefProblemCases(canonical, q);
  }

  lemma RefProblemCases(canonical: Value, q: string)
    ensures RefProblem(canonical, q).None? ||
            RefProblem(canonical, q).value in {ExternalRef(q), MissingNode(q), NonComponentsRef(q)}
  {
  }

  /** What a scoped document copies. */
  lemma CopiedMembers(canonical: Value, ops: seq<Operation>, spec: Spec, visited: set<string>)
    requires Scopes(canonical, ops, spec, visited)
    ensures HasPaths(canonical) && AllThere(canonical, ops) && {"openapi", "info"} <= canonical.fields.Keys
    ensures spec.openapi == canonical.fields["openapi"] && spec.info == canonical.fields["info"]
  {
    DocumentProblemsIff(canonical);
    AllThereIff(canonical, ops);
    hide OperationProblem, AllThere, Gathered, IsReachableSet, Collected, ScopedPaths, CollectRefs, Required,
         SchemeNames, FirstOccurrences, AllRequirements;
  }
}
