/** Templates with `{{node.field}}` tokens: the compiler's scanner, which lists what a template depends on
    (orchestration-runtime/src/compiler.rs), and the runtime's renderer (in binding_runtime.rs, beside it). */
module Template {
  import opened Wrappers
  import opened Json
  import opened Text

  type Path = seq<string>
  type Pool = map<string, Value>

  const OPEN := "{{"
  const CLOSE := "}}"

  /** A template cut at its tokens, which are kept without their braces. */
  datatype Cut = Last(text: string) | Piece(text: string, inner: string, rest: Cut)

  /** Offset of the first opening and, from behind it, of the next closing. An unclosed opening is plain text. */
  function NextToken(t: string): (r: Option<(nat, nat)>)
    ensures r.Some? ==> r.value.0 + 2 + r.value.1 + 2 <= |t|
    ensures r.Some? ==> t[r.value.0..r.value.0 + 2] == OPEN
    ensures r.Some? ==> t[r.value.0 + 2 + r.value.1..r.value.0 + r.value.1 + 4] == CLOSE
  {
    match Find(t, OPEN)
    case None => None
    case Some(i) =>
      match Find(t[i + 2..], CLOSE)
      case None => None
      case Some(n) =>
        assert t[i + 2..][n..n + 2] == t[i + 2 + n..i + n + 4];
        Some((i, n))
  }

  function CutAtTokens(t: string): Cut
    decreases |t|
  {
    match NextToken(t)
    case None => Last(t)
    case Some((i, n)) => Piece(t[..i], t[i + 2..i + 2 + n], CutAtTokens(t[i + n + 4..]))
  }

  function Unparse(c: Cut): string {
    match c
    case Last(text) => text
    case Piece(text, inner, rest) => text + (OPEN + inner + CLOSE) + Unparse(rest)
  }

  /** Cutting a template loses nothing. */
  lemma {:induction false} UnparseCut(t: string)
    ensures Unparse(CutAtTokens(t)) == t
    decreases |t|
  {
    hide NextToken;
    match NextToken(t)
    case None =>
    case Some((i, n)) =>
      UnparseCut(t[i + n + 4..]);
      assert t == t[..i] + (t[i..i + 2] + t[i + 2..i + 2 + n] + t[i + 2 + n..i + n + 4]) + t[i + n + 4..];
  }

  // ----- Tokens as paths -----

  /** What the compiler records for a token: the text around its first dot, if neither side is blank. */
  function CompiledSelector(inner: string): Option<Path> {
    var token := Trim(inner);
    match Find(token, ".")
    case None => None
    case Some(k) =>
      var left, right := Trim(token[..k]), Trim(token[k + 1..]);
      if left != "" && right != "" then Some([left, right]) else None
  }

  /** What the runtime looks up for a token: all its dot-separated parts as they are, if there are two or more. */
  function RuntimePath(inner: string): Option<Path> {
    var parts := Split(Trim(inner), '.');
    if |parts| >= 2 then Some(parts) else None
  }

  /** Exactly one dot, something on both sides, and no space next to the dot. */
  predicate SimpleToken(inner: string) {
    var token := Trim(inner);
    match Find(token, ".")
    case None => false
    case Some(k) =>
      && 0 < k < |token| - 1
      && Find(token[k + 1..], ".").None?
      && !IsWhitespace(token[k - 1]) && !IsWhitespace(token[k + 1])
  }

  lemma SplitAtDot(token: string)
    ensures match Find(token, ".")
            case None => Split(token, '.') == [token]
            case Some(k) => Split(token, '.') == [token[..k]] + Split(token[k + 1..], '.')
  {
  }

  lemma TrimChangesNothing(s: string)
    ensures Trim(s) == s <==> TrimmedStart(s) && TrimmedEnd(s)
  {
  }

  /** The compiler records what the runtime will look up exactly for simple tokens. */
  lemma SelectorIsPathIffSimple(inner: string)
    ensures CompiledSelector(inner).Some? && CompiledSelector(inner) == RuntimePath(inner) <==> SimpleToken(inner)
  {
    hide Find, Split, Trim;
    var token := Trim(inner);
    SplitAtDot(token);
    match Find(token, ".")
    case None =>
    case Some(k) =>
      var left, right := token[..k], token[k + 1..];
      SplitAtDot(right);
      TrimChangesNothing(left);
      TrimChangesNothing(right);
      assert left != "" ==> left[0] == token[0] && left[k - 1] == token[k - 1];
      assert right != "" ==> right[0] == token[k + 1] && right[|right| - 1] == token[|token| - 1];
      match Find(right, ".")
      case Some(j) => assert |RuntimePath(inner).value| > 2;
      case None =>
        assert Split(token, '.') == [left] + [right] == [left, right];
        assert [Trim(left), Trim(right)] == [left, right] <==> Trim(left) == left && Trim(right) == right by {
          assert [left, right][0] == left && [left, right][1] == right;
        }
  }

  // ----- Lookup -----

  function LookupIn(v: Value, path: Path): Option<Value> {
    if path == [] then Some(v)
    else
      match Get(v, path[0])
      case None => None
      case Some(member) => LookupIn(member, path[1..])
  }

  function Lookup(pool: Pool, path: Path): Option<Value> {
    if path == [] || path[0] !in pool then None else LookupIn(pool[path[0]], path[1..])
  }

  method LookupSelectorValue(pool: Pool, selector: Path) returns (r: Option<Value>)
    ensures r == Lookup(pool, selector)
  {
    if selector == [] || selector[0] !in pool {
      return None;
    }
    var cursor := pool[selector[0]];
    for i := 1 to |selector|
      invariant LookupIn(cursor, selector[i..]) == Lookup(pool, selector)
    {
      var member := Get(cursor, selector[i]);
      assert selector[i..][1..] == selector[i + 1..];
      if member.None? {
        return None;
      }
      cursor := member.value;
    }
    r := Some(cursor);
  }

  // ----- Rendering -----

  /** `show` is the JSON text of values that are neither strings nor null. */
  function Replacement(inner: string, pool: Pool, show: Value -> string): string {
    var path := RuntimePath(inner);
    match if path.Some? then Lookup(pool, path.value) else None
    case Some(String(text)) => text
    case Some(Null) => "null"
    case Some(v) => show(v)
    case None => OPEN + inner + CLOSE
  }

  /** Each token is replaced once, left to right; replacements are not looked at again. */
  function Render(c: Cut, pool: Pool, show: Value -> string): string {
    match c
    case Last(text) => text
    case Piece(text, inner, rest) => text + Replacement(inner, pool, show) + Render(rest, pool, show)
  }

  method RenderTemplate(template: string, pool: Pool, show: Value -> string) returns (rendered: string)
    ensures rendered == Render(CutAtTokens(template), pool, show)
  {
    hide Replacement, Find, Render, CutAtTokens;
    rendered := "";
    var cursor := 0;
    assert template[0..] == template;
    while true
      invariant cursor <= |template|
      invariant rendered + Render(CutAtTokens(template[cursor..]), pool, show)
             == Render(CutAtTokens(template), pool, show)
      decreases |template| - cursor
    {
      ghost var rest := template[cursor..];
      var startOffset := Find(template[cursor..], OPEN);
      if startOffset.None? {
        NoToken(rest, pool, show);
        break;
      }
      var start := cursor + startOffset.value;
      var tokenStart := start + 2;
      var endOffset := Find(template[tokenStart..], CLOSE);
      assert rest[startOffset.value + 2..] == template[tokenStart..];
      if endOffset.None? {
        NoToken(rest, pool, show);
        assert rendered + (template[cursor..start] + template[start..]) == rendered + rest;
        return rendered + template[cursor..start] + template[start..];
      }
      var tokenEnd := tokenStart + endOffset.value;
      var replacement := ReplaceToken(template[tokenStart..tokenEnd], pool, show);
      RenderStep(template, cursor, startOffset.value, endOffset.value, rendered, pool, show);
      rendered := rendered + template[cursor..start] + replacement;
      cursor := tokenEnd + 2;
    }
    rendered := rendered + template[cursor..];
  }

  lemma NoToken(t: string, pool: Pool, show: Value -> string)
    requires NextToken(t).None?
    ensures Render(CutAtTokens(t), pool, show) == t
  {
  }

  lemma NoSelector(t: string)
    requires NextToken(t).None?
    ensures Selectors(CutAtTokens(t)) == []
  {
  }

  lemma RenderStep(t: string, cursor: nat, i: nat, n: nat, rendered: string, pool: Pool, show: Value -> string)
    requires cursor <= |t| && NextToken(t[cursor..]) == Some((i, n))
    ensures var start := cursor + i + 2;
            rendered + Render(CutAtTokens(t[cursor..]), pool, show) ==
            rendered + t[cursor..cursor + i] + Replacement(t[start..start + n], pool, show)
            + Render(CutAtTokens(t[start + n + 2..]), pool, show)
  {
    hide NextToken, CutAtTokens, Replacement;
    CutStep(t, cursor, i, n);
  }

  lemma SelectorsStep(t: string, cursor: nat, i: nat, n: nat, selectors: seq<Path>)
    requires cursor <= |t| && NextToken(t[cursor..]) == Some((i, n))
    ensures var start := cursor + i + 2;
            var selector := CompiledSelector(t[start..start + n]);
            selectors + Selectors(CutAtTokens(t[cursor..])) ==
            (if selector.Some? then selectors + [selector.value] else selectors)
            + Selectors(CutAtTokens(t[start + n + 2..]))
  {
    hide NextToken, CutAtTokens, CompiledSelector;
    CutStep(t, cursor, i, n);
  }

  lemma CutStep(t: string, cursor: nat, i: nat, n: nat)
    requires cursor <= |t| && NextToken(t[cursor..]) == Some((i, n))
    ensures var start := cursor + i + 2;
            CutAtTokens(t[cursor..]) ==
            Piece(t[cursor..cursor + i], t[start..start + n], CutAtTokens(t[start + n + 2..]))
  {
    hide NextToken;
    var rest := t[cursor..];
    assert rest[..i] == t[cursor..cursor + i];
    assert rest[i + 2..i + 2 + n] == t[cursor + i + 2..cursor + i + 2 + n];
    assert rest[i + n + 4..] == t[cursor + i + n + 4..];
  }

  method ReplaceToken(inner: string, pool: Pool, show: Value -> string) returns (r: string)
    ensures r == Replacement(inner, pool, show)
  {
    var parts := Split(Trim(inner), '.');
    if |parts| >= 2 {
      var found := LookupSelectorValue(pool, parts);
      match found
      case Some(String(text)) => r := text;
      case Some(Null) => r := "null";
      case Some(v) => r := show(v);
      case None => r := OPEN + inner + CLOSE;
    } else {
      r := OPEN + inner + CLOSE;
    }
  }

  // ----- The compiler's scanner -----

  function Selectors(c: Cut): seq<Path> {
    match c
    case Last(_) => []
    case Piece(_, inner, rest) =>
      (if CompiledSelector(inner).Some? then [CompiledSelector(inner).value] else []) + Selectors(rest)
  }

  /** Lists the selectors of exactly the tokens the renderer replaces, in order. */
  method ParseTemplateSelectorTokens(value: string) returns (selectors: seq<Path>)
    ensures selectors == Selectors(CutAtTokens(value))
  {
    hide CompiledSelector, Find, Selectors, CutAtTokens;
    selectors := [];
    var cursor := 0;
    assert value[0..] == value;
    while true
      invariant cursor <= |value|
      invariant selectors + Selectors(CutAtTokens(value[cursor..])) == Selectors(CutAtTokens(value))
      decreases |value| - cursor
    {
      ghost var rest := value[cursor..];
      var startOffset := Find(value[cursor..], OPEN);
      if startOffset.None? {
        NoSelector(rest);
        break;
      }
      var start := cursor + startOffset.value + 2;
      var endOffset := Find(value[start..], CLOSE);
      assert rest[startOffset.value + 2..] == value[start..];
      if endOffset.None? {
        NoSelector(rest);
        break;
      }
      var end := start + endOffset.value;
      SelectorsStep(value, cursor, startOffset.value, endOffset.value, selectors);
      var selector := ParseToken(value[start..end]);
      if selector.Some? {
        selectors := selectors + [selector.value];
      }
      cursor := end + 2;
    }
  }

  method ParseToken(inner: string) returns (selector: Option<Path>)
    ensures selector == CompiledSelector(inner)
  {
    var token := Trim(inner);
    var dot := Find(token, ".");
    selector := None;
    if dot.Some? {
      var left, right := Trim(token[..dot.value]), Trim(token[dot.value + 1..]);
      if left != "" && right != "" {
        selector := Some([left, right]);
      }
    }
  }

  // ----- What a rendering depends on -----

  /** With nothing to look up, rendering is the identity. */
  lemma RenderWithEmptyPool(t: string, show: Value -> string)
    ensures Render(CutAtTokens(t), map[], show) == t
  {
    RenderEmptyCut(CutAtTokens(t), show);
    UnparseCut(t);
  }

  lemma {:induction false} RenderEmptyCut(c: Cut, show: Value -> string)
    ensures Render(c, map[], show) == Unparse(c)
  {
    if c.Piece? { RenderEmptyCut(c.rest, show); }
  }

  /** The paths that rendering looks up. */
  function RuntimePaths(c: Cut): seq<Path> {
    match c
    case Last(_) => []
    case Piece(_, inner, rest) =>
      (if RuntimePath(inner).Some? then [RuntimePath(inner).value] else []) + RuntimePaths(rest)
  }

  ghost predicate Agree(p: Pool, q: Pool, paths: seq<Path>) {
    forall path | path in paths :: Lookup(p, path) == Lookup(q, path)
  }

  /** Pools that agree on what is looked up render alike. */
  lemma {:induction false} RenderDependsOnPaths(c: Cut, p: Pool, q: Pool, show: Value -> string)
    requires Agree(p, q, RuntimePaths(c))
    ensures Render(c, p, show) == Render(c, q, show)
  {
    hide RuntimePath, Lookup;
    match c
    case Last(_) =>
    case Piece(_, inner, rest) =>
      assert forall path | path in RuntimePaths(rest) :: path in RuntimePaths(c);
      RenderDependsOnPaths(rest, p, q, show);
      if RuntimePath(inner).Some? { assert RuntimePath(inner).value in RuntimePaths(c); }
  }

  predicate IsPrefix(a: Path, b: Path) {
    |a| <= |b| && b[..|a|] == a
  }

  ghost predicate Covered(selectors: seq<Path>, path: Path) {
    exists selector :: selector in selectors && IsPrefix(selector, path)
  }

  lemma PrefixTransitive(a: Path, b: Path, c: Path)
    requires IsPrefix(b, c)
    ensures IsPrefix(a, b) ==> IsPrefix(a, c)
  {
    if IsPrefix(a, b) { assert c[..|a|] == b[..|a|]; }
  }

  lemma {:induction false} LookupInPrefix(v: Value, a: Path, b: Path)
    requires IsPrefix(a, b)
    ensures LookupIn(v, b) == if LookupIn(v, a).Some? then LookupIn(LookupIn(v, a).value, b[|a|..]) else None
    decreases |a|
  {
    if a == [] {
      assert b[0..] == b;
    } else if Get(v, a[0]).Some? {
      assert a[0] == b[0] && b[1..][..|a[1..]|] == a[1..] && b[1..][|a[1..]|..] == b[|a|..];
      LookupInPrefix(Get(v, a[0]).value, a[1..], b[1..]);
    } else {
      assert a[0] == b[0];
    }
  }

  lemma AgreeBelow(p: Pool, q: Pool, a: Path, b: Path)
    requires IsPrefix(a, b) && a != [] && Lookup(p, a) == Lookup(q, a)
    ensures Lookup(p, b) == Lookup(q, b)
  {
    assert a[0] == b[0] && b[1..][..|a[1..]|] == a[1..];
    if a[0] in p { LookupInPrefix(p[a[0]], a[1..], b[1..]); }
    if a[0] in q { LookupInPrefix(q[a[0]], a[1..], b[1..]); }
  }

  lemma {:induction false} SelectorsArePairs(c: Cut)
    ensures Pairs(Selectors(c))
  {
    if c.Piece? { SelectorsArePairs(c.rest); }
  }

  lemma {:induction false} PathsAreDotted(c: Cut)
    ensures forall path | path in RuntimePaths(c) :: |path| >= 2
  {
    if c.Piece? { PathsAreDotted(c.rest); }
  }

  ghost predicate Pairs(selectors: seq<Path>) {
    forall s | s in selectors :: |s| == 2
  }

  lemma CoveredAgree(c: Cut, selectors: seq<Path>, p: Pool, q: Pool)
    requires Pairs(selectors) && forall path | path in RuntimePaths(c) :: Covered(selectors, path)
    requires Agree(p, q, selectors)
    ensures Agree(p, q, RuntimePaths(c))
  {
    forall path | path in RuntimePaths(c)
      ensures Lookup(p, path) == Lookup(q, path)
    {
      assert Covered(selectors, path);
      var selector :| selector in selectors && IsPrefix(selector, path);
      AgreeBelow(p, q, selector, path);
    }
  }

  /** A pool with a single path. */
  function Chain(path: Path, leaf: Value): Value {
    if path == [] then leaf else Object(map[path[0] := Chain(path[1..], leaf)])
  }

  lemma {:induction false} LookupInChain(path: Path, text: string, q: Path)
    ensures q == path ==> LookupIn(Chain(path, String(text)), q) == Some(String(text))
    ensures !IsPrefix(q, path) ==> LookupIn(Chain(path, String(text)), q) == None
  {
    if q == [] {
      assert IsPrefix(q, path);
    } else if path != [] && path[0] == q[0] {
      LookupInChain(path[1..], text, q[1..]);
      if IsPrefix(q[1..], path[1..]) {
        assert path[..|q|] == [path[0]] + path[1..][..|q| - 1] == [q[0]] + q[1..] == q;
      }
    } else if path == [] {
      assert !IsPrefix(q, path);
    }
  }

  function ChainPool(path: Path, text: string): Pool
    requires path != []
  {
    map[path[0] := Chain(path[1..], String(text))]
  }

  lemma LookupChainPool(path: Path, text: string, q: Path)
    requires path != [] && q != []
    ensures q == path ==> Lookup(ChainPool(path, text), q) == Some(String(text))
    ensures !IsPrefix(q, path) ==> Lookup(ChainPool(path, text), q) == None
  {
    if q[0] == path[0] {
      LookupInChain(path[1..], text, q[1..]);
      if IsPrefix(q[1..], path[1..]) {
        assert path[..|q|] == [path[0]] + path[1..][..|q| - 1] == [q[0]] + q[1..] == q;
      }
    }
  }

  /** Among the uncovered paths there is one that no other is a strict prefix of. */
  lemma {:induction false} ShortestUncovered(c: Cut, selectors: seq<Path>, path: Path) returns (shortest: Path)
    requires path in RuntimePaths(c) && !Covered(selectors, path)
    ensures shortest in RuntimePaths(c) && !Covered(selectors, shortest)
    ensures forall p | p in RuntimePaths(c) && IsPrefix(p, shortest) :: p == shortest
    decreases |path|
  {
    if exists p :: p in RuntimePaths(c) && IsPrefix(p, path) && p != path {
      var p :| p in RuntimePaths(c) && IsPrefix(p, path) && p != path;
      forall s | s in selectors
        ensures !IsPrefix(s, p)
      {
        assert !IsPrefix(s, path);
        PrefixTransitive(s, p, path);
      }
      shortest := ShortestUncovered(c, selectors, p);
    } else {
      shortest := path;
    }
  }

  function Occurrences(c: Cut, path: Path): nat {
    match c
    case Last(_) => 0
    case Piece(_, inner, rest) => (if RuntimePath(inner) == Some(path) then 1 else 0) + Occurrences(rest, path)
  }

  lemma {:induction false} RenderedLengths(c: Cut, path: Path, show: Value -> string)
    requires path != [] && forall p | p in RuntimePaths(c) && IsPrefix(p, path) :: p == path
    ensures |Render(c, ChainPool(path, "x"), show)| == |Render(c, ChainPool(path, ""), show)| + Occurrences(c, path)
    ensures path in RuntimePaths(c) ==> Occurrences(c, path) > 0
  {
    hide RuntimePath, Lookup, ChainPool;
    match c
    case Last(_) =>
    case Piece(_, inner, rest) =>
      assert forall p | p in RuntimePaths(rest) :: p in RuntimePaths(c);
      RenderedLengths(rest, path, show);
      match RuntimePath(inner)
      case None =>
      case Some(p) =>
        assert p in RuntimePaths(c);
        PathsAreDotted(c);
        LookupChainPool(path, "x", p);
        LookupChainPool(path, "", p);
  }

  /** Two pools that agree on the selectors and render differently, if the runtime looks up a path that does not start
      with one of them. */
  lemma UncoveredDiffers(c: Cut, selectors: seq<Path>, path: Path, show: Value -> string) returns (p: Pool, q: Pool)
    requires Pairs(selectors) && path in RuntimePaths(c) && !Covered(selectors, path)
    ensures Agree(p, q, selectors) && Render(c, p, show) != Render(c, q, show)
  {
    var shortest := ShortestUncovered(c, selectors, path);
    PathsAreDotted(c);
    p, q := ChainPool(shortest, "x"), ChainPool(shortest, "");
    forall s | s in selectors
      ensures Lookup(p, s) == Lookup(q, s)
    {
      assert !IsPrefix(s, shortest);
      LookupChainPool(shortest, "x", s);
      LookupChainPool(shortest, "", s);
    }
    RenderedLengths(c, shortest, show);
  }

  /** Main result: what the compiler records determines the rendering exactly when every path the runtime looks up
      starts with a recorded selector. So a plan's declared dependencies are complete for such templates, and for
      every other template two pools that agree on all of them render differently. */
  lemma SelectorsDetermineRendering(c: Cut, show: Value -> string)
    ensures (forall path | path in RuntimePaths(c) :: Covered(Selectors(c), path)) <==>
            (forall p: Pool, q: Pool | Agree(p, q, Selectors(c)) :: Render(c, p, show) == Render(c, q, show))
  {
    SelectorsArePairs(c);
    if forall path | path in RuntimePaths(c) :: Covered(Selectors(c), path) {
      forall p: Pool, q: Pool | Agree(p, q, Selectors(c))
        ensures Render(c, p, show) == Render(c, q, show)
      {
        CoveredAgree(c, Selectors(c), p, q);
        RenderDependsOnPaths(c, p, q, show);
      }
    } else {
      var path :| path in RuntimePaths(c) && !Covered(Selectors(c), path);
      var p, q := UncoveredDiffers(c, Selectors(c), path, show);
    }
  }

  ghost predicate AllTokensSimple(c: Cut) {
    c.Piece? ==> (RuntimePath(c.inner).Some? ==> SimpleToken(c.inner)) && AllTokensSimple(c.rest)
  }

  /** In particular when every dotted token is simple. */
  lemma {:induction false} SimpleTokensAreCovered(c: Cut)
    requires AllTokensSimple(c)
    ensures Selectors(c) == RuntimePaths(c)
    ensures forall path | path in RuntimePaths(c) :: Covered(Selectors(c), path)
  {
    if c.Piece? {
      hide RuntimePath, SimpleToken, CompiledSelector;
      SimpleTokensAreCovered(c.rest);
      SelectorIsPathIffSimple(c.inner);
      UndottedHasNoSelector(c.inner);
    }
    forall path | path in RuntimePaths(c)
      ensures Covered(Selectors(c), path)
    {
      assert IsPrefix(path, path);
    }
  }

  lemma UndottedHasNoSelector(inner: string)
    ensures RuntimePath(inner).None? ==> CompiledSelector(inner).None?
  {
    SplitAtDot(Trim(inner));
  }

  /** A token with two dots is recorded as a member named `b.c` but looked up as a member of a member. */
  lemma TwoDotsAreNotRecorded()
    ensures CompiledSelector("a.b.c") == Some(["a", "b.c"])
    ensures RuntimePath("a.b.c") == Some(["a", "b", "c"])
    ensures !SimpleToken("a.b.c")
  {
    hide Find, Split, Trim, RuntimePath, CompiledSelector, SimpleToken;
    var token, rest := "a.b.c", "b.c";
    FirstDot(token, 1);
    FirstDot(rest, 1);
    NoDot("c");
    assert token[..1] == "a" && token[2..] == rest && rest[..1] == "b" && rest[2..] == "c";
    SplitAtDot(token);
    SplitAtDot(rest);
    SplitAtDot("c");
    assert Split(token, '.') == ["a"] + (["b"] + ["c"]) == ["a", "b", "c"];
    TwoDotsRead(token, 1);
    SelectorIsPathIffSimple(token);
  }

  lemma FirstDot(s: string, k: nat)
    requires k < |s| && s[k] == '.' && forall j | 0 <= j < k :: s[j] != '.'
    ensures Find(s, ".") == Some(k)
  {
    assert s[k..k + 1] == ".";
    assert OccursAt(s, ".", k);
    forall j: nat | j < k
      ensures !OccursAt(s, ".", j)
    {
      assert s[j..j + 1][0] == s[j];
    }
  }

  lemma NoDot(s: string)
    requires forall j | 0 <= j < |s| :: s[j] != '.'
    ensures Find(s, ".").None?
  {
    forall j: nat
      ensures !OccursAt(s, ".", j)
    {
      if j < |s| { assert s[j..j + 1][0] == s[j]; }
    }
  }

  lemma TwoDotsRead(token: string, k: nat)
    requires TrimmedStart(token) && TrimmedEnd(token) && |Split(token, '.')| >= 2 && Find(token, ".") == Some(k)
    requires TrimmedStart(token[..k]) && TrimmedEnd(token[..k])
    requires TrimmedStart(token[k + 1..]) && TrimmedEnd(token[k + 1..])
    requires 0 < k < |token| - 1
    ensures RuntimePath(token) == Some(Split(token, '.'))
    ensures CompiledSelector(token) == Some([token[..k], token[k + 1..]])
  {
  }
}
