/** JSON pointers (RFC 6901) as `serde_json` reads them, and the insertion used for scoped OpenAPI documents
    (`insert_pointer` in api-server/src/openapi_docs.rs). */
module JsonPointer {
  import opened Wrappers
  import opened Json
  import opened Text

  type Tokens = seq<string>

  /** Section 4 of RFC 6901: first `~1`, then `~0`. */
  function Unescape(token: string): string {
    Replace(Replace(token, "~1", "/"), "~0", "~")
  }

  function UnescapeAll(parts: seq<string>): (r: Tokens)
    ensures |r| == |parts|
  {
    if parts == [] then [] else [Unescape(parts[0])] + UnescapeAll(parts[1..])
  }

  /** The reference tokens of a pointer; `None` for a text that is not a pointer. */
  function PointerTokens(pointer: string): Option<Tokens> {
    if pointer == "" then Some([])
    else if pointer[0] != '/' then None
    else Some(UnescapeAll(Split(pointer[1..], '/')))
  }

  function TrimSlashes(s: string): string {
    if s != "" && s[0] == '/' then TrimSlashes(s[1..]) else s
  }

  /** The tokens an insertion follows: unlike in a lookup, all leading slashes count as one. */
  function InsertionTokens(pointer: string): Tokens {
    if pointer == "" then [] else UnescapeAll(Split(TrimSlashes(pointer), '/'))
  }

  /** Array indices have no sign and no leading zero. */
  function ArrayIndex(token: string): Option<nat> {
    if token == "" || (token[0] == '0' && |token| > 1) then None else DigitsValue(token)
  }

  function Child(v: Value, token: string): Option<Value> {
    match v
    case Object(fields) => if token in fields then Some(fields[token]) else None
    case Array(items) =>
      var i := ArrayIndex(token);
      if i.Some? && i.value < |items| then Some(items[i.value]) else None
    case _ => None
  }

  function Lookup(v: Value, tokens: Tokens): Option<Value> {
    if tokens == [] then Some(v)
    else
      match Child(v, tokens[0])
      case None => None
      case Some(child) => Lookup(child, tokens[1..])
  }

  /** Puts a value in place, creating missing objects on the way. `None` if the way leads through anything else. */
  function Insert(target: Value, tokens: Tokens, v: Value): Option<Value>
    decreases |tokens|
  {
    if tokens == [] then Some(v)
    else if !target.Object? then None
    else
      var child := if tokens[0] in target.fields then target.fields[tokens[0]] else Object(map[]);
      match Insert(child, tokens[1..], v)
      case None => None
      case Some(next) => Some(Object(target.fields[tokens[0] := next]))
  }

  lemma {:induction false} InsertThenLookup(target: Value, tokens: Tokens, v: Value)
    requires Insert(target, tokens, v).Some?
    ensures Lookup(Insert(target, tokens, v).value, tokens) == Some(v)
    decreases |tokens|
  {
    if tokens != [] {
      var child := if tokens[0] in target.fields then target.fields[tokens[0]] else Object(map[]);
      InsertThenLookup(child, tokens[1..], v);
    }
  }

  /** Inserting what is already there changes nothing. */
  lemma {:induction false} InsertSame(target: Value, tokens: Tokens)
    requires Lookup(target, tokens).Some? && Insert(target, tokens, Lookup(target, tokens).value).Some?
    ensures Insert(target, tokens, Lookup(target, tokens).value).value == target
  {
    if tokens != [] {
      InsertSame(target.fields[tokens[0]], tokens[1..]);
    }
  }

  /** `copy` repeats `source` at the given place. */
  ghost predicate Copied(source: Value, copy: Value, tokens: Tokens) {
    Lookup(source, tokens).Some? && Lookup(copy, tokens) == Lookup(source, tokens)
  }

  /** Copying another part of the source, above, below or beside, keeps what was copied before. */
  lemma {:induction false} InsertKeepsCopies(source: Value, copy: Value, tokens: Tokens, kept: Tokens)
    requires Copied(source, copy, kept) && Lookup(source, tokens).Some?
    requires Insert(copy, tokens, Lookup(source, tokens).value).Some?
    ensures Copied(source, Insert(copy, tokens, Lookup(source, tokens).value).value, kept)
    decreases |tokens|
  {
    if kept == [] {
      InsertSame(copy, tokens);
    } else if tokens != [] && tokens[0] == kept[0] {
      InsertKeepsCopies(Child(source, tokens[0]).value, copy.fields[tokens[0]], tokens[1..], kept[1..]);
    }
  }

  predicate IsPrefix(a: Tokens, b: Tokens) {
    |a| <= |b| && b[..|a|] == a
  }

  predicate Comparable(a: Tokens, b: Tokens) {
    IsPrefix(a, b) || IsPrefix(b, a)
  }

  /** An insertion adds nothing beside its own way. */
  lemma {:induction false} InsertAddsOnlyItsWay(target: Value, tokens: Tokens, v: Value, q: Tokens)
    requires Insert(target, tokens, v).Some? && Lookup(Insert(target, tokens, v).value, q).Some?
    ensures Lookup(target, q).Some? || Comparable(q, tokens)
    decreases |tokens|
  {
    if tokens != [] && q != [] && tokens[0] == q[0] {
      var child := if tokens[0] in target.fields then target.fields[tokens[0]] else Object(map[]);
      InsertAddsOnlyItsWay(child, tokens[1..], v, q[1..]);
      if Comparable(q[1..], tokens[1..]) {
        PrefixCons(q, tokens);
        PrefixCons(tokens, q);
      }
    }
  }

  lemma PrefixCons(a: Tokens, b: Tokens)
    requires a != [] && b != [] && a[0] == b[0]
    ensures IsPrefix(a[1..], b[1..]) ==> IsPrefix(a, b)
  {
    if IsPrefix(a[1..], b[1..]) {
      assert b[..|a|] == [b[0]] + b[1..][..|a| - 1];
      assert a == [a[0]] + a[1..];
    }
  }

  // ----- References to components -----

  const COMPONENTS := "/components"

  /** A reference to the components or into them, without an empty first name. */
  predicate ComponentRef(reference: string) {
    && |reference| >= 12 && reference[0] == '#' && reference[1..12] == COMPONENTS
    && (|reference| == 12 || (reference[12] == '/' && (|reference| == 13 || reference[13] != '/')))
  }

  lemma {:induction false} NothingToUnescape(s: string)
    requires '~' !in s
    ensures Unescape(s) == s
  {
    NotFound(s, "~1");
    NotFound(s, "~0");
  }

  lemma NotFound(s: string, pattern: string)
    requires pattern != "" && pattern[0] == '~' && '~' !in s
    ensures Find(s, pattern).None?
  {
    forall i: nat
      ensures !OccursAt(s, pattern, i)
    {
      if i + |pattern| <= |s| { assert s[i..i + |pattern|][0] == s[i] && s[i] in s; }
    }
  }

  lemma SplitAtSlash(first: string, rest: string)
    requires '/' !in first
    ensures Split(first, '/') == [first]
    ensures Split(first + "/" + rest, '/') == [first] + Split(rest, '/')
  {
    var s := first + "/" + rest;
    forall i: nat
      ensures !OccursAt(first, "/", i)
    {
      if i < |first| { assert first[i..i + 1][0] == first[i] && first[i] in first; }
    }
    assert s[|first|..|first| + 1] == "/";
    assert OccursAt(s, "/", |first|);
    forall i: nat | i < |first|
      ensures !OccursAt(s, "/", i)
    {
      assert s[i..i + 1][0] == first[i] && first[i] in first;
    }
    assert Find(s, "/") == Some(|first|);
    assert s[..|first|] == first && s[|first| + 1..] == rest;
  }

  /** A lookup in the whole document and an insertion among the components follow the same way. */
  lemma ComponentRefTokens(reference: string)
    requires ComponentRef(reference)
    ensures PointerTokens(reference[1..]) == Some(["components"] + InsertionTokens(reference[12..]))
  {
    hide Split, Unescape, TrimSlashes;
    var rest := reference[12..];
    assert reference[1..] == "/components" + rest;
    assert reference[1..][1..] == "components" + rest;
    NothingToUnescape("components");
    if rest == "" {
      SplitAtSlash("components", "");
      assert "components" + rest == "components";
      assert UnescapeAll(["components"]) == ["components"];
    } else {
      SplitAtSlash("components", rest[1..]);
      assert "components" + rest == "components" + "/" + rest[1..];
      TrimOneSlash(rest);
      var parts := Split(rest[1..], '/');
      assert (["components"] + parts)[1..] == parts;
    }
  }

  lemma TrimOneSlash(s: string)
    requires s != "" && s[0] == '/' && (|s| == 1 || s[1] != '/')
    ensures TrimSlashes(s) == s[1..]
  {
  }
}
