/** Escapes in JSON pointers, and where references whose first token is not quite `components` lead. */
module PointerEscapes {
  import opened Wrappers
  import opened Text
  import opened JsonPointer

  // ----- Replacing at the front of a text -----

  lemma FindBehind(c: char, rest: string, pattern: string)
    requires !OccursAt([c] + rest, pattern, 0)
    ensures match Find(rest, pattern)
            case None => Find([c] + rest, pattern).None?
            case Some(i) => Find([c] + rest, pattern) == Some(i + 1)
  {
    var s := [c] + rest;
    assert s[1..|s|] == rest;
    forall i: nat
      ensures OccursAt(rest, pattern, i) <==> OccursAt(s, pattern, i + 1)
    {
      OccursInPart(s, pattern, 1, |s|, i);
    }
    match Find(s, pattern)
    case None =>
    case Some(i) => assert OccursAt(rest, pattern, i - 1);
  }

  lemma ReplaceHere(pattern: string, rest: string, insert: string)
    requires pattern != ""
    ensures Replace(pattern + rest, pattern, insert) == insert + Replace(rest, pattern, insert)
  {
    hide Find, Replace;
    FoundAtStart(pattern, rest);
    ReplaceAt(pattern + rest, pattern, insert, 0);
    assert (pattern + rest)[..0] == "" && (pattern + rest)[|pattern|..] == rest;
  }

  lemma FoundAtStart(pattern: string, rest: string)
    ensures Find(pattern + rest, pattern) == Some(0)
  {
    hide Find;
    assert (pattern + rest)[0..|pattern|] == pattern;
    assert OccursAt(pattern + rest, pattern, 0);
  }

  lemma ReplaceSkip(c: char, rest: string, pattern: string, insert: string)
    requires pattern != "" && !OccursAt([c] + rest, pattern, 0)
    ensures Replace([c] + rest, pattern, insert) == [c] + Replace(rest, pattern, insert)
  {
    hide Find, Replace;
    FindBehind(c, rest, pattern);
    var s := [c] + rest;
    match Find(rest, pattern)
    case None =>
      ReplaceNone(rest, pattern, insert);
      ReplaceNone(s, pattern, insert);
    case Some(i) =>
      ReplaceAt(rest, pattern, insert, i);
      ReplaceAt(s, pattern, insert, i + 1);
      assert s[..i + 1] == [c] + rest[..i] && s[i + 1 + |pattern|..] == rest[i + |pattern|..];
      var more := Replace(rest[i + |pattern|..], pattern, insert);
      assert ([c] + rest[..i]) + insert + more == [c] + (rest[..i] + insert + more);
  }

  lemma {:induction false} ReplaceBehind(front: string, rest: string, pattern: string, insert: string)
    requires pattern != "" && pattern[0] !in front
    ensures Replace(front + rest, pattern, insert) == front + Replace(rest, pattern, insert)
  {
    hide Replace;
    if front == "" {
      assert front + rest == rest;
    } else {
      var more := front[1..] + rest;
      assert front + rest == [front[0]] + more && front == [front[0]] + front[1..];
      assert ([front[0]] + more)[0] != pattern[0] by { assert front[0] in front; }
      assert !OccursAt([front[0]] + more, pattern, 0);
      ReplaceSkip(front[0], more, pattern, insert);
      ReplaceBehind(front[1..], rest, pattern, insert);
      assert [front[0]] + (front[1..] + Replace(rest, pattern, insert)) == front + Replace(rest, pattern, insert);
    }
  }

  lemma ReplaceNotEmpty(s: string, pattern: string, insert: string)
    requires s != "" && pattern != "" && insert != ""
    ensures Replace(s, pattern, insert) != ""
  {
    hide Find;
  }

  // ----- Escaping -----

  /** `replace('~', "~0")`, then `replace('/', "~1")`. */
  function EscapeToken(name: string): string {
    Replace(Replace(name, "~", "~0"), "/", "~1")
  }

  function Escaped(name: string): string {
    if name == "" then ""
    else (if name[0] == '~' then "~0" else if name[0] == '/' then "~1" else [name[0]]) + Escaped(name[1..])
  }

  function Tildes(name: string): string {
    if name == "" then "" else (if name[0] == '~' then "~0" else [name[0]]) + Tildes(name[1..])
  }

  lemma NothingReplaced(pattern: string, insert: string)
    requires pattern != ""
    ensures Replace("", pattern, insert) == ""
  {
  }

  lemma {:induction false} TildesReplaced(name: string)
    ensures Replace(name, "~", "~0") == Tildes(name)
    ensures Replace(Tildes(name), "/", "~1") == Escaped(name)
  {
    hide Replace;
    if name == "" {
      NothingReplaced("~", "~0");
      NothingReplaced("/", "~1");
    } else {
      var c, rest := name[0], name[1..];
      TildesReplaced(rest);
      assert name == [c] + rest;
      if c == '~' {
        ReplaceHere("~", rest, "~0");
        ReplaceBehind("~0", Tildes(rest), "/", "~1");
      } else {
        assert !OccursAt([c] + rest, "~", 0) by { assert ([c] + rest)[0] != '~'; }
        ReplaceSkip(c, rest, "~", "~0");
        if c == '/' {
          ReplaceHere("/", Tildes(rest), "~1");
          assert "/" + Tildes(rest) == Tildes(name);
        } else {
          ReplaceBehind([c], Tildes(rest), "/", "~1");
        }
      }
    }
  }

  lemma {:induction false} EscapedReplaced(name: string)
    ensures Replace(Escaped(name), "~1", "/") == Tildes(name)
    ensures Replace(Tildes(name), "~0", "~") == name
  {
    hide Replace;
    if name == "" {
      NothingReplaced("~1", "/");
      NothingReplaced("~0", "~");
    } else {
      var c, rest := name[0], name[1..];
      EscapedReplaced(rest);
      assert name == [c] + rest;
      if c == '~' {
        var after := "0" + Escaped(rest);
        assert "~0" + Escaped(rest) == ['~'] + after;
        assert !OccursAt(['~'] + after, "~1", 0) by { assert (['~'] + after)[1] == '0'; }
        ReplaceSkip('~', after, "~1", "/");
        ReplaceBehind("0", Escaped(rest), "~1", "/");
        assert ['~'] + ("0" + Tildes(rest)) == "~0" + Tildes(rest);
        ReplaceHere("~0", Tildes(rest), "~");
      } else if c == '/' {
        ReplaceHere("~1", Escaped(rest), "/");
        ReplaceBehind("/", Tildes(rest), "~0", "~");
      } else {
        ReplaceBehind([c], Escaped(rest), "~1", "/");
        ReplaceBehind([c], Tildes(rest), "~0", "~");
      }
    }
  }

  /** Every name is recovered from its escaped form. */
  lemma EscapeRoundTrip(name: string)
    ensures Unescape(EscapeToken(name)) == name
    ensures '/' !in EscapeToken(name)
  {
    TildesReplaced(name);
    EscapedReplaced(name);
    NoSlashEscaped(name);
    hide Replace;
  }

  lemma {:induction false} NoSlashEscaped(name: string)
    ensures '/' !in Escaped(name)
  {
    if name != "" { NoSlashEscaped(name[1..]); }
  }

  lemma UnescapeBehind(front: string, rest: string)
    requires '~' !in front
    ensures Unescape(front + rest) == front + Unescape(rest)
  {
    hide Replace;
    ReplaceBehind(front, rest, "~1", "/");
    ReplaceBehind(front, Replace(rest, "~1", "/"), "~0", "~");
  }

  lemma UnescapeNotEmpty(s: string)
    requires s != ""
    ensures Unescape(s) != ""
  {
    hide Replace;
    ReplaceNotEmpty(s, "~1", "/");
    ReplaceNotEmpty(Replace(s, "~1", "/"), "~0", "~");
  }

  // ----- Splitting -----

  lemma {:induction false} SplitBehind(front: string, rest: string)
    requires '/' !in front
    ensures Split(front + rest, '/') == [front + Split(rest, '/')[0]] + Split(rest, '/')[1..]
  {
    hide Find, Split;
    if front == "" {
      var parts := Split(rest, '/');
      assert front + rest == rest && front + parts[0] == parts[0];
      assert [parts[0]] + parts[1..] == parts;
    } else {
      var c, more := front[0], front[1..] + rest;
      assert front + rest == [c] + more;
      SplitBehind(front[1..], rest);
      SplitSkip(c, more) by { assert c in front; }
      assert [c] + (front[1..] + Split(rest, '/')[0]) == front + Split(rest, '/')[0];
    }
  }

  lemma SplitSkip(c: char, rest: string)
    requires c != '/'
    ensures Split([c] + rest, '/') == [[c] + Split(rest, '/')[0]] + Split(rest, '/')[1..]
  {
    hide Find, Split;
    var s := [c] + rest;
    assert !OccursAt(s, "/", 0) by { assert s[0] == c; }
    FindBehind(c, rest, "/");
    match Find(rest, "/")
    case None =>
      SplitNone(rest, '/');
      SplitNone(s, '/');
    case Some(i) =>
      SplitAt(rest, '/', i);
      SplitAt(s, '/', i + 1);
      assert s[..i + 1] == [c] + rest[..i] && s[i + 2..] == rest[i + 1..];
  }

  lemma FirstPartNotEmpty(s: string)
    requires s != "" && s[0] != '/'
    ensures Split(s, '/')[0] != ""
  {
    assert !OccursAt(s, "/", 0);
  }

  lemma {:induction false} SlashesCounted(s: string)
    ensures |Split(s, '/')| == |s| - |WithoutSlashes(s)| + 1
    decreases |s|
  {
    hide Find;
    if s != "" {
      var rest := s[1..];
      assert s == [s[0]] + rest;
      SlashesCounted(rest);
      if s[0] == '/' {
        SplitAtSlash("", rest);
        assert "" + "/" + rest == s;
      } else {
        SplitBehind([s[0]], rest);
      }
    } else {
      SplitAtSlash("", "");
    }
  }

  function WithoutSlashes(s: string): string {
    if s == "" then "" else (if s[0] == '/' then "" else [s[0]]) + WithoutSlashes(s[1..])
  }

  // ----- References that begin like references to components -----

  /** The references that pass as references to components. */
  predicate BeginsLikeComponents(reference: string) {
    |reference| >= 12 && reference[0] == '#' && reference[1..12] == COMPONENTS
  }

  /** The first token only begins like `components`. */
  predicate Lookalike(reference: string) {
    BeginsLikeComponents(reference) && |reference| > 12 && reference[12] != '/'
  }

  /** The token behind `components` is empty although more follows. */
  predicate DoubleSlash(reference: string) {
    BeginsLikeComponents(reference) && |reference| > 13 && reference[12] == reference[13] == '/'
  }

  lemma ThreeKinds(reference: string)
    requires BeginsLikeComponents(reference)
    ensures ComponentRef(reference) <==> !Lookalike(reference) && !DoubleSlash(reference)
  {
  }

  /** A lookalike is looked up under another member than `components` and `paths`. */
  lemma LookalikeTokens(reference: string)
    requires Lookalike(reference)
    ensures PointerTokens(reference[1..]).Some?
    ensures var tokens := PointerTokens(reference[1..]).value;
            tokens != [] && tokens[0] !in {"openapi", "info", "paths", "components"}
  {
    hide Split, Unescape;
    var rest := reference[12..];
    assert reference[1..] == COMPONENTS + rest;
    assert reference[1..][1..] == "components" + rest;
    SplitBehind("components", rest);
    FirstPartNotEmpty(rest);
    var first := Split(rest, '/')[0];
    UnescapeBehind("components", first);
    UnescapeNotEmpty(first);
    assert ("components" + Unescape(first))[0] == 'c';
  }

  /** But it is inserted where the reference with the missing slash is. */
  lemma LookalikeInserted(reference: string)
    requires Lookalike(reference)
    ensures InsertionTokens(reference[12..]) == InsertionTokens("/" + reference[12..])
  {
    hide Split;
    assert ("/" + reference[12..])[1..] == reference[12..];
  }

  lemma UnescapeCons(token: string, rest: seq<string>)
    ensures UnescapeAll([token] + rest) == [Unescape(token)] + UnescapeAll(rest)
  {
    assert ([token] + rest)[1..] == rest;
  }

  lemma DoubleSlashTokens(reference: string)
    requires DoubleSlash(reference)
    ensures PointerTokens(reference[1..]) == Some(["components", ""] + UnescapeAll(Split(reference[14..], '/')))
    ensures InsertionTokens(reference[12..]) == InsertionTokens(reference[13..])
  {
    hide Split, Unescape;
    var rest := reference[14..];
    assert reference[12..] == "/" + reference[13..] && reference[13..] == "/" + rest;
    assert reference[1..] == COMPONENTS + ("/" + ("/" + rest));
    assert reference[1..][1..] == "components" + "/" + ("/" + rest);
    SplitAtSlash("components", "/" + rest);
    SplitAtSlash("", rest);
    assert "" + "/" + rest == "/" + rest;
    NothingToUnescape("components");
    NothingToUnescape("");
    var parts := Split(rest, '/');
    UnescapeCons("components", [""] + parts);
    UnescapeCons("", parts);
    assert ["components"] + ([""] + UnescapeAll(parts)) == ["components", ""] + UnescapeAll(parts);
    assert reference[12..][1..] == reference[13..];
  }

  /** Lookup and insertion follow the same way exactly for references to components. */
  lemma SameWayIff(reference: string)
    requires BeginsLikeComponents(reference)
    ensures PointerTokens(reference[1..]) == Some(["components"] + InsertionTokens(reference[12..])) <==>
            ComponentRef(reference)
  {
    ThreeKinds(reference);
    if ComponentRef(reference) {
      ComponentRefTokens(reference);
    } else if Lookalike(reference) {
      LookalikeTokens(reference);
    } else {
      DoubleSlashTokens(reference);
      FewerSlashes(reference[14..]);
      assert reference[13..] == "/" + reference[14..];
      hide InsertionTokens, Split;
    }
  }

  lemma FewerSlashes(s: string)
    ensures |InsertionTokens("/" + s)| <= |Split(s, '/')|
  {
    hide Split, Unescape;
    assert ("/" + s)[1..] == s;
    SlashesCounted(s);
    SlashesCounted(TrimSlashes(s));
    TrimmedCount(s);
  }

  lemma {:induction false} TrimmedCount(s: string)
    ensures |TrimSlashes(s)| - |WithoutSlashes(TrimSlashes(s))| <= |s| - |WithoutSlashes(s)|
  {
    if s != "" && s[0] == '/' { TrimmedCount(s[1..]); }
  }

  predicate AllSlashes(s: string) {
    s == "" || (s[0] == '/' && AllSlashes(s[1..]))
  }

  /** Insertion has an empty first token only for slashes. */
  lemma {:induction false} FirstInsertedToken(s: string)
    requires !AllSlashes(s)
    ensures InsertionTokens(s) != [] && InsertionTokens(s)[0] != ""
  {
    hide Split, Unescape;
    var t := TrimSlashes(s);
    TrimmedNotEmpty(s);
    FirstPartNotEmpty(t);
    UnescapeNotEmpty(Split(t, '/')[0]);
  }

  lemma {:induction false} TrimmedNotEmpty(s: string)
    requires !AllSlashes(s)
    ensures TrimSlashes(s) != "" && TrimSlashes(s)[0] != '/'
  {
    if s[0] == '/' { TrimmedNotEmpty(s[1..]); }
  }
}
