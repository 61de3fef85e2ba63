/** Where the tokens of a template are and what they mean, told from the characters of the template and not from the
    scanners. */
module TemplateTokens {
  import opened Wrappers
  import opened Json
  import opened Template
  import opened Text

  // ----- The cut of a template -----

  predicate TwiceAt(s: string, c: char, i: nat) {
    i + 1 < |s| && s[i] == s[i + 1] == c
  }

  ghost predicate Never(s: string, c: char) {
    forall i: nat :: !TwiceAt(s, c, i)
  }

  ghost predicate FirstTwice(s: string, c: char, k: nat) {
    TwiceAt(s, c, k) && forall i: nat | i < k :: !TwiceAt(s, c, i)
  }

  /** A text in front of a token: it holds no opening, and with the token's own opening behind it there is none
      earlier. */
  ghost predicate TextBefore(s: string) {
    Never(s, '{') && (s != "" ==> s[|s| - 1] != '{')
  }

  /** What stands between the braces: no closing comes earlier than that of the token. */
  ghost predicate InnerText(s: string) {
    Never(s, '}') && (s != "" ==> s[|s| - 1] != '}')
  }

  /** A text without tokens: no closing behind an opening. */
  ghost predicate NoTokens(s: string) {
    forall i: nat, j: nat | TwiceAt(s, '{', i) && TwiceAt(s, '}', j) :: j < i + 2
  }

  ghost predicate Proper(c: Cut) {
    match c
    case Last(text) => NoTokens(text)
    case Piece(text, inner, rest) => TextBefore(text) && InnerText(inner) && Proper(rest)
  }

  lemma OccursTwice(s: string, c: char, i: nat)
    ensures OccursAt(s, [c, c], i) <==> TwiceAt(s, c, i)
  {
    if i + 2 <= |s| { assert s[i..i + 2] == [s[i], s[i + 1]]; }
  }

  lemma FindTwice(s: string, c: char)
    ensures match Find(s, [c, c])
            case None => Never(s, c)
            case Some(k) => FirstTwice(s, c, k)
  {
    forall i: nat
      ensures OccursAt(s, [c, c], i) <==> TwiceAt(s, c, i)
    {
      OccursTwice(s, c, i);
    }
    hide OccursAt, TwiceAt;
  }

  lemma FoundAt(s: string, c: char, k: nat)
    requires FirstTwice(s, c, k)
    ensures Find(s, [c, c]) == Some(k)
  {
    FindTwice(s, c);
    hide TwiceAt, Find;
    if Find(s, [c, c]).Some? {
      var j := Find(s, [c, c]).value;
      assert !(k < j) && !(j < k);
    }
  }

  lemma {:induction false} CutIsProper(t: string)
    ensures Proper(CutAtTokens(t))
    decreases |t|
  {
    hide Find, OccursAt, TextBefore, InnerText, NoTokens;
    FindTwice(t, '{');
    match Find(t, OPEN)
    case None => NothingOpens(t);
    case Some(i) =>
      FindTwice(t[i + 2..], '}');
      match Find(t[i + 2..], CLOSE)
      case None => NothingCloses(t, i);
      case Some(n) =>
        TokenIsProper(t, i, n);
        CutIsProper(t[i + n + 4..]);
        CutAt(t, i, n);
  }

  lemma NothingOpens(t: string)
    requires Never(t, '{')
    ensures NoTokens(t)
  {
    hide TwiceAt;
  }

  lemma NothingCloses(t: string, i: nat)
    requires FirstTwice(t, '{', i) && Never(t[i + 2..], '}')
    ensures NoTokens(t)
  {
    forall a: nat, b: nat | TwiceAt(t, '{', a) && TwiceAt(t, '}', b)
      ensures b < a + 2
    {
      assert a >= i;
      if b >= i + 2 { assert TwiceAt(t[i + 2..], '}', b - i - 2); }
    }
  }

  lemma TokenIsProper(t: string, i: nat, n: nat)
    requires FirstTwice(t, '{', i) && FirstTwice(t[i + 2..], '}', n)
    ensures i + 2 + n + 2 <= |t|
    ensures TextBefore(t[..i]) && InnerText(t[i + 2..i + 2 + n])
  {
    var behind := t[i + 2..];
    assert TwiceAt(t, '{', i) && TwiceAt(behind, '}', n);
    hide TwiceAt, Never, FirstTwice;
    PrefixBefore(t, '{', i);
    PrefixBefore(behind, '}', n);
    assert behind[..n] == t[i + 2..i + 2 + n];
  }

  lemma CutAt(t: string, i: nat, n: nat)
    requires Find(t, OPEN) == Some(i) && Find(t[i + 2..], CLOSE) == Some(n)
    ensures i + 2 + n + 2 <= |t|
    ensures CutAtTokens(t) == Piece(t[..i], t[i + 2..i + 2 + n], CutAtTokens(t[i + n + 4..]))
  {
    NextTokenAt(t, i, n);
    hide *;
    CutNext(t, i, n);
  }

  lemma CutNext(t: string, i: nat, n: nat)
    requires NextToken(t) == Some((i, n)) && i + 2 + n + 2 <= |t|
    ensures CutAtTokens(t) == Piece(t[..i], t[i + 2..i + 2 + n], CutAtTokens(t[i + n + 4..]))
  {
    hide NextToken, Find, OccursAt;
  }

  lemma NextTokenAt(t: string, i: nat, n: nat)
    requires Find(t, OPEN) == Some(i) && Find(t[i + 2..], CLOSE) == Some(n)
    ensures NextToken(t) == Some((i, n)) && i + 2 + n + 2 <= |t|
  {
    hide Find, OccursAt;
  }

  lemma PrefixBefore(s: string, c: char, k: nat)
    requires FirstTwice(s, c, k)
    ensures k <= |s| && Never(s[..k], c)
    ensures k > 0 ==> s[..k][k - 1] != c
  {
    if k > 0 { assert !TwiceAt(s, c, k - 1); }
    forall i: nat
      ensures !TwiceAt(s[..k], c, i)
    {
      if TwiceAt(s[..k], c, i) { assert TwiceAt(s, c, i); }
    }
  }

  lemma FirstBehind(a: string, c: char, rest: string)
    requires Never(a, c) && (a != "" ==> a[|a| - 1] != c)
    ensures Find(a + [c, c] + rest, [c, c]) == Some(|a|)
  {
    var s := a + [c, c] + rest;
    forall i: nat | i < |a|
      ensures !TwiceAt(s, c, i)
    {
      assert !TwiceAt(a, c, i);
    }
    FoundAt(s, c, |a|);
  }

  lemma NoTokensToFind(t: string)
    requires NoTokens(t)
    ensures CutAtTokens(t) == Last(t)
  {
    FindTwice(t, '{');
    match Find(t, OPEN)
    case None =>
    case Some(i) =>
      var behind := t[i + 2..];
      FindTwice(behind, '}');
      match Find(behind, CLOSE)
      case None =>
      case Some(n) => assert TwiceAt(t, '}', i + 2 + n);
  }

  lemma {:induction false} ProperIsCut(c: Cut)
    requires Proper(c)
    ensures CutAtTokens(Unparse(c)) == c
  {
    hide CutAtTokens, TextBefore, InnerText, NoTokens;
    match c
    case Last(text) => NoTokensToFind(text);
    case Piece(text, inner, rest) =>
      ProperIsCut(rest);
      TokenIsCut(text, inner, Unparse(rest));
      assert text + (OPEN + inner + CLOSE) + Unparse(rest) == text + "{{" + inner + "}}" + Unparse(rest);
  }

  /** The first token of a template. */
  lemma TokenIsCut(pre: string, inner: string, post: string)
    requires TextBefore(pre) && InnerText(inner)
    ensures CutAtTokens(pre + "{{" + inner + "}}" + post) == Piece(pre, inner, CutAtTokens(post))
  {
    var t := pre + "{{" + inner + "}}" + post;
    var behind := inner + "}}" + post;
    Slices(pre, inner, post);
    assert "{{" == ['{', '{'] && "}}" == ['}', '}'];
    FirstBehind(pre, '{', behind);
    FirstBehind(inner, '}', post);
    hide *;
    CutAt(t, |pre|, |inner|);
  }

  lemma Slices(pre: string, inner: string, post: string)
    ensures var t := pre + "{{" + inner + "}}" + post;
            var i, n := |pre|, |inner|;
            && t == pre + "{{" + (inner + "}}" + post)
            && t[..i] == pre && t[i + 2..] == inner + "}}" + post
            && t[i + 2..i + 2 + n] == inner && t[i + n + 4..] == post
  {
  }

  /** Main result: a template has one proper cut, and the scanners cut it there. */
  lemma CutIff(c: Cut, t: string)
    ensures c == CutAtTokens(t) <==> Proper(c) && Unparse(c) == t
  {
    CutIsProper(t);
    UnparseCut(t);
    if Proper(c) { ProperIsCut(c); }
  }

  // ----- What a token names -----

  function JoinDots(parts: seq<string>): string
    requires parts != []
  {
    if |parts| == 1 then parts[0] else parts[0] + "." + JoinDots(parts[1..])
  }

  predicate Dotless(s: string) {
    '.' !in s
  }

  /** The token, without the blanks around it, is these parts with dots between them. */
  ghost predicate Names(inner: string, parts: seq<string>) {
    |parts| >= 2 && (forall i | 0 <= i < |parts| :: Dotless(parts[i])) && Trim(inner) == JoinDots(parts)
  }

  lemma {:induction false} SplitDots(s: string)
    ensures (forall i | 0 <= i < |Split(s, '.')| :: Dotless(Split(s, '.')[i])) && JoinDots(Split(s, '.')) == s
    decreases |s|
  {
    hide Split, OccursAt;
    FirstDotOf(s);
    match Find(s, ".")
    case None => SplitNone(s, '.');
    case Some(k) =>
      SplitAt(s, '.', k);
      var rest := Split(s[k + 1..], '.');
      SplitDots(s[k + 1..]);
      assert ([s[..k]] + rest)[1..] == rest;
      assert s == s[..k] + "." + s[k + 1..];
  }

  lemma FirstDotOf(s: string)
    ensures match Find(s, ".")
            case None => Dotless(s)
            case Some(k) => k < |s| && s[k] == '.' && Dotless(s[..k])
  {
    match Find(s, ".")
    case None => if i :| 0 <= i < |s| && s[i] == '.' { assert s[i..i + 1] == "."; assert OccursAt(s, ".", i); }
    case Some(k) =>
      assert s[k..k + 1][0] == '.';
      if i :| 0 <= i < k && s[i] == '.' {
        assert s[i..i + 1] == ".";
        assert OccursAt(s, ".", i);
      }
  }

  lemma {:induction false} JoinedIsSplit(parts: seq<string>)
    requires parts != [] && forall i | 0 <= i < |parts| :: Dotless(parts[i])
    ensures Split(JoinDots(parts), '.') == parts
  {
    hide Split;
    if |parts| == 1 {
      NoDot(parts[0]);
      SplitNone(parts[0], '.');
    } else {
      var s, k := JoinDots(parts), |parts[0]|;
      JoinedIsSplit(parts[1..]);
      FirstDot(s, k);
      SplitAt(s, '.', k);
      assert s[..k] == parts[0] && s[k + 1..] == JoinDots(parts[1..]);
      assert parts == [parts[0]] + parts[1..];
    }
  }

  /** The runtime looks up the parts between all dots, if there is a dot. */
  lemma RuntimePathIff(inner: string, parts: seq<string>)
    ensures RuntimePath(inner) == Some(parts) <==> Names(inner, parts)
  {
    hide Split, Trim;
    SplitDots(Trim(inner));
    if Names(inner, parts) { JoinedIsSplit(parts); }
  }

  /** The compiler records the trimmed texts on both sides of the first dot, if neither is blank. */
  lemma CompiledSelectorIff(inner: string, a: string, b: string)
    requires Trim(inner) == a + "." + b && Dotless(a)
    ensures CompiledSelector(inner) ==
            if Trim(a) != "" && Trim(b) != "" then Some([Trim(a), Trim(b)]) else None
  {
    hide Trim;
    var token := Trim(inner);
    FirstDot(token, |a|);
    assert token[..|a|] == a && token[|a| + 1..] == b;
  }

  lemma DotlessIsNotRecorded(inner: string)
    requires Dotless(Trim(inner))
    ensures CompiledSelector(inner) == None && RuntimePath(inner) == None
  {
    hide Trim, Split;
    NoDot(Trim(inner));
    SplitNone(Trim(inner), '.');
  }

  // ----- One token -----

  /** Main result: the first token of a template is rendered as the text of the value it names, or stays as written, and
      what is behind it is rendered as if it stood alone. */
  lemma RenderOneToken(pre: string, inner: string, post: string, parts: seq<string>, pool: Pool, show: Value -> string)
    requires TextBefore(pre) && InnerText(inner) && Names(inner, parts)
    ensures var text := match Lookup(pool, parts)
                        case None => "{{" + inner + "}}"
                        case Some(String(s)) => s
                        case Some(Null) => "null"
                        case Some(v) => show(v);
            Render(CutAtTokens(pre + "{{" + inner + "}}" + post), pool, show) ==
            pre + text + Render(CutAtTokens(post), pool, show)
  {
    TokenIsCut(pre, inner, post);
    RuntimePathIff(inner, parts);
    hide CutAtTokens, RuntimePath, Lookup, TextBefore, InnerText;
    assert OPEN + inner + CLOSE == "{{" + inner + "}}";
  }

  /** A token without a dot stays as written and is not recorded. */
  lemma DotlessToken(pre: string, inner: string, post: string, pool: Pool, show: Value -> string)
    requires TextBefore(pre) && InnerText(inner) && Dotless(Trim(inner))
    ensures Render(CutAtTokens(pre + "{{" + inner + "}}" + post), pool, show) ==
            pre + ("{{" + inner + "}}") + Render(CutAtTokens(post), pool, show)
    ensures Selectors(CutAtTokens(pre + "{{" + inner + "}}" + post)) == Selectors(CutAtTokens(post))
  {
    TokenIsCut(pre, inner, post);
    DotlessIsNotRecorded(inner);
    hide CutAtTokens, RuntimePath, CompiledSelector, Lookup, TextBefore, InnerText;
    assert OPEN + inner + CLOSE == "{{" + inner + "}}";
  }

  /** And the selector of the first token comes first. */
  lemma SelectOneToken(pre: string, inner: string, post: string, a: string, b: string)
    requires TextBefore(pre) && InnerText(inner) && Trim(inner) == a + "." + b && Dotless(a)
    ensures Selectors(CutAtTokens(pre + "{{" + inner + "}}" + post)) ==
            (if Trim(a) != "" && Trim(b) != "" then [[Trim(a), Trim(b)]] else []) + Selectors(CutAtTokens(post))
  {
    TokenIsCut(pre, inner, post);
    CompiledSelectorIff(inner, a, b);
    hide CutAtTokens, CompiledSelector, TextBefore, InnerText, Trim;
  }

  /** A template without tokens is its own rendering and records nothing. */
  lemma NothingToRender(t: string, pool: Pool, show: Value -> string)
    requires NoTokens(t)
    ensures Render(CutAtTokens(t), pool, show) == t && Selectors(CutAtTokens(t)) == []
  {
    CutIff(Last(t), t);
  }

  // ----- Looking values up -----

  /** A path leads to a value through members of objects. */
  lemma LookupIff(pool: Pool, path: Path, v: Value)
    ensures Lookup(pool, path) == Some(v) <==>
            path != [] && path[0] in pool &&
            exists trail :: Trail(pool[path[0]], path[1..], trail) && trail[|trail| - 1] == v
  {
    if path != [] && path[0] in pool {
      var start, rest := pool[path[0]], path[1..];
      if LookupIn(start, rest) == Some(v) { var trail := TrailOf(start, rest, v); }
      if trail :| Trail(start, rest, trail) && trail[|trail| - 1] == v { TrailLeads(start, rest, trail); }
    }
  }

  /** The values on the way, each the member of the one before. */
  ghost predicate Trail(v: Value, path: Path, trail: seq<Value>) {
    && |trail| == |path| + 1 && trail[0] == v
    && forall i | 0 <= i < |path| ::
         trail[i].Object? && path[i] in trail[i].fields && trail[i + 1] == trail[i].fields[path[i]]
  }

  lemma {:induction false} TrailOf(v: Value, path: Path, x: Value) returns (trail: seq<Value>)
    requires LookupIn(v, path) == Some(x)
    ensures Trail(v, path, trail) && trail[|trail| - 1] == x
  {
    if path == [] {
      trail := [v];
    } else {
      var rest := TrailOf(v.fields[path[0]], path[1..], x);
      trail := [v] + rest;
      forall i | 0 <= i < |path|
        ensures trail[i].Object? && path[i] in trail[i].fields && trail[i + 1] == trail[i].fields[path[i]]
      {
        if i > 0 { assert trail[i] == rest[i - 1] && path[i] == path[1..][i - 1]; }
      }
    }
  }

  lemma {:induction false} TrailLeads(v: Value, path: Path, trail: seq<Value>)
    requires Trail(v, path, trail)
    ensures LookupIn(v, path) == Some(trail[|trail| - 1])
  {
    if path != [] {
      var rest := trail[1..];
      assert trail[0].Object? && trail[1] == trail[0].fields[path[0]];
      forall i | 0 <= i < |path[1..]|
        ensures rest[i].Object? && path[1..][i] in rest[i].fields && rest[i + 1] == rest[i].fields[path[1..][i]]
      {
        assert trail[i + 1].Object? && path[i + 1] in trail[i + 1].fields;
      }
      TrailLeads(v.fields[path[0]], path[1..], rest);
    }
  }
}
