/** The keys under which node contributions are looked up (`node_contribution_lookup_key` in
    orchestration-runtime/src/compiler.rs and control-plane/src/orchestration_runtime/compile_context.rs): five texts
    joined by two colons. */
module ContributionKeys {

  datatype ContributionName = ContributionName(pluginId: string, pluginVersion: string, code: string, shell: string,
                                               schemaVersion: string)

  datatype Contribution = Contribution(installationId: string, name: ContributionName, dependencyStatus: string)

  function Parts(n: ContributionName): seq<string> {
    [n.pluginId, n.pluginVersion, n.code, n.shell, n.schemaVersion]
  }

  function Join(parts: seq<string>): string
    requires parts != []
  {
    if |parts| == 1 then parts[0] else parts[0] + "::" + Join(parts[1..])
  }

  function LookupKey(n: ContributionName): string {
    Join(Parts(n))
  }

  /** Every contribution is kept under its own key. */
  ghost predicate Keyed(contributions: map<string, Contribution>) {
    forall key <- contributions :: key == LookupKey(contributions[key].name)
  }

  // ----- Counting separators -----

  predicate ColonsAt(s: string, i: nat) {
    i + 1 < |s| && s[i] == s[i + 1] == ':'
  }

  /** Two adjacent colons, also overlapping ones. */
  function Colons(s: string): nat {
    if s == "" then 0 else (if ColonsAt(s, 0) then 1 else 0) + Colons(s[1..])
  }

  lemma {:induction false} NoColons(s: string)
    requires forall i: nat :: !ColonsAt(s, i)
    ensures Colons(s) == 0
  {
    if s != "" {
      forall i: nat
        ensures !ColonsAt(s[1..], i)
      {
        assert !ColonsAt(s, i + 1);
      }
      NoColons(s[1..]);
    }
  }

  /** What is put in front of a text adds separators and takes none away. */
  lemma {:induction false} MoreColons(front: string, s: string)
    ensures Colons(front + s) >= Colons(s)
    ensures (exists i: nat :: i < |front| && ColonsAt(front + s, i)) ==> Colons(front + s) > Colons(s)
  {
    if front == "" {
      assert front + s == s;
    } else {
      assert (front + s)[1..] == front[1..] + s;
      MoreColons(front[1..], s);
      if i: nat :| i < |front| && ColonsAt(front + s, i) {
        if i > 0 { assert ColonsAt(front[1..] + s, i - 1); }
      }
    }
  }

  /** A join has at least the separators that were put in. */
  lemma {:induction false} JoinColons(parts: seq<string>)
    requires parts != []
    ensures Colons(Join(parts)) >= |parts| - 1
  {
    if |parts| > 1 {
      var rest := Join(parts[1..]);
      JoinColons(parts[1..]);
      MoreColons(parts[0] + "::", rest);
      assert ColonsAt(parts[0] + "::" + rest, |parts[0]|);
    }
  }

  // ----- Keys that name one contribution only -----

  /** No part holds a separator, and none but the first begins with a colon, and none but the last ends with one. */
  ghost predicate Unambiguous(parts: seq<string>) {
    && (forall k, i: nat | 0 <= k < |parts| :: !ColonsAt(parts[k], i))
    && (forall k | 0 < k < |parts| && parts[k] != "" :: parts[k][0] != ':')
    && (forall k | 0 <= k < |parts| - 1 && parts[k] != "" :: parts[k][|parts[k]| - 1] != ':')
  }

  ghost predicate NoneEmpty(parts: seq<string>) {
    forall k | 0 <= k < |parts| :: parts[k] != ""
  }

  lemma RestUnambiguous(parts: seq<string>)
    requires |parts| > 1 && Unambiguous(parts) && NoneEmpty(parts)
    ensures Unambiguous(parts[1..]) && NoneEmpty(parts[1..])
    ensures Join(parts[1..]) != "" && Join(parts[1..])[0] == parts[1][0] != ':'
  {
    forall k, i: nat | 0 <= k < |parts[1..]|
      ensures !ColonsAt(parts[1..][k], i)
    {
      assert !ColonsAt(parts[k + 1], i);
    }
  }

  lemma {:induction false} ExactColons(front: string, rest: string)
    requires (forall i: nat :: !ColonsAt(front, i)) && (front != "" ==> front[|front| - 1] != ':')
    requires rest != "" && rest[0] != ':'
    ensures Colons(front + "::" + rest) == Colons(rest) + 1
  {
    var s := front + "::" + rest;
    if front == "" {
      assert s[1..] == ":" + rest && (":" + rest)[1..] == rest;
      assert !ColonsAt(":" + rest, 0) && ColonsAt(s, 0);
    } else {
      assert s[1..] == front[1..] + "::" + rest;
      forall i: nat
        ensures !ColonsAt(front[1..], i)
      {
        assert !ColonsAt(front, i + 1);
      }
      assert !ColonsAt(s, 0) by { assert !ColonsAt(front, 0); }
      ExactColons(front[1..], rest);
    }
  }

  lemma {:induction false} UnambiguousColons(parts: seq<string>)
    requires parts != [] && Unambiguous(parts) && NoneEmpty(parts)
    ensures Colons(Join(parts)) == |parts| - 1
  {
    assert forall i: nat :: !ColonsAt(parts[0], i);
    if |parts| == 1 {
      NoColons(parts[0]);
    } else {
      RestUnambiguous(parts);
      UnambiguousColons(parts[1..]);
      ExactColons(parts[0], Join(parts[1..]));
    }
  }

  /** A first part cannot be longer than that of another join with so few separators. */
  lemma FirstNotLonger(p: string, rest: string, parts: seq<string>)
    requires |parts| > 1 && p + "::" + rest == Join(parts) && Colons(Join(parts)) == |parts| - 1
    ensures |parts[0]| <= |p|
  {
    if |parts[0]| > |p| {
      var other := Join(parts[1..]);
      var s := Join(parts);
      assert s == parts[0] + ("::" + other);
      assert ColonsAt(s, |p|);
      MoreColons(parts[0], "::" + other);
      assert "::" + other == "::" + other && ColonsAt("::" + other, 0);
      MoreColons("::", other);
      JoinColons(parts[1..]);
    }
  }

  lemma FirstNotShorter(p: string, rest: string, parts: seq<string>)
    requires |parts| > 1 && p + "::" + rest == Join(parts)
    requires (forall i: nat :: !ColonsAt(p, i)) && (p != "" ==> p[|p| - 1] != ':')
    ensures |parts[0]| >= |p|
  {
    if |parts[0]| < |p| {
      var k := |parts[0]|;
      var s := parts[0] + "::" + Join(parts[1..]);
      assert s[k] == s[k + 1] == ':' && s == p + "::" + rest;
      assert p[k] == s[k];
      if k + 1 < |p| {
        assert p[k + 1] == s[k + 1];
        assert ColonsAt(p, k);
      }
    }
  }

  lemma {:induction false} UnambiguousUnique(parts: seq<string>, other: seq<string>)
    requires Unambiguous(parts) && NoneEmpty(parts) && |other| == |parts| > 0 && Join(other) == Join(parts)
    ensures other == parts
  {
    if |parts| > 1 {
      var rest, tail := Join(parts[1..]), Join(other[1..]);
      UnambiguousColons(parts);
      assert forall i: nat :: !ColonsAt(parts[0], i);
      FirstNotLonger(parts[0], rest, other);
      FirstNotShorter(parts[0], rest, other);
      SameFront(parts[0], rest, other[0], tail);
      RestUnambiguous(parts);
      UnambiguousUnique(parts[1..], other[1..]);
      assert parts == [parts[0]] + parts[1..] && other == [other[0]] + other[1..];
    }
  }

  lemma SameFront(a: string, x: string, b: string, y: string)
    requires |a| == |b| && a + "::" + x == b + "::" + y
    ensures a == b && x == y
  {
    assert a == (a + "::" + x)[..|a|] && b == (b + "::" + y)[..|b|];
    assert x == (a + "::" + x)[|a| + 2..] && y == (b + "::" + y)[|b| + 2..];
  }

  // ----- Keys that name several contributions -----

  /** Two adjacent parts can be cut elsewhere. */
  lemma {:induction false} CutElsewhere(parts: seq<string>, k: nat, x: string, y: string)
    requires k + 1 < |parts| && parts[k] + "::" + parts[k + 1] == x + "::" + y
    ensures Join(parts[k := x][k + 1 := y]) == Join(parts)
  {
    var other := parts[k := x][k + 1 := y];
    if k > 0 {
      CutElsewhere(parts[1..], k - 1, x, y);
      assert other[1..] == parts[1..][k - 1 := x][k := y];
    } else if |parts| > 2 {
      assert other[1..][1..] == parts[1..][1..];
      var rest := Join(parts[1..][1..]);
      assert Join(parts) == parts[0] + "::" + (parts[1] + "::" + rest);
      assert parts[0] + "::" + (parts[1] + "::" + rest) == (parts[0] + "::" + parts[1]) + "::" + rest;
      assert x + "::" + (y + "::" + rest) == (x + "::" + y) + "::" + rest;
    } else {
      assert other[1..] == [y] && parts[1..] == [parts[1]];
    }
  }

  lemma AmbiguousHasOther(parts: seq<string>) returns (other: seq<string>)
    requires |parts| > 1 && !Unambiguous(parts)
    ensures |other| == |parts| && Join(other) == Join(parts) && other != parts
  {
    hide Join;
    var n := |parts|;
    if k, i: nat :| 0 <= k < n && ColonsAt(parts[k], i) {
      var a, b := parts[k][..i], parts[k][i + 2..];
      assert parts[k] == a + "::" + b;
      if k < n - 1 {
        other := parts[k := a][k + 1 := b + "::" + parts[k + 1]];
        assert parts[k] + "::" + parts[k + 1] == a + "::" + (b + "::" + parts[k + 1]);
        CutElsewhere(parts, k, a, b + "::" + parts[k + 1]);
        assert |other[k]| < |parts[k]|;
      } else {
        other := parts[k - 1 := parts[k - 1] + "::" + a][k := b];
        assert parts[k - 1] + "::" + parts[k] == (parts[k - 1] + "::" + a) + "::" + b;
        CutElsewhere(parts, k - 1, parts[k - 1] + "::" + a, b);
        assert |other[k]| < |parts[k]|;
      }
    } else if k :| 0 < k < n && parts[k] != "" && parts[k][0] == ':' {
      var b := parts[k][1..];
      assert parts[k] == ":" + b;
      other := parts[k - 1 := parts[k - 1] + ":"][k := b];
      assert parts[k - 1] + "::" + parts[k] == (parts[k - 1] + ":") + "::" + b;
      CutElsewhere(parts, k - 1, parts[k - 1] + ":", b);
      assert |other[k]| < |parts[k]|;
    } else {
      var k :| 0 <= k < n - 1 && parts[k] != "" && parts[k][|parts[k]| - 1] == ':';
      var a := parts[k][..|parts[k]| - 1];
      assert parts[k] == a + ":";
      other := parts[k := a][k + 1 := ":" + parts[k + 1]];
      assert parts[k] + "::" + parts[k + 1] == a + "::" + (":" + parts[k + 1]);
      CutElsewhere(parts, k, a, ":" + parts[k + 1]);
      assert |other[k]| < |parts[k]|;
    }
  }

  // ----- Looking up a contribution -----

  /** In whatever the contributions are, the one found is the one named. */
  ghost predicate AlwaysFindsNamed(n: ContributionName) {
    forall contributions: map<string, Contribution> | Keyed(contributions) && LookupKey(n) in contributions ::
      contributions[LookupKey(n)].name == n
  }

  /** Main result: a node is bound to the contribution that it names, whatever contributions there are, exactly when the
      parts of the name can be told apart in its key. */
  lemma AlwaysFindsNamedIff(n: ContributionName)
    requires NoneEmpty(Parts(n))
    ensures AlwaysFindsNamed(n) <==> Unambiguous(Parts(n))
  {
    if Unambiguous(Parts(n)) {
      forall contributions: map<string, Contribution> | Keyed(contributions) && LookupKey(n) in contributions
        ensures contributions[LookupKey(n)].name == n
      {
        var found := contributions[LookupKey(n)].name;
        hide Unambiguous, Join, NoneEmpty;
        UnambiguousUnique(Parts(n), Parts(found));
        SameParts(n, found);
      }
    } else {
      var other := AmbiguousHasOther(Parts(n));
      OtherFound(n, other);
    }
  }

  lemma SameParts(m: ContributionName, n: ContributionName)
    requires Parts(m) == Parts(n)
    ensures m == n
  {
    assert forall i | 0 <= i < 5 :: Parts(m)[i] == Parts(n)[i];
    assert Parts(m)[0] == Parts(n)[0] && Parts(m)[1] == Parts(n)[1] && Parts(m)[2] == Parts(n)[2];
    assert Parts(m)[3] == Parts(n)[3] && Parts(m)[4] == Parts(n)[4];
  }

  lemma OtherFound(n: ContributionName, other: seq<string>)
    requires |other| == 5 && Join(other) == LookupKey(n) && other != Parts(n)
    ensures !AlwaysFindsNamed(n)
  {
    hide Join;
    var m := ContributionName(other[0], other[1], other[2], other[3], other[4]);
    assert Parts(m) == other;
    var contributions := map[LookupKey(n) := Contribution("", m, "ready")];
    assert Keyed(contributions) && LookupKey(n) in contributions;
    assert contributions[LookupKey(n)].name == m;
  }
}
