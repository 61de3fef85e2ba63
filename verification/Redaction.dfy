/** Redaction of secrets in data-source previews (`redact_value` and `redact_string` in
    control-plane/src/data_source.rs). */
module Redaction {
  import opened Wrappers
  import opened Json
  import opened Text
  import Sorting

  const MASK := "***"

  function Mask(s: string, secret: string): string {
    if secret == "" then s else Replace(s, secret, MASK)
  }

  /** Masks the secrets one after the other, each in what the earlier ones left. */
  function MaskAll(s: string, secrets: seq<string>): string {
    if secrets == [] then s else Mask(MaskAll(s, secrets[..|secrets| - 1]), secrets[|secrets| - 1])
  }

  // ----- Order of the secrets -----

  /** Length in UTF-8 bytes. */
  function ByteLength(s: string): nat {
    if s == "" then 0
    else
      var c := s[0];
      (if c < '\U{80}' then 1 else if c < '\U{800}' then 2 else if c < '\U{10000}' then 3 else 4) + ByteLength(s[1..])
  }

  /** Longer secrets first; equally long ones in lexicographic order. */
  predicate NotAfter(a: string, b: string) {
    ByteLength(a) > ByteLength(b) || (ByteLength(a) == ByteLength(b) && Sorting.LexLe(a, b))
  }

  ghost predicate Ordered(secrets: seq<string>) {
    forall i, j | 0 <= i < j < |secrets| :: NotAfter(secrets[i], secrets[j])
  }

  lemma NotAfterTransitive(a: string, b: string, c: string)
    requires NotAfter(a, b) && NotAfter(b, c)
    ensures NotAfter(a, c)
  {
    if ByteLength(a) == ByteLength(b) == ByteLength(c) { Sorting.LexTransitive(a, b, c); }
  }

  function Insert(secret: string, ordered: seq<string>): seq<string> {
    if ordered == [] || NotAfter(secret, ordered[0]) then [secret] + ordered
    else [ordered[0]] + Insert(secret, ordered[1..])
  }

  lemma {:induction false} InsertKeepsOrder(secret: string, ordered: seq<string>)
    requires Ordered(ordered)
    ensures Ordered(Insert(secret, ordered))
    ensures multiset(Insert(secret, ordered)) == multiset(ordered) + multiset{secret}
  {
    hide NotAfter;
    if ordered == [] {
    } else if NotAfter(secret, ordered[0]) {
      forall j | 0 <= j < |ordered|
        ensures NotAfter(secret, ordered[j])
      {
        if j > 0 { NotAfterTransitive(secret, ordered[0], ordered[j]); }
      }
    } else {
      InsertKeepsOrder(secret, ordered[1..]);
      EitherOrder(ordered[0], secret);
      var rest := Insert(secret, ordered[1..]);
      assert ordered == [ordered[0]] + ordered[1..];
      forall j | 0 <= j < |rest|
        ensures NotAfter(ordered[0], rest[j])
      {
        assert rest[j] in multiset(rest);
        assert rest[j] in multiset(ordered[1..]) + multiset{secret};
        if rest[j] != secret {
          assert rest[j] in ordered[1..];
        }
      }
    }
  }

  lemma EitherOrder(a: string, b: string)
    ensures NotAfter(a, b) || NotAfter(b, a)
  {
    Sorting.LexTotal(a, b);
  }

  /** The secrets, each once, in masking order. */
  method OrderSecrets(secrets: set<string>) returns (ordered: seq<string>)
    ensures Ordered(ordered) && multiset(ordered) == multiset(secrets)
  {
    ordered := [];
    var rest := secrets;
    while rest != {}
      invariant rest <= secrets
      invariant Ordered(ordered) && multiset(ordered) == multiset(secrets - rest)
      decreases rest
    {
      var secret :| secret in rest;
      InsertKeepsOrder(secret, ordered);
      ordered := Insert(secret, ordered);
      assert secrets - (rest - {secret}) == (secrets - rest) + {secret};
      rest := rest - {secret};
    }
    assert secrets - rest == secrets;
  }

  // ----- Completeness -----

  /** A secret that can come back through masking: it can share its beginning or its end with a mask, or holds one. */
  ghost predicate Fragile(x: string) {
    x != "" && (x[0] == '*' || x[|x| - 1] == '*' || Contains(x, MASK))
  }

  /** A text that is not fragile and occurs in a masked string lies on one side of the mask. */
  lemma OneSideOfMask(a: string, b: string, x: string, j: nat)
    requires x != "" && !Fragile(x)
    ensures OccursAt(a + MASK + b, x, j) ==> OccursAt(a, x, j) || (j >= |a| + 3 && OccursAt(b, x, j - |a| - 3))
  {
    var s := a + MASK + b;
    if j + |x| <= |a| {
      assert a[j..j + |x|] == s[j..j + |x|];
    } else if j >= |a| + 3 {
      var k := j - |a| - 3;
      if k + |x| <= |b| { assert b[k..k + |x|] == s[j..j + |x|]; }
    } else if j + |x| <= |s| {
      var part := s[j..j + |x|];
      if j >= |a| {
        assert part[0] == s[j] == '*';
      } else if j + |x| <= |a| + 3 {
        assert part[|x| - 1] == s[j + |x| - 1] == '*';
      } else {
        var k := |a| - j;
        assert part[k..k + 3] == s[|a|..|a| + 3] == MASK;
        assert OccursAt(part, MASK, k);
      }
    }
  }

  lemma PartAvoids(s: string, x: string, i: nat, j: nat)
    requires i <= j <= |s| && !Contains(s, x)
    ensures !Contains(s[i..j], x)
  {
    var part := s[i..j];
    forall k: nat
      ensures !OccursAt(part, x, k)
    {
      OccursInPart(s, x, i, j, k);
    }
  }

  lemma MaskedAvoids(a: string, b: string, x: string)
    requires x != "" && !Fragile(x) && !Contains(a, x) && !Contains(b, x)
    ensures !Contains(a + MASK + b, x)
  {
    forall j: nat
      ensures !OccursAt(a + MASK + b, x, j)
    {
      OneSideOfMask(a, b, x, j);
    }
  }

  lemma {:induction false} ReplaceRemoves(s: string, secret: string)
    requires secret != "" && !Fragile(secret)
    ensures !Contains(Replace(s, secret, MASK), secret)
    decreases |s|
  {
    match Find(s, secret)
    case None =>
    case Some(i) =>
      ReplaceRemoves(s[i + |secret|..], secret);
      assert s[..i] == s[0..i];
      forall k: nat
        ensures !OccursAt(s[..i], secret, k)
      {
        OccursInPart(s, secret, 0, i, k);
        if k < i { assert !OccursAt(s, secret, k); }
      }
      MaskedAvoids(s[..i], Replace(s[i + |secret|..], secret, MASK), secret);
  }

  /** Masking one secret never uncovers or creates another text that is not fragile. */
  lemma {:induction false} ReplaceKeepsAway(s: string, pattern: string, x: string)
    requires pattern != "" && x != "" && !Fragile(x) && !Contains(s, x)
    ensures !Contains(Replace(s, pattern, MASK), x)
    decreases |s|
  {
    hide Contains, Fragile;
    match Find(s, pattern)
    case None =>
    case Some(i) =>
      PartAvoids(s, x, 0, i);
      PartAvoids(s, x, i + |pattern|, |s|);
      assert s[i + |pattern|..] == s[i + |pattern|..|s|] && s[..i] == s[0..i];
      ReplaceKeepsAway(s[i + |pattern|..], pattern, x);
      MaskedAvoids(s[..i], Replace(s[i + |pattern|..], pattern, MASK), x);
  }

  /** Main result for strings: no non-empty secret survives unless it is fragile, whatever the other secrets are and in
      whatever order they are masked. */
  lemma {:induction false} MaskAllRemoves(s: string, secrets: seq<string>, x: string)
    requires x in secrets && x != "" && !Fragile(x)
    ensures !Contains(MaskAll(s, secrets), x)
  {
    var front, last := secrets[..|secrets| - 1], secrets[|secrets| - 1];
    if last == x {
      ReplaceRemoves(MaskAll(s, front), x);
    } else {
      assert x in front;
      MaskAllRemoves(s, front, x);
      if last != "" { ReplaceKeepsAway(MaskAll(s, front), last, x); }
    }
  }

  lemma {:induction false} MaskAllChangesNothing(s: string, secrets: seq<string>)
    requires forall x | x in secrets && x != "" :: !Contains(s, x)
    ensures MaskAll(s, secrets) == s
  {
    if secrets != [] {
      var front, last := secrets[..|secrets| - 1], secrets[|secrets| - 1];
      MaskAllChangesNothing(s, front);
      assert last in secrets;
    }
  }

  /** Without fragile secrets a second pass, in any order, changes nothing. */
  lemma MaskAllIdempotent(s: string, secrets: seq<string>, again: seq<string>)
    requires forall x | x in secrets :: !Fragile(x)
    requires forall x | x in again :: x in secrets
    ensures MaskAll(MaskAll(s, secrets), again) == MaskAll(s, secrets)
  {
    forall x | x in again && x != ""
      ensures !Contains(MaskAll(s, secrets), x)
    {
      MaskAllRemoves(s, secrets, x);
    }
    MaskAllChangesNothing(MaskAll(s, secrets), again);
  }

  // ----- Fragile secrets -----

  lemma MaskOne(s: string, x: string)
    requires x != ""
    ensures MaskAll(s, [x]) == Replace(s, x, MASK)
  {
    hide Replace;
    assert [x][..0] == [];
    assert MaskAll(s, []) == s;
  }

  lemma ReplaceNothing(s: string, x: string)
    requires x != "" && |s| < |x|
    ensures Replace(s, x, MASK) == s
  {
  }

  lemma FoundBetween(a: string, x: string, b: string)
    requires forall j: nat | j < |a| :: !OccursAt(a + x + b, x, j)
    ensures Find(a + x + b, x) == Some(|a|)
    ensures (a + x + b)[..|a|] == a && (a + x + b)[|a| + |x|..] == b
  {
    hide Find;
    assert (a + x + b)[|a|..|a| + |x|] == x;
    assert OccursAt(a + x + b, x, |a|);
  }

  /** Where the only occurrence of a secret is, one mask is put. */
  lemma ReplaceOnce(a: string, x: string, b: string)
    requires x != "" && |b| < |x| && forall j: nat | j < |a| :: !OccursAt(a + x + b, x, j)
    ensures MaskAll(a + x + b, [x]) == a + MASK + b
  {
    hide Find, Replace, MaskAll;
    FoundBetween(a, x, b);
    hide OccursAt;
    MaskOne(a + x + b, x);
    ReplaceAt(a + x + b, x, MASK, |a|);
    ReplaceNothing(b, x);
  }

  lemma OccursBetween(a: string, x: string, b: string)
    ensures Contains(a + x + b, x)
  {
    assert (a + x + b)[|a|..|a| + |x|] == x;
    assert OccursAt(a + x + b, x, |a|);
  }

  /** `*y` comes back from `*yy`. */
  lemma LeadingStarSurvives(x: string)
    requires x != "" && x[0] == '*'
    ensures Contains(MaskAll("" + x + x[1..], [x]), x)
  {
    hide Contains, MaskAll;
    ReplaceOnce("", x, x[1..]);
    OccursBetween("**", x, "");
    assert "" + MASK + x[1..] == "**" + x + "";
  }

  /** `y*` comes back from `yy*`. */
  lemma TrailingStarSurvives(x: string)
    requires x != "" && x[|x| - 1] == '*' && x[0] != '*'
    ensures Contains(MaskAll(x[..|x| - 1] + x + "", [x]), x)
  {
    hide Contains, MaskAll;
    var y := x[..|x| - 1];
    var s := y + x + "";
    forall j: nat | j < |y|
      ensures !OccursAt(s, x, j)
    {
      NotARotation(x, j);
    }
    ReplaceOnce(y, x, "");
    OccursBetween("", x, "**");
    assert y + MASK + "" == "" + x + "**";
  }

  /** An earlier occurrence would make the text before the star its own rotation, with a star in front. */
  lemma NotARotation(x: string, j: nat)
    requires j < |x| - 1 && x[|x| - 1] == '*' && x[0] != '*'
    ensures !OccursAt(x[..|x| - 1] + x + "", x, j)
  {
    var y := x[..|x| - 1];
    var s := y + x + "";
    var part := s[j..j + |x|];
    assert part[|y|] == s[j + |y|] == x[j];
    assert part[|y| - j] == s[|y|] == x[0];
    assert part[0] == s[j] == x[j];
  }

  /** `u***w` comes back from `uu***ww`. */
  lemma InnerMaskSurvives(x: string)
    requires Contains(x, MASK)
    ensures exists s :: Contains(MaskAll(s, [x]), x)
  {
    var i := Find(x, MASK).value;
    var u, w := x[..i], x[i + 3..];
    assert x == u + MASK + w;
    var s := u + x + w;
    forall j: nat | j < |u|
      ensures !OccursAt(s, x, j)
    {
      ShiftedMask(x, i, j);
    }
    ReplaceOnce(u, x, w);
    assert MaskAll(s, [x]) == "" + x + "";
    OccursBetween("", x, "");
  }

  /** An earlier occurrence of the secret would hold an earlier mask. */
  lemma ShiftedMask(x: string, i: nat, j: nat)
    requires OccursAt(x, MASK, i) && (forall k: nat | k < i :: !OccursAt(x, MASK, k)) && j < i
    ensures !OccursAt(x[..i] + x + x[i + 3..], x, j)
  {
    var s := x[..i] + x + x[i + 3..];
    if OccursAt(s, x, j) {
      var found := x[i..i + 3];
      forall m | 0 <= m < 3
        ensures x[j + m] == found[m]
      {
        assert s[j..j + |x|][i + m] == s[j + i + m] == x[j + m];
      }
      assert x[j..j + 3] == MASK;
      assert OccursAt(x, MASK, j);
    }
  }

  /** No text and no secrets masked together with it let the secret through. */
  ghost predicate AlwaysMasked(x: string) {
    forall s, secrets | Ordered(secrets) && x in secrets :: !Contains(MaskAll(s, secrets), x)
  }

  /** Main result: a secret is always masked exactly when it is not fragile. A fragile one survives even alone. */
  lemma AlwaysMaskedIff(x: string)
    requires x != ""
    ensures AlwaysMasked(x) <==> !Fragile(x)
    ensures Fragile(x) <==> exists s :: Contains(MaskAll(s, [x]), x)
  {
    hide MaskAll, Contains;
    assert Ordered([x]);
    if Fragile(x) {
      FragileSurvives(x);
      var s :| Contains(MaskAll(s, [x]), x);
      assert x in [x];
    } else {
      forall s, secrets | Ordered(secrets) && x in secrets
        ensures !Contains(MaskAll(s, secrets), x)
      {
        MaskAllRemoves(s, secrets, x);
      }
      forall s
        ensures !Contains(MaskAll(s, [x]), x)
      {
        MaskAllRemoves(s, [x], x);
      }
    }
  }

  lemma FragileSurvives(x: string)
    requires Fragile(x)
    ensures exists s :: Contains(MaskAll(s, [x]), x)
  {
    hide MaskAll, Contains;
    if x[0] == '*' {
      LeadingStarSurvives(x);
    } else if x[|x| - 1] == '*' {
      TrailingStarSurvives(x);
    } else {
      InnerMaskSurvives(x);
    }
  }

  /** A fragile secret can also come back through another one: masking `b` in `ab` makes the secret `a*` appear. */
  lemma StarredSecretSurvives()
    ensures MaskAll("ab", ["a*", "b"]) == "a***"
    ensures Contains(MaskAll("ab", ["a*", "b"]), "a*")
  {
    var s := "ab";
    hide Find, Contains;
    assert forall j: nat :: !OccursAt(s, "a*", j) by {
      forall j: nat
        ensures !OccursAt(s, "a*", j)
      {
        if j + 2 <= 2 { assert s[0..2][1] == 'b' && "a*"[1] == '*'; }
      }
    }
    assert Find(s, "a*").None?;
    assert OccursAt(s, "b", 1) && !OccursAt(s, "b", 0) by { assert s[1..2] == "b" && s[0..1] == "a"; }
    assert Find(s, "b") == Some(1);
    assert Find("", "b").None?;
    assert s[2..] == "" && s[..1] == "a";
    assert Replace("", "b", MASK) == "" && Replace(s, "b", MASK) == "a" + MASK + "";
    assert ["a*", "b"][..1] == ["a*"] && ["a*"][..0] == [];
    assert MaskAll(s, []) == s && MaskAll(s, ["a*"]) == s;
    Occurs("a***", "a*");
  }

  lemma Occurs(s: string, x: string)
    requires |x| <= |s| && s[0..|x|] == x
    ensures Contains(s, x)
  {
    assert OccursAt(s, x, 0);
  }

  method RedactString(raw: string, secrets: set<string>) returns (r: string)
    ensures exists ordered :: Ordered(ordered) && multiset(ordered) == multiset(secrets) && r == MaskAll(raw, ordered)
    ensures forall x | x in secrets && x != "" && !Fragile(x) :: !Contains(r, x)
  {
    var ordered := OrderSecrets(secrets);
    r := raw;
    for i := 0 to |ordered|
      invariant r == MaskAll(raw, ordered[..i])
    {
      assert ordered[..i + 1][..i] == ordered[..i];
      if ordered[i] != "" {
        r := Replace(r, ordered[i], MASK);
      }
    }
    assert ordered[..|ordered|] == ordered;
    forall x | x in secrets && x != "" && !Fragile(x)
      ensures !Contains(r, x)
    {
      assert x in multiset(ordered);
      MaskAllRemoves(raw, ordered, x);
    }
  }

  // ----- Values -----

  /** Masks every string; member names, numbers, booleans and null stay. */
  function RedactWith(v: Value, secrets: seq<string>): Value {
    match v
    case String(s) => String(MaskAll(s, secrets))
    case Array(items) => Array(RedactItems(items, secrets))
    case Object(fields) => Object(map k | k in fields :: RedactWith(fields[k], secrets))
    case _ => v
  }

  function RedactItems(items: seq<Value>, secrets: seq<string>): seq<Value> {
    if items == [] then [] else [RedactWith(items[0], secrets)] + RedactItems(items[1..], secrets)
  }

  /** No string in the value contains the text. */
  ghost predicate Avoids(v: Value, x: string) {
    match v
    case String(s) => !Contains(s, x)
    case Array(items) => forall i | 0 <= i < |items| :: Avoids(items[i], x)
    case Object(fields) => forall k | k in fields :: Avoids(fields[k], x)
    case _ => true
  }

  /** Main result: no string of a redacted value contains a non-empty secret that is not fragile. */
  lemma {:induction false} RedactedAvoids(v: Value, secrets: seq<string>, x: string)
    requires x in secrets && x != "" && !Fragile(x)
    ensures Avoids(RedactWith(v, secrets), x)
  {
    match v
    case String(s) => MaskAllRemoves(s, secrets, x);
    case Array(items) => RedactedItemsAvoid(items, secrets, x);
    case Object(fields) =>
      forall k | k in fields
        ensures Avoids(RedactWith(fields[k], secrets), x)
      {
        RedactedAvoids(fields[k], secrets, x);
      }
    case _ =>
  }

  lemma {:induction false} RedactedItemsAvoid(items: seq<Value>, secrets: seq<string>, x: string)
    requires x in secrets && x != "" && !Fragile(x)
    ensures forall i | 0 <= i < |RedactItems(items, secrets)| :: Avoids(RedactItems(items, secrets)[i], x)
  {
    if items != [] {
      RedactedAvoids(items[0], secrets, x);
      RedactedItemsAvoid(items[1..], secrets, x);
    }
  }

  /** Without fragile secrets, redacting a redacted value changes nothing. */
  lemma {:induction false} RedactingIsIdempotent(v: Value, secrets: seq<string>, again: seq<string>)
    requires forall x | x in secrets :: !Fragile(x)
    requires forall x | x in again :: x in secrets
    ensures RedactWith(RedactWith(v, secrets), again) == RedactWith(v, secrets)
  {
    match v
    case String(s) => MaskAllIdempotent(s, secrets, again);
    case Array(items) => RedactingItemsIsIdempotent(items, secrets, again);
    case Object(fields) =>
      forall k | k in fields
        ensures RedactWith(RedactWith(fields[k], secrets), again) == RedactWith(fields[k], secrets)
      {
        RedactingIsIdempotent(fields[k], secrets, again);
      }
    case _ =>
  }

  lemma {:induction false} RedactingItemsIsIdempotent(items: seq<Value>, secrets: seq<string>, again: seq<string>)
    requires forall x | x in secrets :: !Fragile(x)
    requires forall x | x in again :: x in secrets
    ensures RedactItems(RedactItems(items, secrets), again) == RedactItems(items, secrets)
  {
    if items != [] {
      RedactingIsIdempotent(items[0], secrets, again);
      RedactingItemsIsIdempotent(items[1..], secrets, again);
      assert RedactItems(items, secrets)[1..] == RedactItems(items[1..], secrets);
    }
  }

  /** A value without any of the secrets stays as it is. */
  lemma {:induction false} InnocentIsKept(v: Value, secrets: seq<string>)
    requires forall x | x in secrets && x != "" :: Avoids(v, x)
    ensures RedactWith(v, secrets) == v
  {
    match v
    case String(s) =>
      assert forall x | x in secrets && x != "" :: Avoids(v, x) ==> !Contains(s, x);
      MaskAllChangesNothing(s, secrets);
    case Array(items) =>
      forall x, i | x in secrets && x != "" && 0 <= i < |items|
        ensures Avoids(items[i], x)
      {
        assert Avoids(v, x);
      }
      InnocentItemsAreKept(items, secrets);
    case Object(fields) =>
      forall k | k in fields
        ensures RedactWith(fields[k], secrets) == fields[k]
      {
        forall x | x in secrets && x != ""
          ensures Avoids(fields[k], x)
        {
          assert Avoids(v, x);
        }
        InnocentIsKept(fields[k], secrets);
      }
    case _ =>
  }

  lemma {:induction false} InnocentItemsAreKept(items: seq<Value>, secrets: seq<string>)
    requires forall x, i | x in secrets && x != "" && 0 <= i < |items| :: Avoids(items[i], x)
    ensures RedactItems(items, secrets) == items
  {
    if items != [] {
      InnocentIsKept(items[0], secrets);
      InnocentItemsAreKept(items[1..], secrets);
      assert [items[0]] + items[1..] == items;
    }
  }
}
