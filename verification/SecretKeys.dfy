/** Which members of a configuration are taken out as secrets, and what a scrubbed configuration and its store hold for
    each member. */
module SecretKeys {
  import opened Wrappers
  import opened Json
  import opened Text
  import opened SecretScrub
  import opened SecretRecovery
  import opened SecretOrder

  // ----- Names -----

  const SECRET_WORDS: set<string> :=
    {"secret", "password", "token", "api_key", "apikey", "authorization", "private_key"}

  const SECRET_HEADERS: set<string> :=
    {"authorization", "proxy-authorization", "x-api-key", "api-key", "x-auth-token", "cookie"}

  /** `n` is the name in ASCII lower case. */
  ghost predicate Lowered(name: string, n: string) {
    && |n| == |name|
    && forall i | 0 <= i < |n| ::
         n[i] == if 'A' <= name[i] <= 'Z' then (name[i] as int - 'A' as int + 'a' as int) as char else name[i]
  }

  /** `n` is the name in ASCII lower case, with hyphens and blanks as underscores. */
  ghost predicate Normalized(name: string, n: string) {
    && |n| == |name|
    && (forall i | 0 <= i < |n| && name[i] in {'-', ' '} :: n[i] == '_')
    && forall i | 0 <= i < |n| && name[i] !in {'-', ' '} ::
         n[i] == if 'A' <= name[i] <= 'Z' then (name[i] as int - 'A' as int + 'a' as int) as char else name[i]
  }

  /** The name contains one of the words, is not that of a version and does not end like that of a reference. */
  ghost predicate NamesASecret(name: string) {
    exists n :: Normalized(name, n) && HoldsSecretWord(n) && n != "secret_version" && !EndsInRef(n)
  }

  ghost predicate HoldsSecretWord(n: string) {
    exists w :: w in SECRET_WORDS && Contains(n, w)
  }

  predicate EndsInRef(n: string) {
    |n| >= 4 && n[|n| - 4] == '_' && n[|n| - 3] == 'r' && n[|n| - 2] == 'e' && n[|n| - 1] == 'f'
  }

  lemma {:induction false} NormalizeMeaning(name: string)
    ensures Normalized(name, Normalize(name))
  {
    if name != "" {
      NormalizeMeaning(name[1..]);
      assert forall i | 0 < i < |name| ::
               Normalize(name)[i] == Normalize(name[1..])[i - 1] && name[1..][i - 1] == name[i];
    }
  }

  lemma NormalizedUnique(name: string, a: string, b: string)
    requires Normalized(name, a) && Normalized(name, b)
    ensures a == b
  {
    assert forall i | 0 <= i < |name| :: a[i] == b[i];
  }

  lemma {:induction false} LowerMeaning(name: string)
    ensures Lowered(name, LowerAll(name))
  {
    if name != "" {
      LowerMeaning(name[1..]);
      assert forall i | 0 < i < |name| ::
               LowerAll(name)[i] == LowerAll(name[1..])[i - 1] && name[1..][i - 1] == name[i];
    }
  }

  lemma EndsInRefMeaning(n: string)
    ensures EndsInRef(n) <==> EndsWith(n, "_ref")
  {
    if |n| >= 4 {
      var end := n[|n| - 4..];
      assert end[0] == n[|n| - 4] && end[1] == n[|n| - 3] && end[2] == n[|n| - 2] && end[3] == n[|n| - 1];
      if EndsInRef(n) { assert end == ['_', 'r', 'e', 'f'] == "_ref"; }
    }
  }

  lemma FoundIffContains(n: string, word: string)
    ensures Find(n, word).Some? <==> Contains(n, word)
  {
  }

  lemma SomeWord(n: string)
    ensures HoldsSecretWord(n) <==>
            || Find(n, "secret").Some? || Find(n, "password").Some? || Find(n, "token").Some?
            || Find(n, "api_key").Some? || Find(n, "apikey").Some? || Find(n, "authorization").Some?
            || Find(n, "private_key").Some?
  {
    hide Find, Contains;
    FoundIffContains(n, "secret");
    FoundIffContains(n, "password");
    FoundIffContains(n, "token");
    FoundIffContains(n, "api_key");
    FoundIffContains(n, "apikey");
    FoundIffContains(n, "authorization");
    FoundIffContains(n, "private_key");
  }

  /** Exactly these names are those of secrets. */
  lemma IsSecretLikeKeyIff(key: string)
    ensures IsSecretLikeKey(key) <==> NamesASecret(key)
  {
    hide Normalize, Normalized, Find, HoldsSecretWord;
    var n := Normalize(key);
    NormalizeMeaning(key);
    EndsInRefMeaning(n);
    SomeWord(n);
    assert EndsInRef("secret_ref");
    if NamesASecret(key) {
      var m :| Normalized(key, m) && HoldsSecretWord(m) && m != "secret_version" && !EndsInRef(m);
      NormalizedUnique(key, m, n);
    }
  }

  /** The name of a header that bears a secret, blanks around it and case aside. */
  ghost predicate NamesASecretHeader(name: string) {
    exists n :: Lowered(Trim(name), n) && n in SECRET_HEADERS
  }

  lemma IsSecretBearingHeaderNameIff(name: string)
    ensures IsSecretBearingHeaderName(name) <==> NamesASecretHeader(name)
  {
    hide LowerAll, Trim;
    LowerMeaning(Trim(name));
    if NamesASecretHeader(name) {
      var n :| Lowered(Trim(name), n) && n in SECRET_HEADERS;
      assert forall i | 0 <= i < |n| :: n[i] == LowerAll(Trim(name))[i];
      assert n == LowerAll(Trim(name));
    }
  }

  // ----- Members -----

  predicate IsDigit(c: char) {
    '0' <= c <= '9'
  }

  lemma {:induction false} DigitsOnly(s: string)
    ensures DigitsValue(s).Some? <==> forall i | 0 <= i < |s| :: IsDigit(s[i])
  {
    if s != "" {
      var front := s[..|s| - 1];
      DigitsOnly(front);
      assert forall i | 0 <= i < |front| :: front[i] == s[i];
    }
  }

  /** Indices are digits, which may follow a plus sign, if their number fits into 64 bits. */
  lemma ParsesIff(s: string)
    ensures ParsesAsUsize(s) <==>
            exists digits :: (s == digits || s == "+" + digits) && digits != ""
                             && (forall i | 0 <= i < |digits| :: IsDigit(digits[i]))
                             && DigitsValue(digits).Some? && DigitsValue(digits).value < 0x1_0000_0000_0000_0000
  {
    hide DigitsValue;
    var digits := if s != "" && s[0] == '+' then s[1..] else s;
    DigitsOnly(digits);
    assert s == digits || s == "+" + digits;
    if other :| (s == other || s == "+" + other) && other != "" && (forall i | 0 <= i < |other| :: IsDigit(other[i]))
                && DigitsValue(other).Some? && DigitsValue(other).value < 0x1_0000_0000_0000_0000 {
      assert IsDigit(other[0]);
      assert other == digits;
    }
  }

  /** The index of an array item is one that the program can read back, unless it does not fit into 64 bits. */
  lemma IndexParses(i: nat)
    ensures ParsesAsUsize(IndexText(i)) <==> i < 0x1_0000_0000_0000_0000
  {
    var s := IndexText(i);
    DigitsOnly(s);
    assert IsDigit(s[0]);
  }

  /** The parent is an entry of `headers`: the path ends in that name and an index. */
  ghost predicate IsHeaderEntry(p: Path) {
    |p| >= 2 && p[|p| - 2] == "headers" && ParsesAsUsize(p[|p| - 1])
  }

  /** The entry has the name of a header that bears a secret: as its `name`, or as its `key` if it has no `name`. */
  ghost predicate IsSecretHeader(o: Value)
    requires o.Object?
  {
    if "name" in o.fields then o.fields["name"].String? && NamesASecretHeader(o.fields["name"].s)
    else "key" in o.fields && o.fields["key"].String? && NamesASecretHeader(o.fields["key"].s)
  }

  ghost predicate HoldsSecret(o: Value, p: Path, k: string)
    requires o.Object? && k in o.fields
  {
    || NamesASecret(k)
    || (k == "value" && IsHeaderEntry(p) && IsSecretHeader(o))
    || (k == "value" && p != [] && p[|p| - 1] == "credentials" && o.fields[k] != Null)
  }

  ghost predicate IsReference(v: Value) {
    match v
    case Object(fields) => "secret_ref" in fields && "secret_version" in fields
    case _ => false
  }

  /** Exactly the members that hold a secret and are not references already are taken out. */
  lemma SealsIff(o: Value, p: Path, k: string)
    requires o.Object? && k in o.fields
    ensures Seals(o, p, k) <==> HoldsSecret(o, p, k) && !IsReference(o.fields[k])
  {
    IsSecretLikeKeyIff(k);
    hide IsSecretLikeKey, NamesASecret, ParsesAsUsize, IsSecretBearingHeaderName, NamesASecretHeader;
    var path := p + [k];
    assert |path| >= 3 ==> path[|path| - 3] == p[|p| - 2] && path[|path| - 2] == p[|p| - 1];
    assert |path| >= 2 ==> path[|path| - 2] == p[|p| - 1];
    if "name" in o.fields && o.fields["name"].String? { IsSecretBearingHeaderNameIff(o.fields["name"].s); }
    if "key" in o.fields && o.fields["key"].String? { IsSecretBearingHeaderNameIff(o.fields["key"].s); }
    if IsHeaderEntry(p) { NoDigitCredentials(); }
  }

  lemma NoDigitCredentials()
    ensures !ParsesAsUsize("credentials")
  {
    DigitsOnly("credentials");
    assert !IsDigit("credentials"[0]);
  }

  // ----- Places -----

  function ItemAt(items: seq<Value>, name: string): Option<Value> {
    match DigitsValue(name)
    case None => None
    case Some(n) => if n < |items| && IndexText(n) == name then Some(items[n]) else None
  }

  function Inside(v: Value, name: string): Option<Value> {
    match v
    case Object(fields) => if name in fields then Some(fields[name]) else None
    case Array(items) => ItemAt(items, name)
    case _ => None
  }

  /** The value at a path. */
  function At(v: Value, p: Path): Option<Value> {
    if p == [] then Some(v)
    else
      match Inside(v, p[0])
      case None => None
      case Some(next) => At(next, p[1..])
  }

  /** There is a value at the path `p` below `path`, and no member on the way to it is taken out. */
  ghost predicate Open(v: Value, path: Path, p: Path)
    decreases |p|
  {
    p == [] ||
    (&& Inside(v, p[0]).Some?
     && (v.Object? ==> !HoldsSecret(v, path, p[0]) || IsReference(v.fields[p[0]]))
     && Open(Inside(v, p[0]).value, path + [p[0]], p[1..]))
  }

  lemma InsideSanitized(v: Value, path: Path, name: string, marker: Value)
    requires Inside(v, name).Some?
    requires v.Object? ==> !HoldsSecret(v, path, name) || IsReference(v.fields[name])
    ensures Inside(Sanitize(v, path, marker), name) == Some(Sanitize(Inside(v, name).value, path + [name], marker))
  {
    if v.Object? { SealsIff(v, path, name); }
    hide Seals, HoldsSecret, IndexText, DigitsValue, IsReference;
    match v
    case Object(fields) => ObjectSanitized(v, path, marker);
    case Array(items) =>
      var n := DigitsValue(name).value;
      assert SanitizeItems(items, path, marker)[n] == Sanitize(items[n], path + [IndexText(n)], marker);
  }

  lemma {:induction false} AtSanitized(v: Value, path: Path, p: Path, marker: Value)
    requires Open(v, path, p)
    ensures At(v, p).Some? && At(Sanitize(v, path, marker), p) == Some(Sanitize(At(v, p).value, path + p, marker))
    decreases |p|
  {
    hide HoldsSecret, Inside, IsReference, Sanitize;
    if p == [] {
      assert path + p == path;
    } else {
      InsideSanitized(v, path, p[0], marker);
      AtSanitized(Inside(v, p[0]).value, path + [p[0]], p[1..], marker);
      assert path + [p[0]] + p[1..] == path + p;
    }
  }

  lemma {:induction false} SealedAt(v: Value, path: Path, p: Path, q: Path, x: Value)
    requires Open(v, path, p) && At(v, p).Some? && Sealed(At(v, p).value, path + p, q, x)
    ensures Sealed(v, path, q, x)
    decreases |p|
  {
    hide HoldsSecret, IsReference, Seals, IndexText, DigitsValue, SealedMember;
    if p == [] {
      assert path + p == path;
    } else {
      var next := Inside(v, p[0]).value;
      assert path + [p[0]] + p[1..] == path + p;
      SealedAt(next, path + [p[0]], p[1..], q, x);
      match v
      case Object(fields) =>
        SealsIff(v, path, p[0]);
        SealedMemberMeaning(v, path, p[0], q, x);
        SealedMemberIsSealed(v, path, p[0], q, x);
      case Array(items) => assert Sealed(items[DigitsValue(p[0]).value], path + [p[0]], q, x);
    }
  }

  lemma {:induction false} AtMember(v: Value, p: Path, name: string)
    requires At(v, p).Some?
    ensures At(v, p + [name]) == Inside(At(v, p).value, name)
    decreases |p|
  {
    hide Inside;
    if p == [] {
      assert ([name])[1..] == [] && p + [name] == [name];
      assert forall w :: At(w, []) == Some(w);
    } else {
      assert (p + [name])[1..] == p[1..] + [name];
      AtMember(Inside(v, p[0]).value, p[1..], name);
    }
  }

  /** Main result: what becomes of each member. One that holds a secret and is no reference is replaced by the
      reference, and its value is stored under its pointer, unless a later one has the same pointer; of every other
      member that is reached the value is kept, but for the secrets inside. */
  lemma SecretsAreTaken(config: Value, secrets: Value, secretRef: string, version: string, p: Path, k: string)
    requires config.Object? && Open(config, [], p) && At(config, p).Some?
    requires At(config, p).value.Object? && k in At(config, p).value.fields
    ensures var o := At(config, p).value;
            var reference := Object(map["secret_ref" := String(secretRef), "secret_version" := Number(version)]);
            var sanitized := Sanitize(config, [], ReferenceMarker(secretRef, version));
            var stored := StoredValues(StoreAll(secrets, Trace(config, [])));
            if HoldsSecret(o, p, k) && !IsReference(o.fields[k]) then
              && At(sanitized, p + [k]) == Some(reference)
              && (VALUES !in config.fields && Receives(secrets) ==>
                    && Pointer(p + [k]) in stored && LastTaken(config, Pointer(p + [k]), stored[Pointer(p + [k])])
                    && (SlashFreeKeys(config) ==> stored[Pointer(p + [k])] == o.fields[k]))
            else
              && At(sanitized, p + [k]) == Some(Sanitize(o.fields[k], p + [k], reference))
              && (!o.fields[k].Object? && !o.fields[k].Array? ==> At(sanitized, p + [k]) == Some(o.fields[k]))
  {
    hide HoldsSecret, Seals, Sealed, Sanitize, Trace, StoreAll, StoredValues, Pointer, LastTaken, Inside, Open, At,
         IsReference, TakenOut, SlashFreeKeys, SealedMember;
    var o := At(config, p).value;
    var marker := ReferenceMarker(secretRef, version);
    var sanitized := Sanitize(config, [], marker);
    SealsIff(o, p, k);
    AtSanitized(config, [], p, marker);
    assert [] + p == p;
    ObjectSanitized(o, p, marker);
    AtMember(sanitized, p, k);
    InsideObject(Sanitize(o, p, marker), k);
    if Seals(o, p, k) {
      SealedMemberMeaning(o, p, k, p + [k], o.fields[k]);
      SealedMemberIsSealed(o, p, k, p + [k], o.fields[k]);
      SealedAt(config, [], p, p + [k], o.fields[k]);
      if VALUES !in config.fields && Receives(secrets) { SealedIsStored(config, secrets, p + [k], o.fields[k]); }
    } else {
      LeafKept(o.fields[k], p + [k], marker);
    }
  }

  lemma InsideObject(o: Value, k: string)
    requires o.Object? && k in o.fields
    ensures Inside(o, k) == Some(o.fields[k])
  {
  }

  lemma LeafKept(v: Value, path: Path, marker: Value)
    ensures !v.Object? && !v.Array? ==> Sanitize(v, path, marker) == v
  {
  }

  /** What the program keeps under the pointer of a value taken out. */
  lemma SealedIsStored(config: Value, secrets: Value, p: Path, x: Value)
    requires config.Object? && VALUES !in config.fields && Receives(secrets) && Sealed(config, [], p, x)
    ensures var stored := StoredValues(StoreAll(secrets, Trace(config, [])));
            && Pointer(p) in stored && LastTaken(config, Pointer(p), stored[Pointer(p)])
            && (SlashFreeKeys(config) ==> stored[Pointer(p)] == x)
  {
    hide Sealed, Trace, StoreAll, StoredValues, Pointer, Last, Precedes, Once, SlashFreeKeys;
    var trace := Trace(config, []);
    TraceVisited(config, []);
    forall e | e in trace
      ensures e.0 != [VALUES]
    {
      assert (e.0, e.1) in trace;
      TopLevelMember(config, e.0, e.1);
    }
    KeptMeaning(secrets, trace);
    assert TakenAs(config, Pointer(p), p, x);
    LastIsLastTaken(config, Pointer(p));
    var last := Last(trace)[Pointer(p)];
    if SlashFreeKeys(config) {
      var q :| LastTakenAs(config, Pointer(p), q, last);
      assert TakenAs(config, Pointer(p), q, last);
      SealedIsBelow(config, [], p, x);
      SealedIsBelow(config, [], q, last);
      PointerInjective(p, q);
      SealedUnique(config, [], p, x, last);
    }
  }

  // ----- The merged secrets -----

  /** What stores do to the members of the secrets other than the kept values: those that were there stay, and a
      top-level value is added under its own name. */
  lemma {:induction false} StoredNames(secrets: Value, trace: seq<(Path, Value)>, k: string)
    requires Receives(secrets) && k != VALUES && forall e | e in trace :: e.0 != [VALUES]
    requires forall e, f | e in trace && f in trace && e.0 == f.0 :: e == f
    ensures var after := StoreAll(secrets, trace);
            && Receives(after)
            && (k in secrets.fields ==> k in after.fields && after.fields[k] == secrets.fields[k])
            && (k !in secrets.fields ==> (k in after.fields <==> exists e :: e in trace && e.0 == [k]))
            && (forall e | e in trace && e.0 == [k] && k !in secrets.fields :: after.fields[k] == e.1)
            && (VALUES in after.fields <==> VALUES in secrets.fields || trace != [])
  {
    hide Pointer;
    if trace != [] {
      var front, last := trace[..|trace| - 1], trace[|trace| - 1];
      assert forall e :: e in trace <==> e in front || e == last;
      StoredNames(secrets, front, k);
      OneStoredName(StoreAll(secrets, front), last.0, last.1, k);
    }
  }

  lemma OneStoredName(store: Value, path: Path, value: Value, k: string)
    requires Receives(store) && k != VALUES && path != [VALUES]
    ensures var after := StoreSecret(store, path, value);
            && Receives(after) && VALUES in after.fields
            && (k in store.fields ==> k in after.fields && after.fields[k] == store.fields[k])
            && (k !in store.fields ==> (k in after.fields <==> path == [k]))
            && (k !in store.fields && path == [k] ==> after.fields[k] == value)
  {
    hide Pointer;
  }

  /** The merged secrets: the given ones, unchanged; every secret at the top of the configuration under its own name,
      unless there was one; and the kept values, if any. */
  lemma MergedSecrets(config: Value, secrets: Value, k: string)
    requires config.Object? && VALUES !in config.fields && Receives(secrets) && k != VALUES
    ensures var merged := StoreAll(secrets, Trace(config, []));
            && merged.Object?
            && if k in secrets.fields then k in merged.fields && merged.fields[k] == secrets.fields[k]
               else if k in config.fields && HoldsSecret(config, [], k) && !IsReference(config.fields[k]) then
                 k in merged.fields && merged.fields[k] == config.fields[k]
               else k !in merged.fields
  {
    hide Sealed, Trace, StoreAll, Pointer, Once, HoldsSecret, IsReference, Seals, SealedMember;
    var trace := Trace(config, []);
    TraceVisited(config, []);
    forall e | e in trace
      ensures e.0 != [VALUES]
    {
      assert (e.0, e.1) in trace;
      TopLevelMember(config, e.0, e.1);
    }
    forall e, f | e in trace && f in trace && e.0 == f.0
      ensures e == f
    {
      assert (e.0, e.1) in trace && (f.0, f.1) in trace;
      SealedUnique(config, [], e.0, e.1, f.1);
    }
    StoredNames(secrets, trace, k);
    if k in config.fields {
      SealsIff(config, [], k);
      TopLevelSealed(config, k, config.fields[k]);
      assert (([k], config.fields[k])).0 == [k];
    }
    if e :| e in trace && e.0 == [k] {
      assert (e.0, e.1) in trace;
      TopLevelMember(config, e.0, e.1);
      TopLevelSealed(config, k, e.1);
    }
  }

  lemma TopLevelSealed(config: Value, k: string, x: Value)
    requires config.Object? && k in config.fields
    ensures Sealed(config, [], [k], x) <==> Seals(config, [], k) && x == config.fields[k]
  {
    hide Seals, Sealed, SealedMember;
    assert [] + [k] == [k] && Below([], [k]);
    SealedInMember(config, [], k, [k], x);
    SealedMemberMeaning(config, [], k, [k], x);
    if !Seals(config, [], k) && Sealed(config.fields[k], [k], [k], x) { SealedIsBelow(config.fields[k], [k], [k], x); }
  }

  /** A value is kept under the names on the way to it, with a slash in front of each. */
  lemma PointerMeaning(path: Path, name: string)
    ensures Pointer([name]) == "/" + name
    ensures path != [] ==> Pointer(path + [name]) == Pointer(path) + "/" + name
  {
    if path != [] { JoinOneMore(path, name); }
  }

  lemma {:induction false} JoinOneMore(path: Path, name: string)
    requires path != []
    ensures JoinSlash(path + [name]) == JoinSlash(path) + "/" + name
  {
    assert (path + [name])[1..] == path[1..] + [name];
    if |path| > 1 { JoinOneMore(path[1..], name); }
  }
}
