/** Moving secrets out of a data-source configuration (`sanitize_config_and_merge_secrets` and
    `scrub_secret_like_config_values` in control-plane/src/data_source.rs). */
module SecretScrub {
  import opened Wrappers
  import opened Json
  import opened Sorting
  import opened Text

  type Path = seq<string>

  const VALUES := "__config_secret_values"

  // ----- Which values are secret -----

  function Lower(c: char): char {
    if 'A' <= c <= 'Z' then (c as int + 32) as char else c
  }

  function LowerAll(s: string): (r: string)
    ensures |r| == |s|
  {
    if s == "" then "" else [Lower(s[0])] + LowerAll(s[1..])
  }

  /** Lower case, with `-` and blanks as `_`. */
  function Normalize(s: string): (r: string)
    ensures |r| == |s|
  {
    if s == "" then ""
    else [if s[0] == '-' || s[0] == ' ' then '_' else Lower(s[0])] + Normalize(s[1..])
  }

  predicate EndsWith(s: string, suffix: string) {
    |suffix| <= |s| && s[|s| - |suffix|..] == suffix
  }

  predicate IsSecretLikeKey(key: string) {
    var normalized := Normalize(key);
    if normalized == "secret_ref" || normalized == "secret_version" || EndsWith(normalized, "_ref") then false
    else
      || Find(normalized, "secret").Some?
      || Find(normalized, "password").Some?
      || Find(normalized, "token").Some?
      || Find(normalized, "api_key").Some?
      || Find(normalized, "apikey").Some?
      || Find(normalized, "authorization").Some?
      || Find(normalized, "private_key").Some?
  }

  predicate IsSecretBearingHeaderName(name: string) {
    LowerAll(Trim(name)) in
      {"authorization", "proxy-authorization", "x-api-key", "api-key", "x-auth-token", "cookie"}
  }

  /** `str::parse::<usize>` succeeds: digits after an optional plus sign, below 2^64. */
  predicate ParsesAsUsize(s: string) {
    var digits := if s != "" && s[0] == '+' then s[1..] else s;
    digits != "" && DigitsValue(digits).Some? && DigitsValue(digits).value < 0x1_0000_0000_0000_0000
  }

  predicate PathMatchesHeadersValue(path: Path) {
    |path| >= 3 && path[|path| - 1] == "value" && path[|path| - 3] == "headers" && ParsesAsUsize(path[|path| - 2])
  }

  predicate PathMatchesCredentialsValue(path: Path) {
    |path| >= 2 && path[|path| - 1] == "value" && path[|path| - 2] == "credentials"
  }

  /** `path` ends in `key`. */
  predicate IsSecretBearing(key: string, child: Value, path: Path, parent: Value) {
    if IsSecretLikeKey(key) then true
    else if key == "value" && PathMatchesHeadersValue(path) then
      var name := AsStr(if Get(parent, "name").Some? then Get(parent, "name") else Get(parent, "key"));
      name.Some? && IsSecretBearingHeaderName(name.value)
    else key == "value" && PathMatchesCredentialsValue(path) && !child.Null?
  }

  predicate IsReferenceMarker(v: Value) {
    v.Object? && "secret_ref" in v.fields && "secret_version" in v.fields
  }

  function ReferenceMarker(secretRef: string, version: string): Value {
    Object(map["secret_ref" := String(secretRef), "secret_version" := Number(version)])
  }

  /** The member is taken out and replaced by a reference. */
  predicate Seals(parent: Value, path: Path, key: string)
    requires parent.Object? && key in parent.fields
  {
    IsSecretBearing(key, parent.fields[key], path + [key], parent) && !IsReferenceMarker(parent.fields[key])
  }

  // ----- The scrubbed configuration -----

  function Digit(n: nat): char
    requires n < 10
  {
    ('0' as int + n) as char
  }

  function IndexText(n: nat): (s: string)
    ensures s != "" && DigitsValue(s) == Some(n)
    ensures '/' !in s
  {
    if n < 10 then [Digit(n)]
    else
      var s := IndexText(n / 10) + [Digit(n % 10)];
      assert s[..|s| - 1] == IndexText(n / 10);
      s
  }

  function Sanitize(v: Value, path: Path, marker: Value): Value {
    match v
    case Object(fields) =>
      Object(map k | k in fields :: if Seals(v, path, k) then marker else Sanitize(fields[k], path + [k], marker))
    case Array(items) => Array(SanitizeItems(items, path, marker))
    case _ => v
  }

  function SanitizeItems(items: seq<Value>, path: Path, marker: Value): (r: seq<Value>)
    ensures |r| == |items|
    ensures forall i | 0 <= i < |items| :: r[i] == Sanitize(items[i], path + [IndexText(i)], marker)
  {
    if items == [] then []
    else
      var n := |items| - 1;
      SanitizeItems(items[..n], path, marker) + [Sanitize(items[n], path + [IndexText(n)], marker)]
  }

  /** `x` is the value that was taken out at `p`. */
  ghost predicate Sealed(v: Value, path: Path, p: Path, x: Value) {
    match v
    case Object(fields) =>
      exists k :: k in fields &&
                  if Seals(v, path, k) then p == path + [k] && x == fields[k]
                  else Sealed(fields[k], path + [k], p, x)
    case Array(items) => exists i: nat :: i < |items| && Sealed(items[i], path + [IndexText(i)], p, x)
    case _ => false
  }

  // ----- The secret store -----

  function JoinSlash(path: Path): string {
    if path == [] then "" else if |path| == 1 then path[0] else path[0] + "/" + JoinSlash(path[1..])
  }

  function Pointer(path: Path): string {
    "/" + JoinSlash(path)
  }

  /** A top-level secret is also kept under its own name, unless there is one already. */
  function StoreSecret(store: Value, path: Path, value: Value): Value {
    if !store.Object? then store
    else
      var fields := if |path| == 1 && path[0] !in store.fields then store.fields[path[0] := value] else store.fields;
      var values := if VALUES in fields then fields[VALUES] else Object(map[]);
      if values.Object? then Object(fields[VALUES := Object(values.fields[Pointer(path) := value])])
      else Object(fields)
  }

  function StoreAll(store: Value, trace: seq<(Path, Value)>): Value {
    if trace == [] then store
    else
      var last := trace[|trace| - 1];
      StoreSecret(StoreAll(store, trace[..|trace| - 1]), last.0, last.1)
  }

  lemma {:induction false} StoreAllConcat(store: Value, a: seq<(Path, Value)>, b: seq<(Path, Value)>)
    ensures StoreAll(store, a + b) == StoreAll(StoreAll(store, a), b)
  {
    if b == [] {
      assert a + b == a;
    } else {
      assert (a + b)[..|a + b| - 1] == a + b[..|b| - 1];
      StoreAllConcat(store, a, b[..|b| - 1]);
    }
  }

  /** The stores made are exactly those of the sealed values. */
  ghost predicate Records(v: Value, path: Path, trace: seq<(Path, Value)>) {
    forall p, x :: (p, x) in trace <==> Sealed(v, path, p, x)
  }

  ghost predicate Once(trace: seq<(Path, Value)>) {
    forall i, j | 0 <= i < j < |trace| :: trace[i] != trace[j]
  }

  /** The stores that a scrub makes, in some order of the members: each sealed value once. */
  ghost predicate Visited(v: Value, path: Path, trace: seq<(Path, Value)>) {
    Records(v, path, trace) && Once(trace)
  }

  /** The stores that a scrub makes, in their order: members by name, items by index. */
  ghost function Trace(v: Value, path: Path): seq<(Path, Value)>
    decreases v, 2
  {
    match v
    case Object(fields) => MembersTrace(v, path, InOrder(fields.Keys))
    case Array(items) => ItemsTrace(v, path, |items|)
    case _ => []
  }

  ghost function MembersTrace(v: Value, path: Path, keys: seq<string>): seq<(Path, Value)>
    requires v.Object? && forall k | k in keys :: k in v.fields
    decreases v, 1, |keys|
  {
    if keys == [] then []
    else
      var n := |keys| - 1;
      MembersTrace(v, path, keys[..n]) + MemberTrace(v, path, keys[n])
  }

  ghost function MemberTrace(v: Value, path: Path, k: string): seq<(Path, Value)>
    requires v.Object? && k in v.fields
    decreases v, 0
  {
    if Seals(v, path, k) then [(path + [k], v.fields[k])] else Trace(v.fields[k], path + [k])
  }

  ghost function ItemsTrace(v: Value, path: Path, n: nat): seq<(Path, Value)>
    requires v.Array? && n <= |v.items|
    decreases v, 1, n
  {
    if n == 0 then [] else ItemsTrace(v, path, n - 1) + Trace(v.items[n - 1], path + [IndexText(n - 1)])
  }

  class Scrubber {
    var secrets: Value
    const marker: Value

    constructor (secrets: Value, marker: Value)
      ensures this.secrets == secrets && this.marker == marker
    {
      this.secrets, this.marker := secrets, marker;
    }

    /** Replaces the secrets in a value and moves them to the store. */
    method Scrub(v: Value, path: Path) returns (sanitized: Value)
      modifies this
      ensures sanitized == Sanitize(v, path, marker)
      ensures secrets == StoreAll(old(secrets), Trace(v, path))
      decreases v, 1
    {
      match v
      case Object(fields) => sanitized := ScrubMembers(v, path);
      case Array(items) => sanitized := ScrubItems(v, path);
      case _ => sanitized := v;
    }

    /** The members of an object are visited in the order of their names. */
    method ScrubMembers(v: Value, path: Path) returns (sanitized: Value)
      requires v.Object?
      modifies this
      ensures sanitized == Sanitize(v, path, marker)
      ensures secrets == StoreAll(old(secrets), Trace(v, path))
      decreases v, 0
    {
      hide StoreSecret, Seals, StoreAll, Lists, Trace, Sanitize, MembersTrace;
      var done: map<string, Value> := map[];
      var keys := Sort(v.fields.Keys);
      AllListed(keys, v.fields.Keys);
      NothingStored(old(secrets));
      NoMemberTraced(v, path);
      for i := 0 to |keys|
        invariant done.Keys == Elements(keys[..i])
        invariant forall k | k in done :: done[k] == SanitizedMember(v, path, k, marker)
        invariant forall k | k in keys[..i] :: k in v.fields
        invariant secrets == StoreAll(old(secrets), MembersTrace(v, path, keys[..i]))
      {
        var k := keys[i];
        ghost var before := secrets;
        var next;
        if Seals(v, path, k) {
          secrets := StoreSecret(secrets, path + [k], v.fields[k]);
          OneStored(before, path + [k], v.fields[k]);
          next := marker;
        } else {
          next := Scrub(v.fields[k], path + [k]);
        }
        OneMoreKey(v, path, keys, i);
        StoreAllConcat(old(secrets), MembersTrace(v, path, keys[..i]), MemberTrace(v, path, k));
        done := done[k := next];
      }
      assert keys[..|keys|] == keys;
      MembersSanitized(v, path, marker, done);
      MembersTraced(v, path);
      sanitized := Object(done);
    }

    method ScrubItems(v: Value, path: Path) returns (sanitized: Value)
      requires v.Array?
      modifies this
      ensures sanitized == Sanitize(v, path, marker)
      ensures secrets == StoreAll(old(secrets), Trace(v, path))
      decreases v, 0
    {
      hide Sanitize, StoreAll, IndexText, Trace, ItemsTrace;
      var done := [];
      NothingStored(old(secrets));
      NoItemTraced(v, path);
      for i := 0 to |v.items|
        invariant |done| == i && forall j | 0 <= j < i :: done[j] == Sanitize(v.items[j], path + [IndexText(j)], marker)
        invariant secrets == StoreAll(old(secrets), ItemsTrace(v, path, i))
      {
        var next := Scrub(v.items[i], path + [IndexText(i)]);
        OneMoreItem(v, path, i);
        StoreAllConcat(old(secrets), ItemsTrace(v, path, i), Trace(v.items[i], path + [IndexText(i)]));
        done := done + [next];
      }
      ItemsTraced(v, path);
      ItemsSanitized(v, path, marker, done);
      sanitized := Array(done);
    }
  }

  ghost function Elements(list: seq<string>): set<string> {
    set k | k in list
  }

  lemma AllListed(keys: seq<string>, elements: set<string>)
    requires Lists(keys, elements)
    ensures Elements(keys) == elements && forall k | k in keys :: k in elements
  {
    hide Sorted;
  }

  lemma NoMemberTraced(v: Value, path: Path)
    requires v.Object?
    ensures MembersTrace(v, path, []) == []
  {
  }

  lemma OneMoreKey(v: Value, path: Path, keys: seq<string>, i: nat)
    requires v.Object? && i < |keys| && forall k | k in keys :: k in v.fields
    ensures forall k | k in keys[..i] || k in keys[..i + 1] :: k in v.fields
    ensures MembersTrace(v, path, keys[..i + 1]) == MembersTrace(v, path, keys[..i]) + MemberTrace(v, path, keys[i])
    ensures Elements(keys[..i + 1]) == Elements(keys[..i]) + {keys[i]}
  {
    hide Seals, MemberTrace;
    assert keys[..i + 1][..i] == keys[..i];
  }

  lemma MembersTraced(v: Value, path: Path)
    requires v.Object?
    ensures Trace(v, path) == MembersTrace(v, path, InOrder(v.fields.Keys))
  {
  }

  lemma NoItemTraced(v: Value, path: Path)
    requires v.Array?
    ensures ItemsTrace(v, path, 0) == []
  {
  }

  lemma OneMoreItem(v: Value, path: Path, i: nat)
    requires v.Array? && i < |v.items|
    ensures ItemsTrace(v, path, i + 1) == ItemsTrace(v, path, i) + Trace(v.items[i], path + [IndexText(i)])
  {
    hide Trace, IndexText;
  }

  lemma ItemsTraced(v: Value, path: Path)
    requires v.Array?
    ensures Trace(v, path) == ItemsTrace(v, path, |v.items|)
  {
  }

  lemma MembersSanitized(v: Value, path: Path, marker: Value, done: map<string, Value>)
    requires v.Object? && done.Keys == v.fields.Keys
    requires forall k | k in done :: done[k] == SanitizedMember(v, path, k, marker)
    ensures Object(done) == Sanitize(v, path, marker)
  {
    hide Seals;
    ObjectSanitized(v, path, marker);
    assert done == Sanitize(v, path, marker).fields;
  }

  function SanitizedMember(v: Value, path: Path, k: string, marker: Value): Value
    requires v.Object? && k in v.fields
  {
    if Seals(v, path, k) then marker else Sanitize(v.fields[k], path + [k], marker)
  }

  ghost predicate SealedMember(v: Value, path: Path, k: string, p: Path, x: Value)
    requires v.Object?
  {
    k in v.fields &&
    if Seals(v, path, k) then p == path + [k] && x == v.fields[k] else Sealed(v.fields[k], path + [k], p, x)
  }

  ghost predicate RecordsMembers(v: Value, path: Path, keys: set<string>, trace: seq<(Path, Value)>)
    requires v.Object?
  {
    forall p, x :: (p, x) in trace <==> exists k :: k in keys && SealedMember(v, path, k, p, x)
  }

  ghost predicate RecordsItems(v: Value, path: Path, n: nat, trace: seq<(Path, Value)>)
    requires v.Array? && n <= |v.items|
  {
    forall p, x :: (p, x) in trace <==> exists i: nat :: i < n && Sealed(v.items[i], path + [IndexText(i)], p, x)
  }

  lemma VisitedMeaning(v: Value, path: Path, trace: seq<(Path, Value)>)
    ensures Visited(v, path, trace) <==> Records(v, path, trace) && Once(trace)
  {
  }

  lemma NothingVisited(v: Value, path: Path)
    requires !v.Object? && !v.Array?
    ensures Visited(v, path, [])
  {
  }

  lemma OnceNothing()
    ensures Once([])
  {
  }

  lemma OnceAlone(e: (Path, Value))
    ensures Once([e])
  {
  }

  lemma OnceTogether(a: seq<(Path, Value)>, b: seq<(Path, Value)>)
    requires Once(a) && Once(b) && forall e | e in a :: e !in b
    ensures Once(a + b)
  {
    var all := a + b;
    forall i, j | 0 <= i < j < |all|
      ensures all[i] != all[j]
    {
      if i < |a| <= j {
        assert all[i] in a && all[j] == b[j - |a|] && all[j] in b;
      } else if |a| <= i {
        assert all[i] == b[i - |a|] && all[j] == b[j - |a|];
      }
    }
  }

  lemma DifferentIndexes(i: nat, j: nat)
    requires i != j
    ensures IndexText(i) != IndexText(j)
  {
    assert DigitsValue(IndexText(i)) == Some(i) && DigitsValue(IndexText(j)) == Some(j);
  }

  /** The stores of different members are different: they have different paths. */
  lemma MemberOnce(v: Value, path: Path, keys: set<string>, key: string, trace: seq<(Path, Value)>,
                   more: seq<(Path, Value)>)
    requires v.Object? && key in v.fields && key !in keys && RecordsMembers(v, path, keys, trace)
    requires if Seals(v, path, key) then more == [(path + [key], v.fields[key])]
             else Records(v.fields[key], path + [key], more)
    requires Once(trace) && Once(more)
    ensures Once(trace + more)
  {
    hide Seals, Once, Sealed;
    forall e | e in trace
      ensures e !in more
    {
      if e in more {
        assert (e.0, e.1) in trace && (e.0, e.1) in more;
        var k :| k in keys && SealedMember(v, path, k, e.0, e.1);
        MemberOfPath(v, path, k, e.0, e.1);
        MemberOfPath(v, path, key, e.0, e.1);
      }
    }
    OnceTogether(trace, more);
  }

  lemma MemberOfPath(v: Value, path: Path, k: string, p: Path, x: Value)
    requires v.Object? && SealedMember(v, path, k, p, x)
    ensures |p| > |path| && p[|path|] == k
  {
    hide Seals, Sealed;
    if !Seals(v, path, k) {
      SealedIsBelow(v.fields[k], path + [k], p, x);
      BelowMember(path, k, p);
    }
  }

  lemma ItemOnce(v: Value, path: Path, n: nat, trace: seq<(Path, Value)>, more: seq<(Path, Value)>)
    requires v.Array? && n < |v.items| && RecordsItems(v, path, n, trace)
    requires Records(v.items[n], path + [IndexText(n)], more)
    requires Once(trace) && Once(more)
    ensures Once(trace + more)
  {
    hide IndexText, Once, Sealed;
    forall e | e in trace
      ensures e !in more
    {
      if e in more {
        assert (e.0, e.1) in trace && (e.0, e.1) in more;
        var i: nat :| i < n && Sealed(v.items[i], path + [IndexText(i)], e.0, e.1);
        SealedIsBelow(v.items[i], path + [IndexText(i)], e.0, e.1);
        SealedIsBelow(v.items[n], path + [IndexText(n)], e.0, e.1);
        BelowMember(path, IndexText(i), e.0);
        BelowMember(path, IndexText(n), e.0);
        DifferentIndexes(i, n);
      }
    }
    OnceTogether(trace, more);
  }

  lemma NothingRecorded(v: Value, path: Path)
    requires v.Object?
    ensures RecordsMembers(v, path, {}, [])
  {
  }

  lemma RecordMember(v: Value, path: Path, keys: set<string>, key: string, trace: seq<(Path, Value)>,
                     more: seq<(Path, Value)>)
    requires v.Object? && key in v.fields && RecordsMembers(v, path, keys, trace)
    requires if Seals(v, path, key) then more == [(path + [key], v.fields[key])]
             else Records(v.fields[key], path + [key], more)
    ensures RecordsMembers(v, path, keys + {key}, trace + more)
  {
    hide Seals;
    forall p, x
      ensures (p, x) in trace + more <==> exists k :: k in keys + {key} && SealedMember(v, path, k, p, x)
    {
      assert (p, x) in more <==> SealedMember(v, path, key, p, x);
      assert (p, x) in trace <==> exists k :: k in keys && SealedMember(v, path, k, p, x);
      if (p, x) in more { assert key in keys + {key}; }
      if k :| k in keys && SealedMember(v, path, k, p, x) { assert k in keys + {key}; }
    }
  }

  lemma AllMembersRecorded(v: Value, path: Path, trace: seq<(Path, Value)>)
    requires v.Object? && RecordsMembers(v, path, v.fields.Keys, trace)
    ensures Records(v, path, trace)
  {
    forall p, x
      ensures (p, x) in trace <==> Sealed(v, path, p, x)
    {
      assert (p, x) in trace <==> exists k :: k in v.fields.Keys && SealedMember(v, path, k, p, x);
      if k :| k in v.fields.Keys && SealedMember(v, path, k, p, x) { assert k in v.fields; }
      if k :| k in v.fields && SealedMember(v, path, k, p, x) { assert k in v.fields.Keys; }
    }
  }

  lemma NoItemRecorded(v: Value, path: Path)
    requires v.Array?
    ensures RecordsItems(v, path, 0, [])
  {
  }

  lemma RecordItem(v: Value, path: Path, n: nat, trace: seq<(Path, Value)>, more: seq<(Path, Value)>)
    requires v.Array? && n < |v.items| && RecordsItems(v, path, n, trace)
    requires Records(v.items[n], path + [IndexText(n)], more)
    ensures RecordsItems(v, path, n + 1, trace + more)
  {
    hide IndexText;
    forall p, x
      ensures (p, x) in trace + more <==>
              exists i: nat :: i < n + 1 && Sealed(v.items[i], path + [IndexText(i)], p, x)
    {
      assert (p, x) in more <==> Sealed(v.items[n], path + [IndexText(n)], p, x);
    }
  }

  lemma AllItemsRecorded(v: Value, path: Path, trace: seq<(Path, Value)>)
    requires v.Array? && RecordsItems(v, path, |v.items|, trace)
    ensures Records(v, path, trace)
  {
    hide IndexText;
  }

  /** These stores are those of the sealed values, each once. */
  lemma {:induction false} TraceVisited(v: Value, path: Path)
    ensures Visited(v, path, Trace(v, path))
    decreases v, 2
  {
    hide Visited, RecordsMembers, RecordsItems, Once, Lists, Elements, MembersTrace, ItemsTrace, Sorted;
    match v
    case Object(fields) =>
      var keys := InOrder(fields.Keys);
      AllListed(keys, fields.Keys);
      ListsMeaning(keys, fields.Keys);
      MembersVisited(v, path, keys);
      MembersTraced(v, path);
      AllMembersRecorded(v, path, Trace(v, path));
      VisitedMeaning(v, path, Trace(v, path));
    case Array(items) =>
      ItemsVisited(v, path, |items|);
      ItemsTraced(v, path);
      AllItemsRecorded(v, path, Trace(v, path));
      VisitedMeaning(v, path, Trace(v, path));
    case _ =>
      NothingVisited(v, path);
  }

  lemma {:induction false} MembersVisited(v: Value, path: Path, keys: seq<string>)
    requires v.Object? && Sorted(keys) && forall k | k in keys :: k in v.fields
    ensures RecordsMembers(v, path, Elements(keys), MembersTrace(v, path, keys))
    ensures Once(MembersTrace(v, path, keys))
    decreases v, 1, |keys|
  {
    hide LexLe, Seals, Sealed, SealedMember, RecordsMembers, Records, Once, Visited, Trace;
    if keys == [] {
      NothingRecorded(v, path);
      OnceNothing();
      assert Elements(keys) == {};
    } else {
      var n := |keys| - 1;
      var k, front, more := keys[n], keys[..n], MemberTrace(v, path, keys[n]);
      MembersVisited(v, path, front);
      if Seals(v, path, k) {
        OnceAlone(more[0]);
      } else {
        TraceVisited(v.fields[k], path + [k]);
        VisitedMeaning(v.fields[k], path + [k], more);
      }
      assert keys[..n + 1] == keys;
      OneMoreKey(v, path, keys, n);
      MemberOnce(v, path, Elements(front), k, MembersTrace(v, path, front), more);
      RecordMember(v, path, Elements(front), k, MembersTrace(v, path, front), more);
    }
  }

  lemma {:induction false} ItemsVisited(v: Value, path: Path, n: nat)
    requires v.Array? && n <= |v.items|
    ensures RecordsItems(v, path, n, ItemsTrace(v, path, n)) && Once(ItemsTrace(v, path, n))
    decreases v, 1, n
  {
    hide RecordsItems, Records, Once, Visited, Trace, ItemsTrace, IndexText;
    if n == 0 {
      NoItemRecorded(v, path);
      NoItemTraced(v, path);
      OnceNothing();
    } else {
      var i := n - 1;
      var more := Trace(v.items[i], path + [IndexText(i)]);
      ItemsVisited(v, path, i);
      TraceVisited(v.items[i], path + [IndexText(i)]);
      VisitedMeaning(v.items[i], path + [IndexText(i)], more);
      ItemOnce(v, path, i, ItemsTrace(v, path, i), more);
      RecordItem(v, path, i, ItemsTrace(v, path, i), more);
      OneMoreItem(v, path, i);
    }
  }

  lemma ItemsSanitized(v: Value, path: Path, marker: Value, done: seq<Value>)
    requires v.Array? && |done| == |v.items|
    requires forall j | 0 <= j < |done| :: done[j] == Sanitize(v.items[j], path + [IndexText(j)], marker)
    ensures Array(done) == Sanitize(v, path, marker)
  {
    assert done == SanitizeItems(v.items, path, marker);
  }

  lemma NothingStored(store: Value)
    ensures StoreAll(store, []) == store
  {
  }

  lemma OneStored(store: Value, path: Path, value: Value)
    ensures StoreAll(store, [(path, value)]) == StoreSecret(store, path, value)
  {
    assert [(path, value)][..0] == [];
  }

  // ----- Pointers are unambiguous -----

  predicate SlashFree(path: Path) {
    forall i | 0 <= i < |path| :: '/' !in path[i]
  }

  /** No member name in the value contains a slash. */
  ghost predicate SlashFreeKeys(v: Value) {
    match v
    case Object(fields) => forall k | k in fields :: '/' !in k && SlashFreeKeys(fields[k])
    case Array(items) => forall i | 0 <= i < |items| :: SlashFreeKeys(items[i])
    case _ => true
  }

  lemma NotLonger(a: string, x: string, b: string)
    requires '/' !in b && (x == "" || x[0] == '/') && b <= a + x
    ensures |b| <= |a|
  {
    assert forall i | 0 <= i < |b| :: b[i] == (a + x)[i] && b[i] in b;
    assert x != "" ==> (a + x)[|a|] == x[0];
  }

  lemma FirstSlash(a: string, x: string, b: string, y: string)
    requires '/' !in a && '/' !in b
    requires x == "" || x[0] == '/'
    requires y == "" || y[0] == '/'
    requires a + x == b + y
    ensures a == b && x == y
  {
    NotLonger(a, x, b);
    NotLonger(b, y, a);
    assert a == (a + x)[..|a|] && b == (b + y)[..|b|];
    assert x == (a + x)[|a|..] && y == (b + y)[|b|..];
  }

  lemma {:induction false} JoinInjective(p: Path, q: Path)
    requires SlashFree(p) && SlashFree(q) && p != [] && q != []
    requires JoinSlash(p) == JoinSlash(q)
    ensures p == q
    decreases |p|
  {
    var x := if |p| == 1 then "" else "/" + JoinSlash(p[1..]);
    var y := if |q| == 1 then "" else "/" + JoinSlash(q[1..]);
    assert JoinSlash(p) == p[0] + x && JoinSlash(q) == q[0] + y;
    FirstSlash(p[0], x, q[0], y);
    if |p| > 1 && |q| > 1 {
      assert JoinSlash(p[1..]) == x[1..] == y[1..] == JoinSlash(q[1..]);
      JoinInjective(p[1..], q[1..]);
      assert p == [p[0]] + p[1..] && q == [q[0]] + q[1..];
    }
  }

  lemma PointerInjective(p: Path, q: Path)
    requires SlashFree(p) && SlashFree(q) && p != [] && q != [] && Pointer(p) == Pointer(q)
    ensures p == q
  {
    assert JoinSlash(p) == Pointer(p)[1..] && JoinSlash(q) == Pointer(q)[1..];
    JoinInjective(p, q);
  }

  // ----- Where sealed values are -----

  ghost predicate Below(path: Path, p: Path) {
    |p| > |path| && p[..|path|] == path
  }

  lemma BelowMember(path: Path, k: string, p: Path)
    requires Below(path + [k], p)
    ensures Below(path, p) && p[|path|] == k
  {
    assert p[..|path|] == p[..|path| + 1][..|path|] == path;
    assert p[|path|] == p[..|path| + 1][|path|];
  }

  lemma {:induction false} MemberOfSealed(v: Value, path: Path, p: Path, x: Value) returns (k: string)
    requires v.Object? && Sealed(v, path, p, x)
    ensures k in v.fields && SealedMember(v, path, k, p, x)
  {
    k :| k in v.fields && SealedMember(v, path, k, p, x);
  }

  lemma {:induction false} SealedMemberMeaning(v: Value, path: Path, k: string, p: Path, x: Value)
    requires v.Object? && k in v.fields
    ensures SealedMember(v, path, k, p, x) <==>
            if Seals(v, path, k) then p == path + [k] && x == v.fields[k] else Sealed(v.fields[k], path + [k], p, x)
  {
  }

  lemma {:induction false} SealedMemberIsSealed(v: Value, path: Path, k: string, p: Path, x: Value)
    requires v.Object? && k in v.fields && SealedMember(v, path, k, p, x)
    ensures Sealed(v, path, p, x)
  {
  }

  lemma {:induction false} ItemOfSealed(v: Value, path: Path, p: Path, x: Value) returns (i: nat)
    requires v.Array? && Sealed(v, path, p, x)
    ensures i < |v.items| && Sealed(v.items[i], path + [IndexText(i)], p, x)
  {
    i :| i < |v.items| && Sealed(v.items[i], path + [IndexText(i)], p, x);
  }

  lemma {:induction false} SealedIsBelow(v: Value, path: Path, p: Path, x: Value)
    requires Sealed(v, path, p, x)
    ensures Below(path, p)
    ensures SlashFreeKeys(v) && SlashFree(path) ==> SlashFree(p)
  {
    hide Seals, SealedMember, IndexText;
    match v
    case Object(fields) =>
      var k := MemberOfSealed(v, path, p, x);
      SealedMemberMeaning(v, path, k, p, x);
      if !Seals(v, path, k) {
        SealedIsBelow(fields[k], path + [k], p, x);
        BelowMember(path, k, p);
      }
    case Array(items) =>
      var i := ItemOfSealed(v, path, p, x);
      SealedIsBelow(items[i], path + [IndexText(i)], p, x);
      BelowMember(path, IndexText(i), p);
    case _ =>
  }

  /** Below a member that stays, what is sealed in the object is what is sealed in the member. */
  lemma SealedInMember(v: Value, path: Path, k: string, p: Path, x: Value)
    requires v.Object? && k in v.fields && Below(path, p) && p[|path|] == k
    ensures Sealed(v, path, p, x) <==> SealedMember(v, path, k, p, x)
  {
    hide Seals, Sealed, SealedMember;
    if Sealed(v, path, p, x) {
      var l := MemberOfSealed(v, path, p, x);
      SealedMemberMeaning(v, path, l, p, x);
      if !Seals(v, path, l) {
        SealedIsBelow(v.fields[l], path + [l], p, x);
        BelowMember(path, l, p);
      }
      assert l == k;
    }
    if SealedMember(v, path, k, p, x) { SealedMemberIsSealed(v, path, k, p, x); }
  }

  lemma SealedInItem(v: Value, path: Path, i: nat, p: Path, x: Value)
    requires v.Array? && i < |v.items| && Below(path, p) && p[|path|] == IndexText(i)
    ensures Sealed(v, path, p, x) <==> Sealed(v.items[i], path + [IndexText(i)], p, x)
  {
    hide IndexText;
    if Sealed(v, path, p, x) {
      var j := ItemOfSealed(v, path, p, x);
      SealedIsBelow(v.items[j], path + [IndexText(j)], p, x);
      BelowMember(path, IndexText(j), p);
      assert Some(i) == DigitsValue(IndexText(i)) == Some(j);
    }
  }

  lemma {:induction false} SealedUnique(v: Value, path: Path, p: Path, x: Value, y: Value)
    requires Sealed(v, path, p, x) && Sealed(v, path, p, y)
    ensures x == y
  {
    hide Seals, SealedMember, IndexText;
    match v
    case Object(fields) =>
      var k := MemberOfSealed(v, path, p, x);
      SealedMemberMeaning(v, path, k, p, x);
      SealedMemberMeaning(v, path, k, p, y);
      if !Seals(v, path, k) {
        SealedIsBelow(fields[k], path + [k], p, x);
        BelowMember(path, k, p);
      }
      SealedInMember(v, path, k, p, y);
      if !Seals(v, path, k) { SealedUnique(fields[k], path + [k], p, x, y); }
    case Array(items) =>
      var i := ItemOfSealed(v, path, p, x);
      SealedIsBelow(items[i], path + [IndexText(i)], p, x);
      BelowMember(path, IndexText(i), p);
      SealedInItem(v, path, i, p, y);
      SealedUnique(items[i], path + [IndexText(i)], p, x, y);
    case _ =>
  }

  // ----- Putting the values back -----

  /** Replaces every member whose pointer is stored by the stored value. */
  function Fill(v: Value, path: Path, stored: map<string, Value>): Value
    decreases v, 0
  {
    match v
    case Object(fields) => Object(map k | k in fields :: FillMember(fields[k], path + [k], stored))
    case Array(items) => Array(FillItems(items, path, stored))
    case _ => v
  }

  function FillMember(v: Value, path: Path, stored: map<string, Value>): Value
    decreases v, 1
  {
    if Pointer(path) in stored then stored[Pointer(path)] else Fill(v, path, stored)
  }

  function FillItems(items: seq<Value>, path: Path, stored: map<string, Value>): (r: seq<Value>)
    ensures |r| == |items|
    ensures forall i | 0 <= i < |items| :: r[i] == Fill(items[i], path + [IndexText(i)], stored)
    decreases items, 0
  {
    if items == [] then []
    else
      var n := |items| - 1;
      FillItems(items[..n], path, stored) + [Fill(items[n], path + [IndexText(n)], stored)]
  }

  /** The stored pointers below the path are exactly those of the sealed values, with these values. */
  ghost predicate Matches(v: Value, path: Path, stored: map<string, Value>) {
    forall p | SlashFree(p) && Below(path, p) ::
      && (Pointer(p) in stored ==> exists x :: Sealed(v, path, p, x))
      && (forall x | Sealed(v, path, p, x) :: Pointer(p) in stored && stored[Pointer(p)] == x)
  }

  lemma MatchesMember(v: Value, path: Path, k: string, stored: map<string, Value>)
    requires v.Object? && k in v.fields && !Seals(v, path, k) && Matches(v, path, stored)
    ensures Matches(v.fields[k], path + [k], stored)
  {
    hide Seals, Pointer;
    forall p | SlashFree(p) && Below(path + [k], p)
      ensures Pointer(p) in stored ==> exists x :: Sealed(v.fields[k], path + [k], p, x)
      ensures forall x | Sealed(v.fields[k], path + [k], p, x) :: Pointer(p) in stored && stored[Pointer(p)] == x
    {
      BelowMember(path, k, p);
      forall x
        ensures Sealed(v, path, p, x) <==> Sealed(v.fields[k], path + [k], p, x)
      {
        SealedInMember(v, path, k, p, x);
        SealedMemberMeaning(v, path, k, p, x);
      }
    }
  }

  lemma MatchesItem(v: Value, path: Path, i: nat, stored: map<string, Value>)
    requires v.Array? && i < |v.items| && Matches(v, path, stored)
    ensures Matches(v.items[i], path + [IndexText(i)], stored)
  {
    hide IndexText, Pointer;
    var next := path + [IndexText(i)];
    forall p | SlashFree(p) && Below(next, p)
      ensures Pointer(p) in stored ==> exists x :: Sealed(v.items[i], next, p, x)
      ensures forall x | Sealed(v.items[i], next, p, x) :: Pointer(p) in stored && stored[Pointer(p)] == x
    {
      BelowMember(path, IndexText(i), p);
      forall x
        ensures Sealed(v, path, p, x) <==> Sealed(v.items[i], next, p, x)
      {
        SealedInItem(v, path, i, p, x);
      }
    }
  }

  lemma MemberRestored(v: Value, path: Path, k: string, stored: map<string, Value>)
    requires v.Object? && k in v.fields && SlashFree(path + [k]) && Matches(v, path, stored)
    ensures if Seals(v, path, k) then Pointer(path + [k]) in stored && stored[Pointer(path + [k])] == v.fields[k]
            else Pointer(path + [k]) !in stored
  {
    hide Seals, Pointer;
    var p := path + [k];
    assert Below(path, p) && p[|path|] == k;
    if Seals(v, path, k) {
      SealedInMember(v, path, k, p, v.fields[k]);
      SealedMemberMeaning(v, path, k, p, v.fields[k]);
    } else {
      forall x
        ensures !Sealed(v, path, p, x)
      {
        SealedInMember(v, path, k, p, x);
        SealedMemberMeaning(v, path, k, p, x);
        if Sealed(v.fields[k], p, p, x) { SealedIsBelow(v.fields[k], p, p, x); }
      }
    }
  }

  lemma ObjectSanitized(v: Value, path: Path, marker: Value)
    requires v.Object?
    ensures var r := Sanitize(v, path, marker);
            && r.Object? && r.fields.Keys == v.fields.Keys
            && forall k | k in v.fields :: r.fields[k] == SanitizedMember(v, path, k, marker)
  {
  }

  lemma ObjectFilled(v: Value, path: Path, stored: map<string, Value>)
    requires v.Object?
    ensures var r := Fill(v, path, stored);
            && r.Object? && r.fields.Keys == v.fields.Keys
            && forall k | k in v.fields :: r.fields[k] == FillMember(v.fields[k], path + [k], stored)
  {
  }

  lemma ItemsFilled(v: Value, path: Path, marker: Value, stored: map<string, Value>)
    requires v.Array?
    ensures Fill(Sanitize(v, path, marker), path, stored)
         == Array(FillItems(SanitizeItems(v.items, path, marker), path, stored))
  {
  }

  lemma {:induction false} FillRestores(v: Value, path: Path, marker: Value, stored: map<string, Value>)
    requires SlashFreeKeys(v) && SlashFree(path) && Matches(v, path, stored)
    ensures Fill(Sanitize(v, path, marker), path, stored) == v
    decreases v, 1
  {
    match v
    case Object(fields) => MembersRestored(v, path, marker, stored);
    case Array(items) => ItemsRestored(v, path, marker, stored);
    case _ =>
  }

  lemma {:induction false} MembersRestored(v: Value, path: Path, marker: Value, stored: map<string, Value>)
    requires v.Object? && SlashFreeKeys(v) && SlashFree(path) && Matches(v, path, stored)
    ensures Fill(Sanitize(v, path, marker), path, stored) == v
    decreases v, 0
  {
    hide Seals, Matches, Pointer, Sanitize, Fill;
    var sanitized := Sanitize(v, path, marker);
    ObjectSanitized(v, path, marker);
    ObjectFilled(sanitized, path, stored);
    forall k | k in v.fields
      ensures FillMember(sanitized.fields[k], path + [k], stored) == v.fields[k]
    {
      MemberRestored(v, path, k, stored);
      if !Seals(v, path, k) {
        MatchesMember(v, path, k, stored);
        FillRestores(v.fields[k], path + [k], marker, stored);
      }
    }
    assert Fill(sanitized, path, stored).fields == v.fields;
  }

  lemma {:induction false} ItemsRestored(v: Value, path: Path, marker: Value, stored: map<string, Value>)
    requires v.Array? && SlashFreeKeys(v) && SlashFree(path) && Matches(v, path, stored)
    ensures Fill(Sanitize(v, path, marker), path, stored) == v
    decreases v, 0
  {
    hide Matches, Fill, Sanitize, SlashFree, SlashFreeKeys, Pointer, IndexText, SanitizeItems, FillItems;
    var sanitized := SanitizeItems(v.items, path, marker);
    var filled := FillItems(sanitized, path, stored);
    forall i | 0 <= i < |v.items|
      ensures filled[i] == v.items[i]
    {
      MatchesItem(v, path, i, stored);
      SlashFreeItem(v, path, i);
      FillRestores(v.items[i], path + [IndexText(i)], marker, stored);
    }
    assert filled == v.items;
    ItemsFilled(v, path, marker, stored);
  }

  lemma SlashFreeItem(v: Value, path: Path, i: nat)
    requires v.Array? && i < |v.items| && SlashFreeKeys(v) && SlashFree(path)
    ensures SlashFreeKeys(v.items[i]) && SlashFree(path + [IndexText(i)])
  {
  }

  /** The values kept by pointer. */
  function StoredValues(store: Value): map<string, Value> {
    if store.Object? && VALUES in store.fields && store.fields[VALUES].Object? then store.fields[VALUES].fields
    else map[]
  }

  lemma StoredOnce(store: Value, path: Path, value: Value)
    requires store.Object? && (VALUES in store.fields ==> store.fields[VALUES].Object?) && path != [VALUES]
    ensures var after := StoreSecret(store, path, value);
            && after.Object? && VALUES in after.fields && after.fields[VALUES].Object?
            && StoredValues(after) == StoredValues(store)[Pointer(path) := value]
            && forall k | k in store.fields && k != VALUES :: k in after.fields && after.fields[k] == store.fields[k]
  {
    hide Pointer;
  }

  /** What a run of stores leaves in a store that had no values yet. An existing secret of the same name stays. */
  lemma {:induction false} StoredPointers(store: Value, trace: seq<(Path, Value)>)
    requires store.Object? && VALUES !in store.fields && forall e | e in trace :: e.0 != [VALUES]
    ensures var after := StoreAll(store, trace);
            && after.Object?
            && (VALUES in after.fields ==> after.fields[VALUES].Object?)
            && (forall q :: q in StoredValues(after) <==> exists e :: e in trace && Pointer(e.0) == q)
            && (forall k | k in store.fields :: k in after.fields && after.fields[k] == store.fields[k])
  {
    hide Pointer, StoreSecret;
    if trace != [] {
      var front, last := trace[..|trace| - 1], trace[|trace| - 1];
      assert forall e :: e in trace <==> e in front || e == last;
      StoredPointers(store, front);
      StoredOnce(StoreAll(store, front), last.0, last.1);
    }
  }

  lemma {:induction false} StoredTrace(store: Value, trace: seq<(Path, Value)>)
    requires store.Object? && VALUES !in store.fields
    requires forall e | e in trace :: e.0 != [] && SlashFree(e.0) && e.0 != [VALUES]
    requires forall e, f | e in trace && f in trace && e.0 == f.0 :: e == f
    ensures var after := StoreAll(store, trace);
            forall e | e in trace :: Pointer(e.0) in StoredValues(after) && StoredValues(after)[Pointer(e.0)] == e.1
  {
    hide Pointer, StoreSecret;
    if trace != [] {
      var front, last := trace[..|trace| - 1], trace[|trace| - 1];
      assert forall e :: e in trace <==> e in front || e == last;
      StoredTrace(store, front);
      StoredPointers(store, front);
      forall e | e in trace && Pointer(e.0) == Pointer(last.0)
        ensures e == last
      {
        PointerInjective(e.0, last.0);
      }
      StoredOnce(StoreAll(store, front), last.0, last.1);
    }
  }

  /** Main result: putting the stored values back at their pointers in the scrubbed configuration rebuilds the
      original, if no member name has a slash and the store's own name is not in use. */
  lemma ScrubbingIsInvertible(config: Value, secrets: Value, marker: Value, trace: seq<(Path, Value)>)
    requires config.Object? && SlashFreeKeys(config) && VALUES !in config.fields
    requires secrets.Object? && VALUES !in secrets.fields
    requires Records(config, [], trace)
    ensures Fill(Sanitize(config, [], marker), [], StoredValues(StoreAll(secrets, trace))) == config
  {
    hide Pointer, Seals, StoreAll, StoredValues;
    forall e | e in trace
      ensures e.0 != [] && SlashFree(e.0) && e.0 != [VALUES]
    {
      assert Sealed(config, [], e.0, e.1);
      SealedIsBelow(config, [], e.0, e.1);
      TopLevelMember(config, e.0, e.1);
    }
    forall e, f | e in trace && f in trace && e.0 == f.0
      ensures e == f
    {
      SealedUnique(config, [], e.0, e.1, f.1);
    }
    StoredTrace(secrets, trace);
    StoredPointers(secrets, trace);
    var stored := StoredValues(StoreAll(secrets, trace));
    forall p | SlashFree(p) && Below([], p)
      ensures Pointer(p) in stored ==> exists x :: Sealed(config, [], p, x)
      ensures forall x | Sealed(config, [], p, x) :: Pointer(p) in stored && stored[Pointer(p)] == x
    {
      if Pointer(p) in stored {
        var e :| e in trace && Pointer(e.0) == Pointer(p);
        PointerInjective(e.0, p);
        assert (e.0, e.1) in trace;
        assert Sealed(config, [], p, e.1);
      }
      forall x | Sealed(config, [], p, x)
        ensures Pointer(p) in stored && stored[Pointer(p)] == x
      {
        assert (p, x) in trace;
      }
    }
    FillRestores(config, [], marker, stored);
  }

  lemma TopLevelMember(config: Value, p: Path, x: Value)
    requires config.Object? && Sealed(config, [], p, x)
    ensures p != [] && p[0] in config.fields
  {
    hide Seals;
    var k := MemberOfSealed(config, [], p, x);
    SealedMemberMeaning(config, [], k, p, x);
    if !Seals(config, [], k) {
      SealedIsBelow(config.fields[k], [] + [k], p, x);
      BelowMember([], k, p);
    }
  }

  /** With slashes in member names two secrets can share a pointer, and then one of them is lost: here `a/password`
      and `password` inside `a`. */
  lemma SlashLosesASecret(secrets: Value, marker: Value, trace: seq<(Path, Value)>)
    requires secrets.Object? && VALUES !in secrets.fields
    requires var config := Object(map["a/password" := String("x"), "a" := Object(map["password" := String("y")])]);
             Records(config, [], trace)
    ensures var config := Object(map["a/password" := String("x"), "a" := Object(map["password" := String("y")])]);
            Fill(Sanitize(config, [], marker), [], StoredValues(StoreAll(secrets, trace))) != config
  {
    hide Seals, Sealed, SealedMember, Sanitize, Fill, StoreAll, StoredValues, Pointer;
    var inner := Object(map["password" := String("y")]);
    var config := Object(map["a/password" := String("x"), "a" := inner]);
    Collision(config, inner);
    CollidingPointers();
    assert [] + ["a"] == ["a"] && [] + ["a/password"] == ["a/password"] && ["a"] + ["password"] == ["a", "password"];
    forall e | e in trace
      ensures e.0 != [VALUES] && Pointer(e.0) == "/a/password"
    {
      assert Sealed(config, [], e.0, e.1);
      var k := MemberOfSealed(config, [], e.0, e.1);
      SealedMemberMeaning(config, [], k, e.0, e.1);
      if k == "a" {
        var l := MemberOfSealed(inner, [] + ["a"], e.0, e.1);
        SealedMemberMeaning(inner, [] + ["a"], l, e.0, e.1);
        assert e.0 == ["a", "password"];
      } else {
        assert e.0 == ["a/password"];
      }
    }
    StoredPointers(secrets, trace);
    var stored := StoredValues(StoreAll(secrets, trace));
    assert Pointer(["a"]) !in stored;
    var sanitized := Sanitize(config, [], marker);
    ObjectSanitized(config, [], marker);
    ObjectFilled(sanitized, [], stored);
    ObjectSanitized(inner, ["a"], marker);
    ObjectFilled(sanitized.fields["a"], ["a"], stored);
    SealedMemberMeaning(config, [], "a/password", ["a/password"], String("x"));
    SealedMemberIsSealed(config, [], "a/password", ["a/password"], String("x"));
    assert (["a/password"], String("x")) in trace;
    var r := Fill(sanitized, [], stored);
    assert r.fields["a/password"] == stored["/a/password"];
    assert r.fields["a"].fields["password"] == stored["/a/password"];
  }

  lemma Collision(config: Value, inner: Value)
    requires inner == Object(map["password" := String("y")])
    requires config == Object(map["a/password" := String("x"), "a" := inner])
    ensures Seals(config, [], "a/password") && !Seals(config, [], "a") && Seals(inner, ["a"], "password")
  {
    hide IsSecretLikeKey;
    PasswordIsSecret("a/");
    PasswordIsSecret("");
    assert "a/" + "password" == "a/password" && "" + "password" == "password";
    ShortKey("a");
  }

  lemma CollidingPointers()
    ensures Pointer(["a/password"]) == Pointer(["a", "password"]) == "/a/password" && Pointer(["a"]) == "/a"
  {
    assert ["a", "password"][1..] == ["password"];
  }

  lemma PasswordIsSecret(prefix: string)
    requires |prefix| <= 2 && forall i | 0 <= i < |prefix| :: prefix[i] == '/' || 'a' <= prefix[i] <= 'z'
    ensures IsSecretLikeKey(prefix + "password")
  {
    hide Find, FindFrom, Normalize;
    var s := prefix + "password";
    NormalizeFixed(s);
    assert OccursAt(s, "password", |prefix|);
    assert s[|s| - 1] == 'd' && "secret_ref"[9] == 'f' && "secret_version"[13] == 'n' && "_ref"[3] == 'f';
    assert Find(s, "password").Some?;
  }

  // ----- Scrubbing twice -----

  lemma {:induction false} NormalizeFixed(s: string)
    requires forall i | 0 <= i < |s| :: s[i] == '_' || s[i] == '/' || 'a' <= s[i] <= 'z'
    ensures Normalize(s) == s
  {
    if s != "" { NormalizeFixed(s[1..]); }
  }

  lemma TooShort(s: string, pattern: string)
    requires |s| < |pattern|
    ensures Find(s, pattern).None?
  {
  }

  lemma PlainKeys()
    ensures !IsSecretLikeKey("secret_ref") && !IsSecretLikeKey("secret_version")
    ensures !IsSecretLikeKey("name") && !IsSecretLikeKey("key")
  {
    hide Normalize, Find;
    NormalizeFixed("secret_ref");
    NormalizeFixed("secret_version");
    ShortKey("name");
    ShortKey("key");
  }

  lemma ShortKey(key: string)
    requires |key| <= 4
    ensures !IsSecretLikeKey(key)
  {
    var s := Normalize(key);
    TooShort(s, "secret");
    TooShort(s, "password");
    TooShort(s, "token");
    TooShort(s, "api_key");
    TooShort(s, "apikey");
    TooShort(s, "authorization");
    TooShort(s, "private_key");
  }

  lemma PlainMemberIsKept(v: Value, path: Path, k: string)
    requires v.Object? && k in v.fields && !IsSecretLikeKey(k) && k != "value"
    ensures !Seals(v, path, k)
  {
  }

  lemma NumberKept(v: Value, path: Path, marker: Value)
    requires v.Number?
    ensures Sanitize(v, path, marker) == v
  {
  }

  lemma LeafSealsNothing(v: Value, path: Path, p: Path, x: Value)
    requires !v.Object? && !v.Array?
    ensures !Sealed(v, path, p, x)
  {
  }

  /** A reference stays as it is, wherever it stands. */
  lemma MarkerIsKept(path: Path, secretRef: string, version: string, marker: Value)
    ensures var r := ReferenceMarker(secretRef, version); Sanitize(r, path, marker) == r && IsReferenceMarker(r)
  {
    hide Seals, IsSecretLikeKey, Sanitize;
    var r := ReferenceMarker(secretRef, version);
    PlainKeys();
    PlainMemberIsKept(r, path, "secret_ref");
    PlainMemberIsKept(r, path, "secret_version");
    ObjectSanitized(r, path, marker);
    ShapeKept(r.fields["secret_ref"], path + ["secret_ref"], marker);
    NumberKept(r.fields["secret_version"], path + ["secret_version"], marker);
    assert Sanitize(r, path, marker).fields == r.fields;
  }

  /** Scrubbing keeps what decides whether a value is secret: strings and null stay, other values stay other. */
  lemma ShapeKept(v: Value, path: Path, marker: Value)
    ensures var r := Sanitize(v, path, marker);
            && (v.String? <==> r.String?) && (v.String? ==> r == v)
            && (v.Null? <==> r.Null?)
            && (IsReferenceMarker(v) <==> IsReferenceMarker(r))
  {
  }

  /** A name that decides about a header survives scrubbing. */
  lemma NameKept(v: Value, path: Path, k: string, marker: Value)
    requires v.Object? && (k == "name" || k == "key")
    ensures Get(Sanitize(v, path, marker), k).Some? <==> Get(v, k).Some?
    ensures AsStr(Get(Sanitize(v, path, marker), k)) == AsStr(Get(v, k))
  {
    hide Seals, IsSecretLikeKey, Sanitize;
    PlainKeys();
    ObjectSanitized(v, path, marker);
    if k in v.fields {
      PlainMemberIsKept(v, path, k);
      ShapeKept(v.fields[k], path + [k], marker);
    }
  }

  /** In a scrubbed object no member is taken out any more. */
  lemma NothingLeftToSeal(v: Value, path: Path, secretRef: string, version: string, k: string)
    requires v.Object? && k in v.fields
    ensures var r := Sanitize(v, path, ReferenceMarker(secretRef, version));
            r.Object? && k in r.fields && !Seals(r, path, k)
  {
    var marker := ReferenceMarker(secretRef, version);
    if !Seals(v, path, k) {
      hide Sanitize, IsSecretLikeKey, IsSecretBearingHeaderName, PathMatchesHeadersValue, PathMatchesCredentialsValue;
      ObjectSanitized(v, path, marker);
      ShapeKept(v.fields[k], path + [k], marker);
      NameKept(v, path, "name", marker);
      NameKept(v, path, "key", marker);
    } else {
      hide IsSecretBearing;
    }
  }

  /** Main result: scrubbing a scrubbed value changes nothing, even with another reference, and takes nothing out. */
  lemma {:induction false} ScrubbingIsIdempotent(v: Value, path: Path, secretRef: string, version: string, again: Value)
    ensures var r := Sanitize(v, path, ReferenceMarker(secretRef, version));
            Sanitize(r, path, again) == r && forall p, x :: !Sealed(r, path, p, x)
    decreases v, 1
  {
    match v
    case Object(fields) => MembersIdempotent(v, path, secretRef, version, again);
    case Array(items) => ItemsIdempotent(v, path, secretRef, version, again);
    case _ =>
  }

  lemma {:induction false} MembersIdempotent(v: Value, path: Path, secretRef: string, version: string, again: Value)
    requires v.Object?
    ensures var r := Sanitize(v, path, ReferenceMarker(secretRef, version));
            Sanitize(r, path, again) == r && forall p, x :: !Sealed(r, path, p, x)
    decreases v, 0
  {
    hide Seals, Sanitize, Sealed, SealedMember, ReferenceMarker;
    var marker := ReferenceMarker(secretRef, version);
    var r := Sanitize(v, path, marker);
    ObjectSanitized(v, path, marker);
    ObjectSanitized(r, path, again);
    forall k | k in v.fields
      ensures SanitizedMember(r, path, k, again) == r.fields[k]
      ensures forall p, x :: !SealedMember(r, path, k, p, x)
    {
      NothingLeftToSeal(v, path, secretRef, version, k);
      MarkerSealsNothing(path + [k], secretRef, version, again);
      if !Seals(v, path, k) { ScrubbingIsIdempotent(v.fields[k], path + [k], secretRef, version, again); }
      forall p, x
        ensures !SealedMember(r, path, k, p, x)
      {
        SealedMemberMeaning(r, path, k, p, x);
      }
    }
    assert Sanitize(r, path, again).fields == r.fields;
    forall p, x
      ensures !Sealed(r, path, p, x)
    {
      if Sealed(r, path, p, x) {
        var k := MemberOfSealed(r, path, p, x);
      }
    }
  }

  lemma MarkerSealsNothing(path: Path, secretRef: string, version: string, again: Value)
    ensures var r := ReferenceMarker(secretRef, version);
            Sanitize(r, path, again) == r && forall p, x :: !Sealed(r, path, p, x)
  {
    hide Seals, IsSecretLikeKey, SealedMember, Sanitize, Sealed;
    var r := ReferenceMarker(secretRef, version);
    MarkerIsKept(path, secretRef, version, again);
    PlainKeys();
    PlainMemberIsKept(r, path, "secret_ref");
    PlainMemberIsKept(r, path, "secret_version");
    forall p, x
      ensures !Sealed(r, path, p, x)
    {
      if Sealed(r, path, p, x) {
        var k := MemberOfSealed(r, path, p, x);
        SealedMemberMeaning(r, path, k, p, x);
        LeafSealsNothing(r.fields[k], path + [k], p, x);
      }
    }
  }

  lemma {:induction false} ItemsIdempotent(v: Value, path: Path, secretRef: string, version: string, again: Value)
    requires v.Array?
    ensures var r := Sanitize(v, path, ReferenceMarker(secretRef, version));
            Sanitize(r, path, again) == r && forall p, x :: !Sealed(r, path, p, x)
    decreases v, 0
  {
    hide IndexText;
    var marker := ReferenceMarker(secretRef, version);
    var r := Sanitize(v, path, marker);
    forall i | 0 <= i < |v.items|
      ensures Sanitize(r.items[i], path + [IndexText(i)], again) == r.items[i]
      ensures forall p, x :: !Sealed(r.items[i], path + [IndexText(i)], p, x)
    {
      ScrubbingIsIdempotent(v.items[i], path + [IndexText(i)], secretRef, version, again);
    }
    assert SanitizeItems(r.items, path, again) == r.items;
    forall p, x
      ensures !Sealed(r, path, p, x)
    {
      if Sealed(r, path, p, x) {
        var i := ItemOfSealed(r, path, p, x);
      }
    }
  }

  // ----- The operation -----

  /** Scrubs a configuration and merges what was taken out into the secrets; both must be objects. */
  method SanitizeConfigAndMergeSecrets(config: Value, secrets: Value, secretRef: string, version: string)
    returns (r: Result<(Value, Value), string>)
    ensures !config.Object? ==> r == Failure("config_json")
    ensures config.Object? && !secrets.Object? ==> r == Failure("secret_json")
    ensures config.Object? && secrets.Object? ==>
              && r.Success?
              && r.value.0 == Sanitize(config, [], ReferenceMarker(secretRef, version))
              && r.value.1 == StoreAll(secrets, Trace(config, []))
    ensures config.Object? && secrets.Object? && SlashFreeKeys(config) && VALUES !in config.fields
            && VALUES !in secrets.fields
            ==> Fill(r.value.0, [], StoredValues(r.value.1)) == config
  {
    if !config.Object? {
      return Failure("config_json");
    }
    if !secrets.Object? {
      return Failure("secret_json");
    }
    hide *;
    var scrubber := new Scrubber(secrets, ReferenceMarker(secretRef, version));
    var sanitized := scrubber.Scrub(config, []);
    TraceVisited(config, []);
    VisitedMeaning(config, [], Trace(config, []));
    if SlashFreeKeys(config) && VALUES !in config.fields && VALUES !in secrets.fields {
      ScrubbingIsInvertible(config, secrets, ReferenceMarker(secretRef, version), Trace(config, []));
    }
    r := Success((sanitized, scrubber.secrets));
  }
}
