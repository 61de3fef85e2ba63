/** The order in which secrets are taken out of a configuration, and when what the program then has stored is enough to
    rebuild it. */
module SecretOrder {
  import opened Json
  import opened Sorting
  import opened Text
  import opened SecretScrub
  import opened SecretRecovery

  // ----- Document order -----

  /** Both paths lead on from a value at depth `n`, and the first one is visited before: where they part, it takes the
      member with the smaller name or the item with the smaller index. */
  ghost predicate Precedes(v: Value, n: nat, p: Path, q: Path) {
    n < |p| && n < |q| &&
    match v
    case Object(fields) =>
      if p[n] == q[n] then p[n] in fields && Precedes(fields[p[n]], n + 1, p, q) else LexLe(p[n], q[n])
    case Array(items) =>
      var i, j := DigitsValue(p[n]), DigitsValue(q[n]);
      && i.Some? && j.Some?
      && if i == j then i.value < |items| && Precedes(items[i.value], n + 1, p, q) else i.value < j.value
    case _ => false
  }

  lemma {:induction false} PrecedesAsymmetric(v: Value, n: nat, p: Path, q: Path)
    requires Precedes(v, n, p, q)
    ensures !Precedes(v, n, q, p)
  {
    hide LexLe, DigitsValue;
    match v
    case Object(fields) =>
      if p[n] == q[n] {
        PrecedesAsymmetric(fields[p[n]], n + 1, p, q);
      } else if LexLe(q[n], p[n]) {
        LexAntisymmetric(p[n], q[n]);
      }
    case Array(items) =>
      var i := DigitsValue(p[n]);
      if i == DigitsValue(q[n]) { PrecedesAsymmetric(items[i.value], n + 1, p, q); }
  }

  ghost predicate InDocumentOrder(v: Value, n: nat, trace: seq<(Path, Value)>) {
    forall i, j | 0 <= i < j < |trace| :: Precedes(v, n, trace[i].0, trace[j].0)
  }

  lemma NothingOrdered(v: Value, n: nat)
    ensures InDocumentOrder(v, n, [])
  {
  }

  lemma OneOrdered(v: Value, n: nat, e: (Path, Value))
    ensures InDocumentOrder(v, n, [e])
  {
  }

  lemma OrderedTogether(v: Value, n: nat, a: seq<(Path, Value)>, b: seq<(Path, Value)>)
    requires InDocumentOrder(v, n, a) && InDocumentOrder(v, n, b)
    requires forall e, f | e in a && f in b :: Precedes(v, n, e.0, f.0)
    ensures InDocumentOrder(v, n, a + b)
  {
    hide Precedes;
    var all := a + b;
    forall i, j | 0 <= i < j < |all|
      ensures Precedes(v, n, all[i].0, all[j].0)
    {
      if i < |a| <= j {
        assert all[i] in a && all[j] == b[j - |a|] && all[j] in b;
      } else if |a| <= i {
        assert all[i] == b[i - |a|] && all[j] == b[j - |a|];
      }
    }
  }

  /** The stores of a scrub follow the document. */
  lemma {:induction false} TraceInOrder(v: Value, path: Path)
    ensures InDocumentOrder(v, |path|, Trace(v, path))
    decreases v, 2
  {
    hide InDocumentOrder, MembersTrace, ItemsTrace, Lists, Sorted;
    match v
    case Object(fields) =>
      var keys := InOrder(fields.Keys);
      AllListed(keys, fields.Keys);
      ListsMeaning(keys, fields.Keys);
      MembersInOrder(v, path, keys);
      MembersTraced(v, path);
    case Array(items) =>
      ItemsInOrder(v, path, |items|);
      ItemsTraced(v, path);
    case _ =>
      NothingOrdered(v, |path|);
  }

  lemma SortedFront(keys: seq<string>)
    requires keys != [] && Sorted(keys)
    ensures var n := |keys| - 1;
            Sorted(keys[..n]) && forall k | k in keys[..n] :: LexLe(k, keys[n]) && k != keys[n]
  {
    hide LexLe;
  }

  lemma {:induction false} MembersInOrder(v: Value, path: Path, keys: seq<string>)
    requires v.Object? && Sorted(keys) && forall k | k in keys :: k in v.fields
    ensures InDocumentOrder(v, |path|, MembersTrace(v, path, keys))
    decreases v, 1, |keys|
  {
    hide LexLe, Seals, Trace, InDocumentOrder, MembersTrace, MemberTrace, Sorted, Precedes, RecordsMembers, Elements,
         Once;
    if keys == [] {
      NothingOrdered(v, |path|);
      NoMemberTraced(v, path);
    } else {
      var n := |keys| - 1;
      var front, k := keys[..n], keys[n];
      SortedFront(keys);
      MembersInOrder(v, path, front);
      MemberInOrder(v, path, k);
      MembersVisited(v, path, front);
      forall e, f | e in MembersTrace(v, path, front) && f in MemberTrace(v, path, k)
        ensures Precedes(v, |path|, e.0, f.0)
      {
        InFormerMember(v, path, front, MembersTrace(v, path, front), e.0, e.1);
        InMember(v, path, k, f.0, f.1);
        PartsAtMember(v, |path|, e.0, f.0);
      }
      OrderedTogether(v, |path|, MembersTrace(v, path, front), MemberTrace(v, path, k));
      assert keys[..n + 1] == keys;
      OneMoreKey(v, path, keys, n);
    }
  }

  lemma PartsAtMember(v: Value, n: nat, p: Path, q: Path)
    requires v.Object? && n < |p| && n < |q| && p[n] != q[n] && LexLe(p[n], q[n])
    ensures Precedes(v, n, p, q)
  {
  }

  lemma InFormerMember(v: Value, path: Path, keys: seq<string>, trace: seq<(Path, Value)>, p: Path, x: Value)
    requires v.Object? && RecordsMembers(v, path, Elements(keys), trace) && (p, x) in trace
    ensures |p| > |path| && p[|path|] in keys
  {
    hide SealedMember;
    var k :| k in Elements(keys) && SealedMember(v, path, k, p, x);
    MemberOfPath(v, path, k, p, x);
  }

  lemma InMember(v: Value, path: Path, k: string, p: Path, x: Value)
    requires v.Object? && k in v.fields && (p, x) in MemberTrace(v, path, k)
    ensures |p| > |path| && p[|path|] == k
  {
    hide Seals, Sealed, Visited, Once, Records;
    if !Seals(v, path, k) {
      TraceVisited(v.fields[k], path + [k]);
      VisitedMeaning(v.fields[k], path + [k], MemberTrace(v, path, k));
      RecordedIsSealed(v.fields[k], path + [k], MemberTrace(v, path, k), p, x);
      SealedIsBelow(v.fields[k], path + [k], p, x);
      BelowMember(path, k, p);
    }
  }

  lemma RecordedIsSealed(v: Value, path: Path, trace: seq<(Path, Value)>, p: Path, x: Value)
    requires Records(v, path, trace) && (p, x) in trace
    ensures Sealed(v, path, p, x)
  {
    hide Sealed;
  }

  lemma {:induction false} MemberInOrder(v: Value, path: Path, k: string)
    requires v.Object? && k in v.fields
    ensures InDocumentOrder(v, |path|, MemberTrace(v, path, k))
    decreases v, 0
  {
    hide Seals, Trace, Precedes;
    var trace := MemberTrace(v, path, k);
    if !Seals(v, path, k) {
      TraceInOrder(v.fields[k], path + [k]);
      forall i, j | 0 <= i < j < |trace|
        ensures Precedes(v, |path|, trace[i].0, trace[j].0)
      {
        InMember(v, path, k, trace[i].0, trace[i].1);
        InMember(v, path, k, trace[j].0, trace[j].1);
        GoesOnInMember(v, |path|, trace[i].0, trace[j].0);
      }
    }
  }

  lemma GoesOnInMember(v: Value, n: nat, p: Path, q: Path)
    requires v.Object? && n < |p| && n < |q| && p[n] == q[n] && p[n] in v.fields
    ensures Precedes(v, n, p, q) <==> Precedes(v.fields[p[n]], n + 1, p, q)
  {
  }

  lemma {:induction false} ItemsInOrder(v: Value, path: Path, n: nat)
    requires v.Array? && n <= |v.items|
    ensures InDocumentOrder(v, |path|, ItemsTrace(v, path, n))
    decreases v, 1, n
  {
    hide Trace, InDocumentOrder, ItemsTrace, Precedes, RecordsItems, IndexText, Once;
    if n == 0 {
      NothingOrdered(v, |path|);
      NoItemTraced(v, path);
    } else {
      var i := n - 1;
      var more := Trace(v.items[i], path + [IndexText(i)]);
      ItemsInOrder(v, path, i);
      ItemInOrder(v, path, i);
      ItemsVisited(v, path, i);
      forall e, f | e in ItemsTrace(v, path, i) && f in more
        ensures Precedes(v, |path|, e.0, f.0)
      {
        InFormerItem(v, path, i, ItemsTrace(v, path, i), e.0, e.1);
        InItem(v, path, i, f.0, f.1);
        PartsAtItem(v, |path|, e.0, f.0);
      }
      OrderedTogether(v, |path|, ItemsTrace(v, path, i), more);
      OneMoreItem(v, path, i);
    }
  }

  lemma PartsAtItem(v: Value, n: nat, p: Path, q: Path)
    requires v.Array? && n < |p| && n < |q| && DigitsValue(p[n]).Some? && DigitsValue(q[n]).Some?
    requires DigitsValue(p[n]).value < DigitsValue(q[n]).value
    ensures Precedes(v, n, p, q)
  {
    hide DigitsValue;
  }

  lemma InFormerItem(v: Value, path: Path, n: nat, trace: seq<(Path, Value)>, p: Path, x: Value)
    requires v.Array? && n <= |v.items| && RecordsItems(v, path, n, trace) && (p, x) in trace
    ensures |p| > |path| && DigitsValue(p[|path|]).Some? && DigitsValue(p[|path|]).value < n
  {
    hide Sealed, IndexText, DigitsValue;
    var i: nat :| i < n && Sealed(v.items[i], path + [IndexText(i)], p, x);
    SealedIsBelow(v.items[i], path + [IndexText(i)], p, x);
    BelowMember(path, IndexText(i), p);
    assert DigitsValue(IndexText(i)).Some?;
  }

  lemma InItem(v: Value, path: Path, i: nat, p: Path, x: Value)
    requires v.Array? && i < |v.items| && (p, x) in Trace(v.items[i], path + [IndexText(i)])
    ensures |p| > |path| && p[|path|] == IndexText(i) && DigitsValue(p[|path|]).Some?
    ensures DigitsValue(p[|path|]).value == i
  {
    hide Sealed, IndexText, DigitsValue, Trace, Visited, Once, Records;
    var item, next := v.items[i], path + [IndexText(i)];
    TraceVisited(item, next);
    VisitedMeaning(item, next, Trace(item, next));
    RecordedIsSealed(item, next, Trace(item, next), p, x);
    SealedIsBelow(item, next, p, x);
    BelowMember(path, IndexText(i), p);
    assert DigitsValue(IndexText(i)).Some?;
  }

  lemma {:induction false} ItemInOrder(v: Value, path: Path, i: nat)
    requires v.Array? && i < |v.items|
    ensures InDocumentOrder(v, |path|, Trace(v.items[i], path + [IndexText(i)]))
    decreases v, 0
  {
    hide Trace, Precedes, IndexText, DigitsValue;
    var trace := Trace(v.items[i], path + [IndexText(i)]);
    TraceInOrder(v.items[i], path + [IndexText(i)]);
    forall a, b | 0 <= a < b < |trace|
      ensures Precedes(v, |path|, trace[a].0, trace[b].0)
    {
      InItem(v, path, i, trace[a].0, trace[a].1);
      InItem(v, path, i, trace[b].0, trace[b].1);
      GoesOnInItem(v, |path|, i, trace[a].0, trace[b].0);
    }
  }

  lemma GoesOnInItem(v: Value, n: nat, i: nat, p: Path, q: Path)
    requires v.Array? && n < |p| && n < |q| && i < |v.items|
    requires DigitsValue(p[n]).Some? && DigitsValue(p[n]).value == i && p[n] == q[n]
    ensures Precedes(v, n, p, q) <==> Precedes(v.items[i], n + 1, p, q)
  {
    hide DigitsValue;
  }

  // ----- What is stored last -----

  /** Later stores under a pointer replace earlier ones. */
  function Last(trace: seq<(Path, Value)>): map<string, Value> {
    if trace == [] then map[]
    else
      var e := trace[|trace| - 1];
      Last(trace[..|trace| - 1])[Pointer(e.0) := e.1]
  }

  /** Secrets that may hold values stored before. */
  predicate Receives(secrets: Value) {
    secrets.Object? && (VALUES in secrets.fields ==> secrets.fields[VALUES].Object?)
  }

  lemma {:induction false} KeptMeaning(secrets: Value, trace: seq<(Path, Value)>)
    requires Receives(secrets) && forall e | e in trace :: e.0 != [VALUES]
    ensures Receives(StoreAll(secrets, trace))
    ensures Kept(secrets, trace) == StoredValues(secrets) + Last(trace)
  {
    hide Pointer, StoreSecret, StoredValues;
    if trace != [] {
      var front, e := trace[..|trace| - 1], trace[|trace| - 1];
      assert forall f | f in front :: f in trace;
      KeptMeaning(secrets, front);
      assert e in trace;
      StoredOnce(StoreAll(secrets, front), e.0, e.1);
    } else {
      assert Last(trace) == map[];
    }
  }

  /** Of all values taken out under this pointer, `x` comes last in the document. */
  ghost predicate LastTaken(root: Value, pointer: string, x: Value) {
    exists p :: LastTakenAs(root, pointer, p, x)
  }

  ghost predicate LastTakenAs(root: Value, pointer: string, p: Path, x: Value) {
    && TakenAs(root, pointer, p, x)
    && forall q, y | TakenAs(root, pointer, q, y) :: q == p || Precedes(root, 0, q, p)
  }

  lemma LastTakenUnique(root: Value, pointer: string, x: Value, y: Value)
    requires LastTaken(root, pointer, x) && LastTaken(root, pointer, y)
    ensures x == y
  {
    hide Sealed, Pointer, Precedes;
    var p :| LastTakenAs(root, pointer, p, x);
    var q :| LastTakenAs(root, pointer, q, y);
    if p == q {
      SealedUnique(root, [], p, x, y);
    } else {
      assert TakenAs(root, pointer, p, x) && TakenAs(root, pointer, q, y);
      PrecedesAsymmetric(root, 0, p, q);
    }
  }

  /** What `Last` has under a pointer is the value of an entry behind which no entry has this pointer. */
  lemma {:induction false} LastEntry(trace: seq<(Path, Value)>, pointer: string) returns (i: nat)
    requires exists e :: e in trace && Pointer(e.0) == pointer
    ensures i < |trace| && Pointer(trace[i].0) == pointer
    ensures forall j | i < j < |trace| :: Pointer(trace[j].0) != pointer
    ensures pointer in Last(trace) && Last(trace)[pointer] == trace[i].1
  {
    hide Pointer;
    i := |trace| - 1;
    if Pointer(trace[i].0) != pointer {
      var front := trace[..i];
      assert forall e :: e in trace <==> e in front || e == trace[i];
      i := LastEntry(front, pointer);
    }
  }

  lemma {:induction false} LastKeys(trace: seq<(Path, Value)>)
    ensures forall q :: q in Last(trace) <==> exists e :: e in trace && Pointer(e.0) == q
  {
    hide Pointer;
    if trace != [] {
      var front, e := trace[..|trace| - 1], trace[|trace| - 1];
      assert forall f :: f in trace <==> f in front || f == e;
      LastKeys(front);
    }
  }

  lemma LastIsLastTaken(root: Value, pointer: string)
    ensures pointer in Last(Trace(root, [])) <==> TakenOut(root, pointer)
    ensures pointer in Last(Trace(root, [])) ==> LastTaken(root, pointer, Last(Trace(root, []))[pointer])
  {
    hide Trace, Sealed, Pointer, Last, Precedes, Once, Visited;
    var trace := Trace(root, []);
    TraceVisited(root, []);
    VisitedMeaning(root, [], trace);
    LastKeys(trace);
    if TakenOut(root, pointer) {
      var p, x :| TakenAs(root, pointer, p, x);
      assert (p, x) in trace;
    }
    if pointer in Last(trace) {
      var i := LastEntry(trace, pointer);
      var e := trace[i];
      assert (e.0, e.1) in trace;
      assert TakenAs(root, pointer, e.0, e.1);
      TraceInOrder(root, []);
      forall q, y | TakenAs(root, pointer, q, y)
        ensures q == e.0 || Precedes(root, 0, q, e.0)
      {
        assert (q, y) in trace;
        var j :| 0 <= j < |trace| && trace[j] == (q, y);
      }
      assert LastTakenAs(root, pointer, e.0, e.1);
    }
  }

  // ----- The condition -----

  /** Wherever a member has a pointer that something was taken out under, the last value taken out under it is the value
      of this member; under the other pointers of values stored before, the value is that of the member, too. Members
      inside one that is put back do not matter. */
  ghost predicate Rebuildable(v: Value, path: Path, root: Value, before: map<string, Value>)
    decreases v, 0
  {
    match v
    case Object(fields) => forall k | k in fields :: RebuildableMember(fields[k], path + [k], root, before)
    case Array(items) => forall i | 0 <= i < |items| :: Rebuildable(items[i], path + [IndexText(i)], root, before)
    case _ => true
  }

  ghost predicate RebuildableMember(v: Value, path: Path, root: Value, before: map<string, Value>)
    decreases v, 1
  {
    if TakenOut(root, Pointer(path)) then LastTaken(root, Pointer(path), v)
    else if Pointer(path) in before then before[Pointer(path)] == v
    else Rebuildable(v, path, root, before)
  }

  lemma {:induction false} RebuildableIffAgrees(v: Value, path: Path, root: Value, before: map<string, Value>)
    ensures Rebuildable(v, path, root, before) <==> Agrees(v, path, before + Last(Trace(root, [])))
    decreases v, 0
  {
    hide TakenOut, LastTaken, Pointer, IndexText, Last, Trace;
    match v
    case Object(fields) =>
      forall k | k in fields
        ensures RebuildableMember(fields[k], path + [k], root, before) <==>
                AgreesMember(fields[k], path + [k], before + Last(Trace(root, [])))
      {
        MemberRebuildableIffAgrees(fields[k], path + [k], root, before);
      }
    case Array(items) =>
      forall i | 0 <= i < |items|
        ensures Rebuildable(items[i], path + [IndexText(i)], root, before) <==>
                Agrees(items[i], path + [IndexText(i)], before + Last(Trace(root, [])))
      {
        RebuildableIffAgrees(items[i], path + [IndexText(i)], root, before);
      }
    case _ =>
  }

  lemma {:induction false} MemberRebuildableIffAgrees(v: Value, path: Path, root: Value, before: map<string, Value>)
    ensures RebuildableMember(v, path, root, before) <==> AgreesMember(v, path, before + Last(Trace(root, [])))
    decreases v, 1
  {
    hide TakenOut, LastTaken, Pointer, Last, Trace;
    var q := Pointer(path);
    LastIsLastTaken(root, q);
    RebuildableIffAgrees(v, path, root, before);
    if TakenOut(root, q) && LastTaken(root, q, v) { LastTakenUnique(root, q, v, Last(Trace(root, []))[q]); }
  }

  /** Main result: what a scrub stores, on top of what the secrets held before, rebuilds the configuration exactly when
      the configuration is rebuildable. */
  lemma RebuiltIff(config: Value, secrets: Value, marker: Value)
    requires config.Object? && VALUES !in config.fields && Receives(secrets)
    ensures Fill(Sanitize(config, [], marker), [], StoredValues(StoreAll(secrets, Trace(config, [])))) == config <==>
            Rebuildable(config, [], config, StoredValues(secrets))
  {
    hide Sealed, Fill, Sanitize, Trace, StoreAll, StoredValues, Pointer, Rebuildable, Agrees, Last, Receives, Once;
    var trace := Trace(config, []);
    TraceVisited(config, []);
    forall e | e in trace
      ensures e.0 != [VALUES]
    {
      assert (e.0, e.1) in trace;
      TopLevelMember(config, e.0, e.1);
    }
    KeptMeaning(secrets, trace);
    var stored := StoredValues(secrets) + Last(trace);
    LastKeys(trace);
    forall p, x | Sealed(config, [], p, x)
      ensures Pointer(p) in stored
    {
      assert (p, x) in trace;
    }
    FillIff(config, [], marker, stored);
    RebuildableIffAgrees(config, [], config, StoredValues(secrets));
  }

  /** What can be rebuilt whatever the order can be rebuilt. */
  lemma {:induction false} RecoverableIsRebuildable(v: Value, path: Path, root: Value)
    requires Recoverable(v, path, root)
    ensures Rebuildable(v, path, root, map[])
    decreases v
  {
    hide TakenOut, TakenAs, LastTaken, Pointer, IndexText;
    match v
    case Object(fields) =>
      forall k | k in fields
        ensures RebuildableMember(fields[k], path + [k], root, map[])
      {
        assert RecoverableMember(fields[k], path + [k], root);
        if TakenOut(root, Pointer(path + [k])) {
          SomeLastTaken(root, Pointer(path + [k]));
        } else {
          RecoverableIsRebuildable(fields[k], path + [k], root);
        }
      }
    case Array(items) =>
      forall i | 0 <= i < |items|
        ensures Rebuildable(items[i], path + [IndexText(i)], root, map[])
      {
        RecoverableIsRebuildable(items[i], path + [IndexText(i)], root);
      }
    case _ =>
  }

  lemma SomeLastTaken(root: Value, pointer: string)
    requires TakenOut(root, pointer)
    ensures exists p, x :: TakenAs(root, pointer, p, x) && LastTaken(root, pointer, x)
  {
    hide TakenOut, TakenAs, Trace, Last, Precedes;
    LastIsLastTaken(root, pointer);
    var x := Last(Trace(root, []))[pointer];
    var p :| LastTakenAs(root, pointer, p, x);
    assert TakenAs(root, pointer, p, x);
  }

  // ----- Key order helps -----

  const INNER := Object(map["password" := String("b")])

  /** Three values are taken out of this configuration; the last two of them in the document share their pointers with
      the member `x` and with a value taken out inside it. */
  const SHADOWED := Object(map["token_ref" := Object(map["x" := INNER]), "token_ref/x" := INNER,
                               "token_ref/x/password" := String("a")])

  /** The program can rebuild a configuration that another order of its members would lose. */
  lemma KeyOrderRebuildsMore(secrets: Value, marker: Value)
    requires Clear(SHADOWED, secrets)
    ensures Fill(Sanitize(SHADOWED, [], marker), [], StoredValues(StoreAll(secrets, Trace(SHADOWED, [])))) == SHADOWED
    ensures !AlwaysRecovered(SHADOWED, secrets, marker)
  {
    hide Sealed, Fill, Sanitize, Trace, StoreAll, Pointer, Rebuildable, Recoverable, AlwaysRecovered;
    ShadowedIsRebuildable();
    ShadowedIsNotRecoverable();
    RebuiltIff(SHADOWED, secrets, marker);
    RecoveredIffRecoverable(SHADOWED, secrets, marker);
  }

  lemma LexPrefix(a: string, b: string)
    ensures LexLe(a, a + b)
  {
    if a != "" {
      assert (a + b)[1..] == a[1..] + b;
    }
  }

  lemma TokenIsSecret(suffix: string)
    requires |suffix| == 6 || |suffix| == 15
    requires forall i | 0 <= i < |suffix| :: suffix[i] == '_' || suffix[i] == '/' || 'a' <= suffix[i] <= 'z'
    requires suffix[|suffix| - 1] == 'x' || suffix[|suffix| - 1] == 'd'
    ensures IsSecretLikeKey("token" + suffix)
  {
    hide Find, FindFrom, Normalize;
    var s := "token" + suffix;
    NormalizeFixed(s);
    assert OccursAt(s, "token", 0);
    assert Find(s, "token").Some?;
    assert s[|s| - 1] == suffix[|suffix| - 1] && "_ref"[3] == 'f';
    assert |s| != |"secret_ref"| && |s| != |"secret_version"|;
  }

  lemma ReferenceIsNoSecret()
    ensures !IsSecretLikeKey("token_ref")
  {
    hide Find, Normalize;
    NormalizeFixed("token_ref");
    assert "token_ref"[5..] == "_ref";
  }

  lemma ShadowedSeals()
    ensures !Seals(SHADOWED, [], "token_ref") && Seals(SHADOWED, [], "token_ref/x")
    ensures Seals(SHADOWED, [], "token_ref/x/password")
    ensures !Seals(SHADOWED.fields["token_ref"], ["token_ref"], "x") && Seals(INNER, ["token_ref", "x"], "password")
  {
    hide IsSecretLikeKey, IsReferenceMarker, PathMatchesHeadersValue, PathMatchesCredentialsValue;
    ReferenceIsNoSecret();
    TokenIsSecret("_ref/x");
    TokenIsSecret("_ref/x/password");
    assert "token" + "_ref/x" == "token_ref/x" && "token" + "_ref/x/password" == "token_ref/x/password";
    PasswordIsSecret("");
    assert "" + "password" == "password";
    ShortKey("x");
    assert |"token_ref"| == 9 && |"value"| == 5;
    assert !IsReferenceMarker(INNER) && !IsReferenceMarker(String("a")) && !IsReferenceMarker(String("b")) by {
      NoReference();
    }
  }

  lemma NoReference()
    ensures !IsReferenceMarker(INNER) && !IsReferenceMarker(String("a")) && !IsReferenceMarker(String("b"))
  {
    assert |"password"| != |"secret_ref"|;
  }

  /** What is taken out of it, in document order. */
  lemma ShadowedSealed(p: Path, x: Value)
    ensures Sealed(SHADOWED, [], p, x) <==>
            || (p == ["token_ref", "x", "password"] && x == String("b"))
            || (p == ["token_ref/x"] && x == INNER)
            || (p == ["token_ref/x/password"] && x == String("a"))
  {
    hide Seals, Sealed, SealedMember;
    var middle := SHADOWED.fields["token_ref"];
    ShadowedSeals();
    assert [] + ["token_ref"] == ["token_ref"] && [] + ["token_ref/x"] == ["token_ref/x"];
    assert [] + ["token_ref/x/password"] == ["token_ref/x/password"] && ["token_ref"] + ["x"] == ["token_ref", "x"];
    assert ["token_ref", "x"] + ["password"] == ["token_ref", "x", "password"];
    SealedByMembers(SHADOWED, [], p, x);
    SealedByMembers(middle, ["token_ref"], p, x);
    SealedByMembers(INNER, ["token_ref", "x"], p, x);
    SealedMemberMeaning(SHADOWED, [], "token_ref", p, x);
    SealedMemberMeaning(SHADOWED, [], "token_ref/x", p, x);
    SealedMemberMeaning(SHADOWED, [], "token_ref/x/password", p, x);
    SealedMemberMeaning(middle, ["token_ref"], "x", p, x);
    SealedMemberMeaning(INNER, ["token_ref", "x"], "password", p, x);
    assert SHADOWED.fields.Keys == {"token_ref", "token_ref/x", "token_ref/x/password"};
    assert middle.fields.Keys == {"x"} && INNER.fields.Keys == {"password"};
  }

  lemma SealedByMembers(v: Value, path: Path, p: Path, x: Value)
    requires v.Object?
    ensures Sealed(v, path, p, x) <==> exists k :: k in v.fields.Keys && SealedMember(v, path, k, p, x)
  {
    hide Seals, Sealed, SealedMember;
    if Sealed(v, path, p, x) {
      var k := MemberOfSealed(v, path, p, x);
    }
    if k :| k in v.fields.Keys && SealedMember(v, path, k, p, x) { SealedMemberIsSealed(v, path, k, p, x); }
  }

  lemma ShadowedPointers()
    ensures Pointer(["token_ref", "x", "password"]) == Pointer(["token_ref/x/password"]) == "/token_ref/x/password"
    ensures Pointer(["token_ref/x"]) == Pointer(["token_ref", "x"]) == "/token_ref/x"
    ensures Pointer(["token_ref"]) == "/token_ref"
  {
    hide JoinSlash, Pointer;
    PointerToOne("token_ref");
    PointerToOne("token_ref/x");
    PointerToOne("token_ref/x/password");
    PointerToMore("token_ref", "x");
    PasswordPointer();
  }

  lemma PointerToOne(name: string)
    ensures Pointer([name]) == "/" + name
  {
  }

  lemma PointerToMore(name: string, more: string)
    ensures Pointer([name, more]) == "/" + name + "/" + more
  {
    hide JoinSlash;
    JoinOne(more);
    JoinMore(name, [more]);
    assert [name] + [more] == [name, more];
  }

  lemma PasswordPointer()
    ensures Pointer(["token_ref", "x", "password"]) == "/token_ref/x/password"
  {
    hide JoinSlash;
    JoinOne("password");
    JoinMore("x", ["password"]);
    JoinMore("token_ref", ["x", "password"]);
    assert ["token_ref"] + ["x", "password"] == ["token_ref", "x", "password"];
    assert ["x"] + ["password"] == ["x", "password"];
  }

  lemma JoinOne(name: string)
    ensures JoinSlash([name]) == name
  {
  }

  lemma JoinMore(name: string, path: Path)
    requires path != []
    ensures JoinSlash([name] + path) == name + "/" + JoinSlash(path)
  {
    assert ([name] + path)[1..] == path;
  }

  /** What was taken out under one of its pointers. */
  lemma ShadowedTaken(pointer: string, p: Path, x: Value)
    ensures TakenAs(SHADOWED, pointer, p, x) <==>
            || (pointer == "/token_ref/x" && p == ["token_ref/x"] && x == INNER)
            || (pointer == "/token_ref/x/password" && p == ["token_ref", "x", "password"] && x == String("b"))
            || (pointer == "/token_ref/x/password" && p == ["token_ref/x/password"] && x == String("a"))
  {
    hide Sealed, Pointer;
    ShadowedSealed(p, x);
    ShadowedPointers();
  }

  lemma ShadowedLast()
    ensures LastTaken(SHADOWED, "/token_ref/x", INNER)
    ensures LastTaken(SHADOWED, "/token_ref/x/password", String("a"))
    ensures !TakenOut(SHADOWED, "/token_ref")
  {
    hide TakenAs, Precedes, LexLe;
    assert |"/token_ref"| == 10 && |"/token_ref/x"| == 12 && |"/token_ref/x/password"| == 21;
    forall p, x
      ensures !TakenAs(SHADOWED, "/token_ref", p, x)
    {
      ShadowedTaken("/token_ref", p, x);
    }
    OnlyOneIsLast("/token_ref/x", ["token_ref/x"], INNER);
    LastPassword();
  }

  lemma OnlyOneIsLast(pointer: string, path: Path, v: Value)
    requires pointer == "/token_ref/x" && path == ["token_ref/x"] && v == INNER
    ensures LastTaken(SHADOWED, pointer, v)
  {
    hide TakenAs, Precedes;
    assert |"/token_ref/x"| == 12 && |"/token_ref/x/password"| == 21;
    ShadowedTaken(pointer, path, v);
    forall q, y | TakenAs(SHADOWED, pointer, q, y)
      ensures q == path
    {
      ShadowedTaken(pointer, q, y);
    }
    assert LastTakenAs(SHADOWED, pointer, path, v);
  }

  lemma LastPassword()
    ensures LastTaken(SHADOWED, "/token_ref/x/password", String("a"))
  {
    hide TakenAs, Precedes, LexLe;
    var pointer, path: Path, other: Path :=
      "/token_ref/x/password", ["token_ref/x/password"], ["token_ref", "x", "password"];
    assert |"/token_ref/x"| == 12 && |pointer| == 21;
    ShadowedTaken(pointer, path, String("a"));
    LexPrefix("token_ref", "/x/password");
    assert "token_ref" + "/x/password" == path[0];
    PartsAtMember(SHADOWED, 0, other, path);
    forall q, y | TakenAs(SHADOWED, pointer, q, y)
      ensures q == path || Precedes(SHADOWED, 0, q, path)
    {
      ShadowedTaken(pointer, q, y);
    }
    assert LastTakenAs(SHADOWED, pointer, path, String("a"));
  }

  lemma ShadowedIsRebuildable()
    ensures Rebuildable(SHADOWED, [], SHADOWED, map[])
  {
    hide TakenOut, LastTaken, Pointer, Rebuildable, RebuildableMember;
    var middle := SHADOWED.fields["token_ref"];
    ShadowedLast();
    ShadowedPointers();
    assert [] + ["token_ref"] == ["token_ref"] && [] + ["token_ref/x"] == ["token_ref/x"];
    assert [] + ["token_ref/x/password"] == ["token_ref/x/password"] && ["token_ref"] + ["x"] == ["token_ref", "x"];
    LastMemberIsRebuildable(INNER, ["token_ref", "x"], SHADOWED);
    LastMemberIsRebuildable(INNER, ["token_ref/x"], SHADOWED);
    LastMemberIsRebuildable(String("a"), ["token_ref/x/password"], SHADOWED);
    RebuildableByMembers(middle, ["token_ref"], SHADOWED);
    OtherMemberIsRebuildable(middle, ["token_ref"], SHADOWED);
    RebuildableByMembers(SHADOWED, [], SHADOWED);
  }

  lemma LastMemberIsRebuildable(v: Value, path: Path, root: Value)
    requires LastTaken(root, Pointer(path), v)
    ensures RebuildableMember(v, path, root, map[])
  {
    hide TakenAs, Pointer, Precedes;
    var p :| LastTakenAs(root, Pointer(path), p, v);
    assert TakenAs(root, Pointer(path), p, v);
  }

  lemma OtherMemberIsRebuildable(v: Value, path: Path, root: Value)
    requires !TakenOut(root, Pointer(path)) && Rebuildable(v, path, root, map[])
    ensures RebuildableMember(v, path, root, map[])
  {
    hide TakenOut, Pointer, Rebuildable;
  }

  lemma RebuildableByMembers(v: Value, path: Path, root: Value)
    requires v.Object? && forall k | k in v.fields :: RebuildableMember(v.fields[k], path + [k], root, map[])
    ensures Rebuildable(v, path, root, map[])
  {
    hide RebuildableMember;
  }

  lemma ShadowedIsNotRecoverable()
    ensures !Recoverable(SHADOWED, [], SHADOWED)
  {
    hide TakenAs, Pointer;
    var path: Path := ["token_ref/x/password"];
    ShadowedPointers();
    ShadowedTaken("/token_ref/x/password", ["token_ref", "x", "password"], String("b"));
    assert TakenOut(SHADOWED, Pointer(path));
    assert [] + ["token_ref/x/password"] == path;
    assert !RecoverableMember(SHADOWED.fields["token_ref/x/password"], path, SHADOWED);
  }
}
