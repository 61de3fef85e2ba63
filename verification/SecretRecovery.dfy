/** When a scrubbed configuration can be rebuilt from the secrets in whatever order its members are visited, for every
    configuration, also with slashes in its member names. `SecretOrder` has the order of the program. */
module SecretRecovery {
  import opened Json
  import opened SecretScrub

  /** Some value was taken out under this pointer. */
  ghost predicate TakenOut(root: Value, pointer: string) {
    exists p, x :: TakenAs(root, pointer, p, x)
  }

  ghost predicate TakenAs(root: Value, pointer: string, p: Path, x: Value) {
    Sealed(root, [], p, x) && Pointer(p) == pointer
  }

  /** Wherever a member has a pointer that something was taken out under, everything taken out under it is the value of
      this member. */
  ghost predicate Recoverable(v: Value, path: Path, root: Value)
    decreases v, 0
  {
    match v
    case Object(fields) => forall k | k in fields :: RecoverableMember(fields[k], path + [k], root)
    case Array(items) => forall i | 0 <= i < |items| :: Recoverable(items[i], path + [IndexText(i)], root)
    case _ => true
  }

  ghost predicate RecoverableMember(v: Value, path: Path, root: Value)
    decreases v, 1
  {
    if TakenOut(root, Pointer(path)) then forall p, x | TakenAs(root, Pointer(path), p, x) :: x == v
    else Recoverable(v, path, root)
  }

  /** Whatever is put back is what was there. */
  ghost predicate Agrees(v: Value, path: Path, stored: map<string, Value>)
    decreases v, 0
  {
    match v
    case Object(fields) => forall k | k in fields :: AgreesMember(fields[k], path + [k], stored)
    case Array(items) => forall i | 0 <= i < |items| :: Agrees(items[i], path + [IndexText(i)], stored)
    case _ => true
  }

  ghost predicate AgreesMember(v: Value, path: Path, stored: map<string, Value>)
    decreases v, 1
  {
    if Pointer(path) in stored then stored[Pointer(path)] == v else Agrees(v, path, stored)
  }

  // ----- One store -----

  ghost predicate AllStored(v: Value, path: Path, stored: map<string, Value>) {
    forall p, x | Sealed(v, path, p, x) :: Pointer(p) in stored
  }

  lemma StoredInMember(v: Value, path: Path, k: string, stored: map<string, Value>)
    requires v.Object? && k in v.fields && AllStored(v, path, stored)
    ensures if Seals(v, path, k) then Pointer(path + [k]) in stored else AllStored(v.fields[k], path + [k], stored)
  {
    hide Seals, Pointer, Sealed, SealedMember;
    if Seals(v, path, k) {
      SealedMemberMeaning(v, path, k, path + [k], v.fields[k]);
      SealedMemberIsSealed(v, path, k, path + [k], v.fields[k]);
    } else {
      forall p, x | Sealed(v.fields[k], path + [k], p, x)
        ensures Pointer(p) in stored
      {
        SealedMemberMeaning(v, path, k, p, x);
        SealedMemberIsSealed(v, path, k, p, x);
      }
    }
  }

  /** Putting back rebuilds the value exactly when each member that is put back gets its own value. */
  lemma {:induction false} FillIff(v: Value, path: Path, marker: Value, stored: map<string, Value>)
    requires AllStored(v, path, stored)
    ensures Fill(Sanitize(v, path, marker), path, stored) == v <==> Agrees(v, path, stored)
    decreases v, 1
  {
    match v
    case Object(fields) => FillObjectIff(v, path, marker, stored);
    case Array(items) => FillArrayIff(v, path, marker, stored);
    case _ =>
  }

  lemma {:induction false} FillObjectIff(v: Value, path: Path, marker: Value, stored: map<string, Value>)
    requires v.Object? && AllStored(v, path, stored)
    ensures Fill(Sanitize(v, path, marker), path, stored) == v <==> Agrees(v, path, stored)
    decreases v, 0
  {
    hide Seals, AllStored, Pointer, Sanitize, Fill;
    var sanitized := Sanitize(v, path, marker);
    ObjectSanitized(v, path, marker);
    ObjectFilled(sanitized, path, stored);
    var filled := Fill(sanitized, path, stored);
    forall k | k in v.fields
      ensures filled.fields[k] == v.fields[k] <==> AgreesMember(v.fields[k], path + [k], stored)
    {
      StoredInMember(v, path, k, stored);
      if !Seals(v, path, k) { FillIff(v.fields[k], path + [k], marker, stored); }
    }
    SameObject(filled, v);
  }

  lemma SameObject(a: Value, b: Value)
    requires a.Object? && b.Object? && a.fields.Keys == b.fields.Keys
    ensures a == b <==> forall k | k in b.fields :: a.fields[k] == b.fields[k]
  {
    if forall k | k in b.fields :: a.fields[k] == b.fields[k] {
      assert a.fields == b.fields;
    }
  }

  lemma {:induction false} FillArrayIff(v: Value, path: Path, marker: Value, stored: map<string, Value>)
    requires v.Array? && AllStored(v, path, stored)
    ensures Fill(Sanitize(v, path, marker), path, stored) == v <==> Agrees(v, path, stored)
    decreases v, 0
  {
    hide Fill, Sanitize, Pointer, IndexText, SanitizeItems, FillItems, AllStored;
    var filled := FillItems(SanitizeItems(v.items, path, marker), path, stored);
    forall i | 0 <= i < |v.items|
      ensures filled[i] == v.items[i] <==> Agrees(v.items[i], path + [IndexText(i)], stored)
    {
      StoredInItem(v, path, i, stored);
      FillIff(v.items[i], path + [IndexText(i)], marker, stored);
    }
    ItemsFilled(v, path, marker, stored);
    assert Array(filled) == v <==> filled == v.items;
    assert filled == v.items <==> forall i | 0 <= i < |v.items| :: filled[i] == v.items[i];
  }

  lemma StoredInItem(v: Value, path: Path, i: nat, stored: map<string, Value>)
    requires v.Array? && i < |v.items| && AllStored(v, path, stored)
    ensures AllStored(v.items[i], path + [IndexText(i)], stored)
  {
    hide Pointer, IndexText;
    forall p, x | Sealed(v.items[i], path + [IndexText(i)], p, x)
      ensures Pointer(p) in stored
    {
      assert Sealed(v, path, p, x);
    }
  }

  // ----- Any store that scrubbing in some order can leave -----

  /** A configuration and secrets in which the name of the store is not in use. */
  predicate Clear(config: Value, secrets: Value) {
    config.Object? && VALUES !in config.fields && secrets.Object? && VALUES !in secrets.fields
  }

  function Kept(secrets: Value, trace: seq<(Path, Value)>): map<string, Value> {
    StoredValues(StoreAll(secrets, trace))
  }

  /** The store holds exactly the pointers, each with a value that was taken out under it. */
  ghost predicate Keeps(root: Value, stored: map<string, Value>) {
    && (forall q :: q in stored <==> TakenOut(root, q))
    && (forall q | q in stored :: exists p :: TakenAs(root, q, p, stored[q]))
  }

  lemma NotTheStore(config: Value, secrets: Value, trace: seq<(Path, Value)>)
    requires Clear(config, secrets) && Visited(config, [], trace)
    ensures forall e | e in trace :: e.0 != [VALUES] && Sealed(config, [], e.0, e.1)
  {
    hide Sealed;
    forall e | e in trace
      ensures e.0 != [VALUES] && Sealed(config, [], e.0, e.1)
    {
      assert (e.0, e.1) in trace;
      TopLevelMember(config, e.0, e.1);
    }
  }

  /** Every kept value is the value of some entry of the trace. */
  lemma {:induction false} KeptComesFromTrace(secrets: Value, trace: seq<(Path, Value)>)
    requires secrets.Object? && VALUES !in secrets.fields && forall e | e in trace :: e.0 != [VALUES]
    ensures forall q | q in Kept(secrets, trace) ::
              exists e :: e in trace && Pointer(e.0) == q && e.1 == Kept(secrets, trace)[q]
  {
    hide Pointer, StoreSecret, StoredValues;
    if trace != [] {
      var front, last := trace[..|trace| - 1], trace[|trace| - 1];
      assert forall e :: e in trace <==> e in front || e == last;
      KeptComesFromTrace(secrets, front);
      StoredPointers(secrets, front);
      StoredOnce(StoreAll(secrets, front), last.0, last.1);
      assert Kept(secrets, trace) == Kept(secrets, front)[Pointer(last.0) := last.1];
      forall q | q in Kept(secrets, trace)
        ensures exists e :: e in trace && Pointer(e.0) == q && e.1 == Kept(secrets, trace)[q]
      {
        if q != Pointer(last.0) {
          var e :| e in front && Pointer(e.0) == q && e.1 == Kept(secrets, front)[q];
          assert e in trace;
        } else {
          assert last in trace;
        }
      }
    } else {
      NothingKept(secrets);
    }
  }

  lemma NothingKept(secrets: Value)
    requires secrets.Object? && VALUES !in secrets.fields
    ensures Kept(secrets, []) == map[]
  {
  }

  lemma TracesKeep(config: Value, secrets: Value, trace: seq<(Path, Value)>)
    requires Clear(config, secrets) && Visited(config, [], trace)
    ensures Keeps(config, Kept(secrets, trace)) && AllStored(config, [], Kept(secrets, trace))
  {
    NotTheStore(config, secrets, trace);
    hide Sealed, Pointer, StoreAll, StoredValues, TakenAs, Once, Visited, Kept, TakenOut;
    KeptPointers(config, secrets, trace);
    KeptValues(config, secrets, trace);
    forall p, x | Sealed(config, [], p, x)
      ensures Pointer(p) in Kept(secrets, trace)
    {
      EntryIsTaken(config, p, x);
      assert TakenOut(config, Pointer(p));
    }
  }

  lemma KeptPointers(config: Value, secrets: Value, trace: seq<(Path, Value)>)
    requires Clear(config, secrets) && Visited(config, [], trace)
    requires forall e | e in trace :: e.0 != [VALUES] && Sealed(config, [], e.0, e.1)
    ensures forall q :: q in Kept(secrets, trace) <==> TakenOut(config, q)
  {
    hide Sealed, Pointer, StoreAll, StoredValues, TakenAs, Visited;
    StoredPointers(secrets, trace);
    forall q
      ensures q in Kept(secrets, trace) <==> TakenOut(config, q)
    {
      if q in Kept(secrets, trace) {
        var e :| e in trace && Pointer(e.0) == q;
        EntryIsTaken(config, e.0, e.1);
      }
      if p, x :| TakenAs(config, q, p, x) {
        TakenIsEntry(config, trace, q, p, x);
        assert (p, x).0 == p;
      }
    }
  }

  lemma KeptValues(config: Value, secrets: Value, trace: seq<(Path, Value)>)
    requires Clear(config, secrets)
    requires forall e | e in trace :: e.0 != [VALUES] && Sealed(config, [], e.0, e.1)
    ensures forall q | q in Kept(secrets, trace) :: exists p :: TakenAs(config, q, p, Kept(secrets, trace)[q])
  {
    hide Sealed, Pointer, TakenAs, Kept;
    KeptComesFromTrace(secrets, trace);
    forall q | q in Kept(secrets, trace)
      ensures exists p :: TakenAs(config, q, p, Kept(secrets, trace)[q])
    {
      var e :| e in trace && Pointer(e.0) == q && e.1 == Kept(secrets, trace)[q];
      EntryIsTaken(config, e.0, e.1);
    }
  }

  lemma EntryIsTaken(config: Value, p: Path, x: Value)
    requires Sealed(config, [], p, x)
    ensures TakenAs(config, Pointer(p), p, x)
  {
    hide Sealed, Pointer;
  }

  lemma TakenIsEntry(config: Value, trace: seq<(Path, Value)>, pointer: string, p: Path, x: Value)
    requires Visited(config, [], trace) && TakenAs(config, pointer, p, x)
    ensures (p, x) in trace && Pointer(p) == pointer
  {
    hide Sealed, Pointer, Once;
  }

  /** A value taken out can be the one that is kept: it may be stored last. */
  lemma StoredLast(config: Value, secrets: Value, trace: seq<(Path, Value)>, p: Path, x: Value)
    returns (other: seq<(Path, Value)>)
    requires Clear(config, secrets) && Visited(config, [], trace) && Sealed(config, [], p, x)
    ensures Visited(config, [], other)
    ensures Pointer(p) in Kept(secrets, other) && Kept(secrets, other)[Pointer(p)] == x
  {
    hide Sealed, Pointer, StoreSecret, StoredValues, Once;
    assert (p, x) in trace;
    var i :| 0 <= i < |trace| && trace[i] == (p, x);
    MovedLast(trace, i);
    var front := trace[..i] + trace[i + 1..];
    other := front + [(p, x)];
    assert forall q, y :: (q, y) in other <==> (q, y) in trace;
    NotTheStore(config, secrets, other);
    StoredPointers(secrets, front);
    assert other[..|front|] == front;
    StoredOnce(StoreAll(secrets, front), p, x);
  }

  lemma MovedLast(trace: seq<(Path, Value)>, i: nat)
    requires Once(trace) && i < |trace|
    ensures Once(trace[..i] + trace[i + 1..] + [trace[i]])
    ensures forall e :: e in trace[..i] + trace[i + 1..] + [trace[i]] <==> e in trace
  {
    var front := trace[..i] + trace[i + 1..];
    assert forall j | 0 <= j < |front| :: front[j] == trace[if j < i then j else j + 1];
    assert trace == trace[..i] + [trace[i]] + trace[i + 1..];
  }

  // ----- The condition -----

  lemma {:induction false} RecoverableAgrees(v: Value, path: Path, root: Value, stored: map<string, Value>)
    requires Keeps(root, stored) && Recoverable(v, path, root)
    ensures Agrees(v, path, stored)
    decreases v
  {
    hide TakenOut, TakenAs, Pointer, IndexText;
    match v
    case Object(fields) =>
      forall k | k in fields
        ensures AgreesMember(fields[k], path + [k], stored)
      {
        assert RecoverableMember(fields[k], path + [k], root);
        var q := Pointer(path + [k]);
        if q in stored {
          var p :| TakenAs(root, q, p, stored[q]);
        } else {
          RecoverableAgrees(fields[k], path + [k], root, stored);
        }
      }
    case Array(items) =>
      forall i | 0 <= i < |items|
        ensures Agrees(items[i], path + [IndexText(i)], stored)
      {
        RecoverableAgrees(items[i], path + [IndexText(i)], root, stored);
      }
    case _ =>
  }

  ghost predicate AllAgree(v: Value, path: Path, root: Value, secrets: Value) {
    forall trace | Visited(root, [], trace) :: Agrees(v, path, Kept(secrets, trace))
  }

  lemma MemberAgrees(v: Value, path: Path, k: string, root: Value, secrets: Value)
    requires v.Object? && k in v.fields && AllAgree(v, path, root, secrets)
    ensures forall trace | Visited(root, [], trace) :: AgreesMember(v.fields[k], path + [k], Kept(secrets, trace))
  {
    hide Visited, Kept, AgreesMember;
    forall trace | Visited(root, [], trace)
      ensures AgreesMember(v.fields[k], path + [k], Kept(secrets, trace))
    {
      assert Agrees(v, path, Kept(secrets, trace));
    }
  }

  lemma ItemAgrees(v: Value, path: Path, i: nat, root: Value, secrets: Value)
    requires v.Array? && i < |v.items| && AllAgree(v, path, root, secrets)
    ensures AllAgree(v.items[i], path + [IndexText(i)], root, secrets)
  {
    hide Visited, Kept, IndexText;
    forall trace | Visited(root, [], trace)
      ensures Agrees(v.items[i], path + [IndexText(i)], Kept(secrets, trace))
    {
      assert Agrees(v, path, Kept(secrets, trace));
    }
  }

  lemma {:induction false} AgreeingIsRecoverable(v: Value, path: Path, root: Value, secrets: Value)
    requires Clear(root, secrets) && AllAgree(v, path, root, secrets)
    ensures Recoverable(v, path, root)
    decreases v
  {
    hide Clear, AllAgree, TakenOut, TakenAs, Pointer, IndexText, Visited, Kept, Keeps;
    match v
    case Object(fields) =>
      forall k | k in fields
        ensures RecoverableMember(fields[k], path + [k], root)
      {
        MemberAgrees(v, path, k, root, secrets);
        if TakenOut(root, Pointer(path + [k])) {
          TakenValuesAgree(fields[k], path + [k], root, secrets);
        } else {
          KeptMemberAgrees(fields[k], path + [k], root, secrets);
          AgreeingIsRecoverable(fields[k], path + [k], root, secrets);
        }
      }
    case Array(items) =>
      forall i | 0 <= i < |items|
        ensures Recoverable(items[i], path + [IndexText(i)], root)
      {
        ItemAgrees(v, path, i, root, secrets);
        AgreeingIsRecoverable(items[i], path + [IndexText(i)], root, secrets);
      }
    case _ =>
  }

  lemma TakenValuesAgree(v: Value, path: Path, root: Value, secrets: Value)
    requires Clear(root, secrets)
    requires forall trace | Visited(root, [], trace) :: AgreesMember(v, path, Kept(secrets, trace))
    ensures forall p, x | TakenAs(root, Pointer(path), p, x) :: x == v
  {
    hide Visited, Kept, Pointer, Sealed, Agrees, Clear;
    var trace := Trace(root, []);
    TraceVisited(root, []);
    forall p, x | TakenAs(root, Pointer(path), p, x)
      ensures x == v
    {
      var other := StoredLast(root, secrets, trace, p, x);
      assert AgreesMember(v, path, Kept(secrets, other));
    }
  }

  lemma KeptMemberAgrees(v: Value, path: Path, root: Value, secrets: Value)
    requires Clear(root, secrets) && !TakenOut(root, Pointer(path))
    requires forall trace | Visited(root, [], trace) :: AgreesMember(v, path, Kept(secrets, trace))
    ensures AllAgree(v, path, root, secrets)
  {
    hide Visited, Kept, Pointer, TakenOut, Agrees, Clear;
    forall trace | Visited(root, [], trace)
      ensures Agrees(v, path, Kept(secrets, trace))
    {
      TracesKeep(root, secrets, trace);
      assert AgreesMember(v, path, Kept(secrets, trace));
    }
  }

  /** In whatever order the values taken out are stored, each once, the configuration can be rebuilt. */
  ghost predicate AlwaysRecovered(config: Value, secrets: Value, marker: Value) {
    forall trace | Visited(config, [], trace) :: Fill(Sanitize(config, [], marker), [], Kept(secrets, trace)) == config
  }

  /** Main result: scrubbing can be undone in whatever order exactly when no two places of the configuration share a
      pointer that a value was taken out under, unless they hold the same value. */
  lemma RecoveredIffRecoverable(config: Value, secrets: Value, marker: Value)
    requires Clear(config, secrets)
    ensures AlwaysRecovered(config, secrets, marker) <==> Recoverable(config, [], config)
  {
    hide Fill, Sanitize, Kept, Visited, Agrees, Recoverable, Keeps, AllStored, Clear;
    forall trace | Visited(config, [], trace)
      ensures Fill(Sanitize(config, [], marker), [], Kept(secrets, trace)) == config <==>
              Agrees(config, [], Kept(secrets, trace))
      ensures Recoverable(config, [], config) ==> Agrees(config, [], Kept(secrets, trace))
    {
      TracesKeep(config, secrets, trace);
      FillIff(config, [], marker, Kept(secrets, trace));
      if Recoverable(config, [], config) { RecoverableAgrees(config, [], config, Kept(secrets, trace)); }
    }
    if AlwaysRecovered(config, secrets, marker) {
      AgreeingIsRecoverable(config, [], config, secrets);
    }
  }

  /** Names without slashes are enough. */
  lemma SlashFreeIsRecoverable(config: Value, secrets: Value, marker: Value)
    requires Clear(config, secrets) && SlashFreeKeys(config)
    ensures Recoverable(config, [], config)
  {
    hide Fill, Sanitize, Visited, Recoverable, StoreAll, StoredValues;
    forall trace | Visited(config, [], trace)
      ensures Fill(Sanitize(config, [], marker), [], Kept(secrets, trace)) == config
    {
      VisitedMeaning(config, [], trace);
      ScrubbingIsInvertible(config, secrets, marker, trace);
    }
    RecoveredIffRecoverable(config, secrets, marker);
  }
}
