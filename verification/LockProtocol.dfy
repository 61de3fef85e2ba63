/** The heavy-verify lock (scripts/node/testing/verify-runtime.js): processes publish a staging directory as the lock
    by renaming it, clean up locks of dead owners, and release their own.

    Every step is one file-system call or one reading of the owner record, in the order of the program, so that a
    process can be overtaken between finding a lock stale and removing it. Process ids are not reused. */
module LockProtocol {
  import opened Wrappers

  datatype Owner = Owner(token: string, pid: nat)

  /** A lock or staging directory; the record is missing until it is written. */
  datatype Dir = Dir(owner: Option<Owner>)

  datatype Phase =
    | Idle        // about to try
    | Staged      // has an empty staging directory
    | Ready       // has written its record there
    | Publishing  // saw no lock and will rename
    | SawLock     // saw a lock and will read its record
    | Collided    // renaming failed; will read the record
    | FoundStale  // will remove the lock
    | Holding     // owns the lock
    | Nested      // runs under a lock with its own token
    | Releasing   // may remove the lock and will do so
    | Finished

  datatype Process = Process(token: string, phase: Phase, staging: Option<Dir>, alive: bool)

  datatype State = State(lock: Option<Dir>, processes: map<nat, Process>)

  datatype Action =
    | MakeStaging | WriteOwner | Look | Rename | ReadOwner(timeout: bool) | RemoveStale
    | BeginRelease | FinishRelease | ReleaseNested | Crash

  function VisibleOwner(s: State): Option<Owner> {
    if s.lock.Some? then s.lock.value.owner else None
  }

  predicate Dead(s: State, pid: nat) {
    pid !in s.processes || !s.processes[pid].alive
  }

  /** One step of a living process; `None` if the process is not at that point of the program. */
  function Step(s: State, pid: nat, action: Action): Option<State> {
    if Dead(s, pid) then None
    else
      var p := s.processes[pid];
      match (action, p.phase)
      case (MakeStaging, Idle) => Some(Become(s, pid, p.(phase := Staged, staging := Some(Dir(None)))))
      case (WriteOwner, Staged) =>
        Some(Become(s, pid, p.(phase := Ready, staging := Some(Dir(Some(Owner(p.token, pid)))))))
      case (Look, Ready) => Some(Become(s, pid, p.(phase := if s.lock.None? then Publishing else SawLock)))
      case (Rename, Publishing) =>
        // renaming replaces an empty directory but not one with a record
        if VisibleOwner(s).None? then
          Some(Become(s.(lock := p.staging), pid, p.(phase := Holding, staging := None)))
        else Some(Become(s, pid, p.(phase := Collided, staging := None)))
      case (ReadOwner(timeout), SawLock) => Some(Become(s, pid, p.(phase := Decision(s, p, timeout), staging := None)))
      case (ReadOwner(timeout), Collided) => Some(Become(s, pid, p.(phase := Decision(s, p, timeout), staging := None)))
      case (RemoveStale, FoundStale) => Some(Become(s.(lock := None), pid, p.(phase := Idle)))
      case (BeginRelease, Holding) =>
        var owner := VisibleOwner(s);
        Some(Become(s, pid, p.(phase := if owner.Some? && owner.value.token != p.token then Finished else Releasing)))
      case (FinishRelease, Releasing) => Some(Become(s.(lock := None), pid, p.(phase := Finished)))
      case (ReleaseNested, Nested) => Some(Become(s, pid, p.(phase := Finished)))
      case (Crash, _) => Some(Become(s, pid, p.(alive := false)))
      case _ => None
  }

  function Become(s: State, pid: nat, p: Process): State {
    s.(processes := s.processes[pid := p])
  }

  /** What a process makes of the record it reads: no record and a dead owner mean stale, its own token means that it
      runs inside the lock already, anything else means waiting or giving up. */
  function Decision(s: State, p: Process, timeout: bool): Phase {
    match VisibleOwner(s)
    case None => FoundStale
    case Some(owner) =>
      if owner.token == p.token then Nested
      else if Dead(s, owner.pid) then FoundStale
      else if timeout then Finished
      else Idle
  }

  // ----- Safety -----

  predicate Owns(p: Process) {
    p.alive && (p.phase == Holding || p.phase == Releasing)
  }

  function RecordOf(s: State, pid: nat): Option<Dir>
    requires pid in s.processes
  {
    Some(Dir(Some(Owner(s.processes[pid].token, pid))))
  }

  /** The lock has a complete record; it is the record of the living owner; and a record of a living process is that
      of an owner. */
  ghost predicate Inv(s: State) {
    && (s.lock.Some? ==> s.lock.value.owner.Some?)
    && (forall pid | pid in s.processes ::
          s.processes[pid].phase == Ready || s.processes[pid].phase == Publishing ==>
            s.processes[pid].staging == RecordOf(s, pid))
    && (forall pid | pid in s.processes :: Owns(s.processes[pid]) ==> s.lock == RecordOf(s, pid))
    && (forall pid | pid in s.processes && VisibleOwner(s).Some? && VisibleOwner(s).value.pid == pid ::
          s.processes[pid].alive ==> Owns(s.processes[pid]))
  }

  /** At most one living process owns the lock. */
  ghost predicate MutualExclusion(s: State) {
    forall p, q | p in s.processes && q in s.processes && Owns(s.processes[p]) && Owns(s.processes[q]) :: p == q
  }

  lemma InvExcludes(s: State)
    requires Inv(s)
    ensures MutualExclusion(s)
    ensures s.lock.Some? ==> s.lock.value.owner.Some?
  {
    forall p, q | p in s.processes && q in s.processes && Owns(s.processes[p]) && Owns(s.processes[q])
      ensures p == q
    {
      assert RecordOf(s, p) == s.lock == RecordOf(s, q);
    }
  }

  /** The step does not remove the lock of a living process as stale. */
  predicate RemovesOnlyStale(s: State, pid: nat, action: Action) {
    action == RemoveStale ==> VisibleOwner(s).None? || Dead(s, VisibleOwner(s).value.pid)
  }

  /** Exactly the steps that remove the lock of a living process as stale break the invariant. */
  lemma StepKeepsInv(s: State, pid: nat, action: Action)
    requires Inv(s) && Step(s, pid, action).Some?
    ensures Inv(Step(s, pid, action).value) <==> RemovesOnlyStale(s, pid, action)
  {
    var next := Step(s, pid, action).value;
    if RemovesOnlyStale(s, pid, action) {
      KeepsInv(s, pid, action);
    } else {
      var owner := VisibleOwner(s).value.pid;
      assert Owns(s.processes[owner]);
      assert s.processes[pid].phase == FoundStale;
      assert Owns(next.processes[owner]) && next.lock != RecordOf(next, owner);
    }
  }

  /** A step that leaves the lock alone and neither gains nor gives up ownership, except by a crash. */
  lemma QuietStepKeepsInv(s: State, pid: nat, after: Process)
    requires Inv(s) && pid in s.processes
    requires var p := s.processes[pid];
             && after.token == p.token && (after.alive ==> p.alive)
             && (Owns(after) ==> Owns(p)) && (Owns(p) && after.alive ==> Owns(after))
             && (after.phase == Ready || after.phase == Publishing ==> after.staging == RecordOf(s, pid))
    ensures Inv(Become(s, pid, after))
  {
    var next := Become(s, pid, after);
    assert forall q | q in s.processes :: RecordOf(next, q) == RecordOf(s, q);
  }

  lemma FreeingKeepsInv(s: State, pid: nat, after: Process)
    requires Inv(s) && pid in s.processes && !Owns(after) && after.token == s.processes[pid].token
    requires after.phase != Ready && after.phase != Publishing
    requires forall q | q in s.processes && q != pid :: !Owns(s.processes[q])
    ensures Inv(Become(s.(lock := None), pid, after))
  {
    var next := Become(s.(lock := None), pid, after);
    assert forall q | q in s.processes :: RecordOf(next, q) == RecordOf(s, q);
  }

  lemma PublishingKeepsInv(s: State, pid: nat, after: Process)
    requires Inv(s) && pid in s.processes && s.lock.None? && after.token == s.processes[pid].token
    requires after.phase == Holding && after.alive
    ensures Inv(Become(s.(lock := RecordOf(s, pid)), pid, after))
  {
    var next := Become(s.(lock := RecordOf(s, pid)), pid, after);
    assert forall q | q in s.processes :: RecordOf(next, q) == RecordOf(s, q);
    OwnedIsRecorded(s);
  }

  lemma KeepsInv(s: State, pid: nat, action: Action)
    requires Inv(s) && Step(s, pid, action).Some? && RemovesOnlyStale(s, pid, action)
    ensures Inv(Step(s, pid, action).value)
  {
    var next := Step(s, pid, action).value;
    var after := next.processes[pid];
    InvExcludes(s);
    OwnedIsRecorded(s);
    hide Inv;
    match action
    case Rename =>
      if s.lock.None? { PublishingKeepsInv(s, pid, after); } else { QuietStepKeepsInv(s, pid, after); }
    case RemoveStale => FreeingKeepsInv(s, pid, after);
    case FinishRelease => FreeingKeepsInv(s, pid, after);
    case _ => QuietStepKeepsInv(s, pid, after);
  }

  lemma OwnedIsRecorded(s: State)
    requires Inv(s)
    ensures s.lock.Some? ==> s.lock.value.owner.Some?
    ensures forall q | q in s.processes && Owns(s.processes[q]) :: s.lock == RecordOf(s, q)
    ensures forall q | q in s.processes :: s.processes[q].phase == Ready || s.processes[q].phase == Publishing ==>
                                            s.processes[q].staging == RecordOf(s, q)
  {
  }

  // ----- Runs -----

  type Schedule = seq<(nat, Action)>

  function Run(s: State, schedule: Schedule): Option<State>
    decreases |schedule|
  {
    if schedule == [] then Some(s)
    else
      match Step(s, schedule[0].0, schedule[0].1)
      case None => None
      case Some(next) => Run(next, schedule[1..])
  }

  /** No step of the run removes the lock of a living process as stale. */
  ghost predicate CleansOnlyStale(s: State, schedule: Schedule)
    decreases |schedule|
  {
    schedule == [] ||
    (RemovesOnlyStale(s, schedule[0].0, schedule[0].1) &&
     match Step(s, schedule[0].0, schedule[0].1)
     case None => true
     case Some(next) => CleansOnlyStale(next, schedule[1..]))
  }

  /** Nobody has started; the lock is free or left over from a process that is gone. */
  ghost predicate Initial(s: State) {
    && (s.lock.Some? ==> s.lock.value.owner.Some? && Dead(s, s.lock.value.owner.value.pid))
    && forall pid | pid in s.processes :: s.processes[pid].phase == Idle
  }

  /** Over every run whose clean-ups find a stale lock, also with crashes at any point, at most one living process owns
      the lock and the lock always has a complete record. `LockRuns.RunsAreSafe` says for which schedules they do. */
  lemma {:induction false} CleanRunsAreSafe(s: State, schedule: Schedule)
    requires Inv(s) || Initial(s)
    requires CleansOnlyStale(s, schedule) && Run(s, schedule).Some?
    ensures Inv(Run(s, schedule).value) && MutualExclusion(Run(s, schedule).value)
    decreases |schedule|
  {
    if schedule == [] {
      InvExcludes(s);
    } else {
      assert Inv(s);
      StepKeepsInv(s, schedule[0].0, schedule[0].1);
      CleanRunsAreSafe(Step(s, schedule[0].0, schedule[0].1).value, schedule[1..]);
    }
  }

  /** An owner keeps its lock until it releases it or crashes: no step of another process touches either. */
  lemma OwnerKeepsLock(s: State, owner: nat, pid: nat, action: Action)
    requires Inv(s) && owner in s.processes && Owns(s.processes[owner])
    requires pid != owner && Step(s, pid, action).Some? && RemovesOnlyStale(s, pid, action)
    ensures Step(s, pid, action).value.lock == s.lock
    ensures Step(s, pid, action).value.processes[owner] == s.processes[owner]
  {
    InvExcludes(s);
    assert s.lock == RecordOf(s, owner);
  }

  /** A nested acquisition never frees the lock, whatever it does. */
  lemma NestedNeverFrees(s: State, pid: nat, action: Action)
    requires pid in s.processes && s.processes[pid].phase == Nested && Step(s, pid, action).Some?
    ensures Step(s, pid, action).value.lock == s.lock
    ensures Step(s, pid, action).value.processes[pid].phase in {Nested, Finished}
  {
  }

  /** While the process whose lock a nested one runs in is alive and has not released it, no other token has it. */
  lemma NestedIsProtected(s: State, outer: nat, nested: nat, other: nat)
    requires Inv(s) && outer in s.processes && nested in s.processes && other in s.processes
    requires Owns(s.processes[outer]) && s.processes[nested].phase == Nested
    requires s.processes[nested].token == s.processes[outer].token
    requires Owns(s.processes[other])
    ensures s.processes[other].token == s.processes[nested].token
  {
    InvExcludes(s);
  }

  // ----- What can go wrong otherwise -----

  lemma {:induction false} RunConcat(s: State, a: Schedule, b: Schedule)
    requires Run(s, a).Some?
    ensures Run(s, a + b) == Run(Run(s, a).value, b)
    decreases |a|
  {
    if a == [] {
      assert a + b == b;
    } else {
      assert (a + b)[0] == a[0] && (a + b)[1..] == a[1..] + b;
      RunConcat(Step(s, a[0].0, a[0].1).value, a[1..], b);
    }
  }

  function Fresh(token: string): Process {
    Process(token, Idle, None, true)
  }

  /** From a free lock, a process that runs alone comes to hold it. */
  function Acquire(pid: nat): Schedule {
    [(pid, MakeStaging), (pid, WriteOwner), (pid, Look), (pid, Rename)]
  }

  lemma AcquireAlone(s: State, pid: nat)
    requires !Dead(s, pid) && s.processes[pid].phase == Idle && s.lock.None?
    ensures var p := s.processes[pid];
            Run(s, Acquire(pid)) ==
            Some(State(RecordOf(s, pid), s.processes[pid := Process(p.token, Holding, None, true)]))
  {
    var p := s.processes[pid];
    var s1 := Become(s, pid, p.(phase := Staged, staging := Some(Dir(None))));
    var s2 := Become(s1, pid, p.(phase := Ready, staging := RecordOf(s, pid)));
    var s3 := Become(s2, pid, p.(phase := Publishing, staging := RecordOf(s, pid)));
    var s4 := Become(s3.(lock := RecordOf(s, pid)), pid, p.(phase := Holding, staging := None));
    assert Step(s, pid, MakeStaging) == Some(s1) && Step(s1, pid, WriteOwner) == Some(s2);
    assert Step(s2, pid, Look) == Some(s3) && Step(s3, pid, Rename) == Some(s4);
    assert Acquire(pid)[1..][1..][1..][1..] == [];
    assert s4.processes == s.processes[pid := Process(p.token, Holding, None, true)];
    FourSteps(s, s1, s2, s3, s4, Acquire(pid));
  }

  lemma FourSteps(s: State, s1: State, s2: State, s3: State, s4: State, schedule: Schedule)
    requires |schedule| == 4
    requires Step(s, schedule[0].0, schedule[0].1) == Some(s1) && Step(s1, schedule[1].0, schedule[1].1) == Some(s2)
    requires Step(s2, schedule[2].0, schedule[2].1) == Some(s3) && Step(s3, schedule[3].0, schedule[3].1) == Some(s4)
    ensures Run(s, schedule) == Some(s4)
  {
    hide Step;
    assert schedule[1..][0] == schedule[1] && schedule[1..][1..][0] == schedule[2];
    assert schedule[1..][1..][1..][0] == schedule[3] && schedule[1..][1..][1..][1..] == [];
    assert Run(s4, []) == Some(s4);
    assert Run(s3, schedule[1..][1..][1..]) == Some(s4);
    assert Run(s2, schedule[1..][1..]) == Some(s4);
    assert Run(s1, schedule[1..]) == Some(s4);
  }

  /** A process that found the lock stale removes it and acquires it, which it always can if nobody interferes. Both
      stay alone in it exactly when the lock was still stale: an overtaken clean-up removes the lock of a living owner,
      and then two own it. */
  lemma OvertakenCleanUpBreaksExclusion(s: State, pid: nat)
    requires Inv(s) && Step(s, pid, RemoveStale).Some?
    ensures var end := Run(s, [(pid, RemoveStale)] + Acquire(pid));
            end.Some? && (MutualExclusion(end.value) <==> RemovesOnlyStale(s, pid, RemoveStale))
  {
    hide Acquire;
    var p := s.processes[pid];
    var t := Step(s, pid, RemoveStale).value;
    OneThen(s, pid, RemoveStale, Acquire(pid));
    AcquireAlone(t, pid);
    var end := State(RecordOf(t, pid), t.processes[pid := Process(p.token, Holding, None, true)]);
    if RemovesOnlyStale(s, pid, RemoveStale) {
      OnlyStaleIffUnowned(s);
      assert forall q | q in end.processes && Owns(end.processes[q]) :: q == pid;
    } else {
      var owner := VisibleOwner(s).value.pid;
      assert Owns(s.processes[owner]) && owner != pid;
      assert Owns(end.processes[owner]) && Owns(end.processes[pid]);
    }
  }

  /** The lock is stale exactly when no living process owns it. */
  lemma OnlyStaleIffUnowned(s: State)
    requires Inv(s)
    ensures VisibleOwner(s).None? || Dead(s, VisibleOwner(s).value.pid) <==>
            forall q | q in s.processes :: !Owns(s.processes[q])
  {
    forall q | q in s.processes && Owns(s.processes[q])
      ensures VisibleOwner(s) == Some(Owner(s.processes[q].token, q))
    {
      assert s.lock == RecordOf(s, q);
    }
  }

  lemma OneThen(s: State, pid: nat, action: Action, rest: Schedule)
    requires Step(s, pid, action).Some?
    ensures Run(s, [(pid, action)] + rest) == Run(Step(s, pid, action).value, rest)
  {
    assert ([(pid, action)] + rest)[1..] == rest;
  }

  /** Two processes can both find the lock of a dead process stale. */
  lemma BothCanFindItStale(first: nat, second: nat, gone: nat)
    requires first != second && gone != first && gone != second
    ensures var s := State(Some(Dir(Some(Owner("gone", gone)))), map[first := Fresh("a"), second := Fresh("b")]);
            && Initial(s)
            && Run(s, Suspect(first) + Suspect(second)) ==
               Some(s.(processes := map[first := Process("a", FoundStale, None, true),
                                        second := Process("b", FoundStale, None, true)]))
  {
    hide Suspect;
    var s := State(Some(Dir(Some(Owner("gone", gone)))), map[first := Fresh("a"), second := Fresh("b")]);
    ReadAlone(s, first, FoundStale);
    var t := Become(s, first, Process("a", FoundStale, None, true));
    ReadAlone(t, second, FoundStale);
    RunConcat(s, Suspect(first), Suspect(second));
    assert Become(t, second, Process("b", FoundStale, None, true)).processes ==
           map[first := Process("a", FoundStale, None, true), second := Process("b", FoundStale, None, true)];
  }

  /** So exclusion does break in a run from an initial state: both find the lock stale, the first cleans up and acquires
      it, and then the second does. */
  lemma ExclusionBreaks(first: nat, second: nat, gone: nat)
    requires first != second && gone != first && gone != second
    ensures var s := State(Some(Dir(Some(Owner("gone", gone)))), map[first := Fresh("a"), second := Fresh("b")]);
            exists schedule :: Initial(s) && Run(s, schedule).Some? && !MutualExclusion(Run(s, schedule).value)
  {
    hide Suspect, Acquire, MutualExclusion, Step, Run;
    var s := State(Some(Dir(Some(Owner("gone", gone)))), map[first := Fresh("a"), second := Fresh("b")]);
    BothCanFindItStale(first, second, gone);
    var found := Suspect(first) + Suspect(second);
    var t := Run(s, found).value;
    var one, two := [(first, RemoveStale)] + Acquire(first), [(second, RemoveStale)] + Acquire(second);
    FirstHolds(first, second, t);
    var v := Run(t, one).value;
    HeldByFirst(first, second, v);
    OvertakenCleanUpBreaksExclusion(v, second);
    RunConcat(s, found, one);
    RunConcat(s, found + one, two);
    assert Run(s, (found + one) + two).Some?;
  }

  lemma FirstHolds(first: nat, second: nat, s: State)
    requires first != second
    requires s.processes == map[first := Process("a", FoundStale, None, true),
                                second := Process("b", FoundStale, None, true)]
    ensures var end := Run(s, [(first, RemoveStale)] + Acquire(first));
            && end.Some?
            && end.value.processes ==
               map[first := Process("a", Holding, None, true), second := Process("b", FoundStale, None, true)]
            && end.value.lock == RecordOf(end.value, first)
  {
    hide Acquire;
    var t := State(None, s.processes[first := Process("a", Idle, None, true)]);
    assert Step(s, first, RemoveStale) == Some(t);
    OneThen(s, first, RemoveStale, Acquire(first));
    AcquireAlone(t, first);
  }

  lemma HeldByFirst(first: nat, second: nat, s: State)
    requires first != second
    requires s.processes == map[first := Process("a", Holding, None, true),
                                second := Process("b", FoundStale, None, true)]
    requires s.lock == RecordOf(s, first)
    ensures Inv(s) && Step(s, second, RemoveStale).Some? && !RemovesOnlyStale(s, second, RemoveStale)
  {
  }

  function Suspect(pid: nat): Schedule {
    [(pid, MakeStaging), (pid, WriteOwner), (pid, Look), (pid, ReadOwner(false))]
  }

  lemma ReadAlone(s: State, pid: nat, found: Phase)
    requires !Dead(s, pid) && s.processes[pid].phase == Idle && s.processes[pid].staging == None
    requires VisibleOwner(s).Some? && VisibleOwner(s).value.pid != pid
    requires found == Decision(s, s.processes[pid], false)
    ensures Run(s, Suspect(pid)) == Some(Become(s, pid, s.processes[pid].(phase := found)))
  {
    var p := s.processes[pid];
    var s1 := Become(s, pid, p.(phase := Staged, staging := Some(Dir(None))));
    var s2 := Become(s1, pid, p.(phase := Ready, staging := RecordOf(s, pid)));
    var s3 := Become(s2, pid, p.(phase := SawLock, staging := RecordOf(s, pid)));
    var s4 := Become(s3, pid, p.(phase := found));
    assert Step(s, pid, MakeStaging) == Some(s1) && Step(s1, pid, WriteOwner) == Some(s2);
    assert Step(s2, pid, Look) == Some(s3);
    assert Dead(s3, VisibleOwner(s).value.pid) == Dead(s, VisibleOwner(s).value.pid);
    assert Step(s3, pid, ReadOwner(false)) == Some(s4);
    assert s4.processes == s.processes[pid := p.(phase := found)];
    FourSteps(s, s1, s2, s3, s4, Suspect(pid));
  }

  /** Processes of the situation below: an outer process that crashed, one nested in it, and a third. */
  function Three(outer: nat, a: Process, nested: nat, b: Process, other: nat, c: Process): map<nat, Process> {
    map[outer := a, nested := b, other := c]
  }

  /** A nested process is protected by the owner of the lock only. Another process with another token that found the
      lock stale can always clean up and acquire it, and then owns it while the nested one still runs; and all its
      clean-ups are right exactly when no process owns the lock any more, as after a crash of the outer one. */
  lemma NestedOutlivesOuter(s: State, nested: nat, other: nat)
    requires Inv(s) && nested in s.processes && Step(s, other, RemoveStale).Some?
    requires s.processes[nested].alive && s.processes[nested].phase == Nested
    requires s.processes[other].token != s.processes[nested].token
    ensures var schedule := [(other, RemoveStale)] + Acquire(other);
            && Run(s, schedule).Some?
            && var end := Run(s, schedule).value;
               && other in end.processes && Owns(end.processes[other])
               && nested in end.processes && end.processes[nested] == s.processes[nested]
               && end.processes[other].token != end.processes[nested].token
               && (CleansOnlyStale(s, schedule) <==> forall outer | outer in s.processes :: !Owns(s.processes[outer]))
  {
    hide Acquire, Inv;
    var t := Step(s, other, RemoveStale).value;
    OneThen(s, other, RemoveStale, Acquire(other));
    AcquireAlone(t, other);
    AcquireCleansNothing(t, other);
    OnlyStaleIffUnowned(s);
    assert ([(other, RemoveStale)] + Acquire(other))[1..] == Acquire(other);
  }

  /** The situation arises: the outer process acquires, the nested one finds its own token, the outer one crashes and
      the third one looks. */
  lemma NestedSituationArises(outer: nat, nested: nat, other: nat)
    requires outer != nested && nested != other && outer != other
    ensures var s := State(None, Three(outer, Fresh("t"), nested, Fresh("t"), other, Fresh("u")));
            var schedule := Acquire(outer) + (Suspect(nested) + ([(outer, Crash)] + Suspect(other)));
            && Initial(s) && Run(s, schedule).Some?
            && Run(s, schedule).value.processes ==
               Three(outer, Process("t", Holding, None, false), nested, Process("t", Nested, None, true),
                     other, Process("u", FoundStale, None, true))
            && Run(s, schedule).value.lock == Some(Dir(Some(Owner("t", outer))))
  {
    hide Acquire, Suspect;
    var s := State(None, Three(outer, Fresh("t"), nested, Fresh("t"), other, Fresh("u")));
    AcquireAlone(s, outer);
    var s1 := State(RecordOf(s, outer), s.processes[outer := Process("t", Holding, None, true)]);
    ReadAlone(s1, nested, Nested);
    var s2 := Become(s1, nested, Process("t", Nested, None, true));
    hide Step, Run;
    CrashThenSuspect(s2, outer, other);
    RunConcat(s1, Suspect(nested), [(outer, Crash)] + Suspect(other));
    RunConcat(s, Acquire(outer), Suspect(nested) + ([(outer, Crash)] + Suspect(other)));
  }

  lemma CrashThenSuspect(s: State, outer: nat, other: nat)
    requires outer != other && !Dead(s, outer) && !Dead(s, other)
    requires s.lock == RecordOf(s, outer) && s.processes[other] == Fresh("u") && s.processes[outer].token == "t"
    ensures Run(s, [(outer, Crash)] + Suspect(other)) ==
            Some(State(s.lock, s.processes[outer := s.processes[outer].(alive := false)]
                                          [other := Process("u", FoundStale, None, true)]))
  {
    hide Suspect;
    var t := Become(s, outer, s.processes[outer].(alive := false));
    assert Step(s, outer, Crash) == Some(t);
    OneThen(s, outer, Crash, Suspect(other));
    ReadAlone(t, other, FoundStale);
  }

  lemma AcquireCleansNothing(s: State, pid: nat)
    ensures CleansOnlyStale(s, Acquire(pid))
  {
    NoCleanUp(s, Acquire(pid));
  }

  lemma {:induction false} NoCleanUp(s: State, schedule: Schedule)
    requires forall i | 0 <= i < |schedule| :: schedule[i].1 != RemoveStale
    ensures CleansOnlyStale(s, schedule)
    decreases |schedule|
  {
    hide Step;
    if schedule != [] {
      match Step(s, schedule[0].0, schedule[0].1)
      case None =>
      case Some(next) => NoCleanUp(next, schedule[1..]);
    }
  }
}
