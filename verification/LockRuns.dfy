/** What a process decides from the record it reads, what becomes of an attempt to acquire or to release the lock, and
    for which schedules all clean-ups are right. */
module LockRuns {
  import opened Wrappers
  import opened LockProtocol

  ghost predicate Unowned(s: State) {
    forall q | q in s.processes :: !Owns(s.processes[q])
  }

  // ----- Decisions -----

  /** Reading changes nothing but the phase of the reader: without a record the lock is stale; under its own token it
      runs nested; a record of a process that is gone is stale; a living process is waited for, or the reader gives
      up. */
  lemma ReadingDecides(s: State, pid: nat, timeout: bool)
    requires Step(s, pid, ReadOwner(timeout)).Some?
    ensures var next := Step(s, pid, ReadOwner(timeout)).value;
            && next.lock == s.lock && next.processes.Keys == s.processes.Keys
            && (forall q | q in s.processes && q != pid :: next.processes[q] == s.processes[q])
            && next.processes[pid].token == s.processes[pid].token && next.processes[pid].alive
            && next.processes[pid].phase == DecisionOn(s, s.processes[pid].token, timeout)
  {
  }

  /** The decision by cases on the lock. */
  ghost function DecisionOn(s: State, token: string, timeout: bool): Phase {
    match s.lock
    case None => FoundStale
    case Some(Dir(None)) => FoundStale
    case Some(Dir(Some(Owner(recorded, owner)))) =>
      if recorded == token then Nested
      else if owner in s.processes && s.processes[owner].alive then (if timeout then Finished else Idle)
      else FoundStale
  }

  /** A lock is found stale exactly if no living process owns it, unless it has the token of the reader. */
  lemma FoundStaleIffUnowned(s: State, pid: nat, timeout: bool)
    requires Inv(s) && Step(s, pid, ReadOwner(timeout)).Some?
    ensures var phase := Step(s, pid, ReadOwner(timeout)).value.processes[pid].phase;
            && (phase == FoundStale <==> Unowned(s) && !HasToken(s, s.processes[pid].token))
            && (phase == Nested <==> HasToken(s, s.processes[pid].token))
  {
    OnlyStaleIffUnowned(s);
  }

  predicate HasToken(s: State, token: string) {
    s.lock.Some? && s.lock.value.owner.Some? && s.lock.value.owner.value.token == token
  }

  /** A living owner is never found stale by a process with another token: it goes on waiting or gives up. */
  lemma LivingOwnerIsRespected(s: State, owner: nat, pid: nat, timeout: bool)
    requires Inv(s) && owner in s.processes && Owns(s.processes[owner])
    requires Step(s, pid, ReadOwner(timeout)).Some? && s.processes[pid].token != s.processes[owner].token
    ensures var next := Step(s, pid, ReadOwner(timeout)).value;
            next.lock == s.lock && next.processes[pid].phase == if timeout then Finished else Idle
  {
    assert s.lock == RecordOf(s, owner);
  }

  // ----- Runs by schedule -----

  /** Each clean-up acts on a reading of the same process since which no process has published a lock. */
  ghost predicate NotOvertaken(schedule: Schedule) {
    forall i | 0 <= i < |schedule| && schedule[i].1 == RemoveStale :: ReadBefore(schedule, i)
  }

  ghost predicate ReadBefore(schedule: Schedule, i: nat)
    requires i < |schedule|
  {
    exists j | 0 <= j < i :: ReadAt(schedule, schedule[i].0, j, i)
  }

  ghost predicate ReadAt(schedule: Schedule, pid: nat, j: nat, i: nat)
    requires j < i <= |schedule|
  {
    && schedule[j].0 == pid && schedule[j].1.ReadOwner?
    && forall k | j < k < i :: schedule[k].1 != Rename
  }

  /** A clean-up that directly follows the reading is not overtaken. */
  lemma DirectCleanUps(schedule: Schedule)
    requires forall i | 0 <= i < |schedule| && schedule[i].1 == RemoveStale ::
               i > 0 && schedule[i - 1].0 == schedule[i].0 && schedule[i - 1].1.ReadOwner?
    ensures NotOvertaken(schedule)
  {
    forall i | 0 <= i < |schedule| && schedule[i].1 == RemoveStale
      ensures ReadBefore(schedule, i)
    {
      assert ReadAt(schedule, schedule[i].0, i - 1, i);
    }
  }

  /** Clean-ups of the schedule are by processes among `readers`, before anything is published, or not overtaken. */
  ghost predicate NotOvertakenAfter(schedule: Schedule, readers: set<nat>) {
    forall i | 0 <= i < |schedule| && schedule[i].1 == RemoveStale ::
      ReadBefore(schedule, i) || (schedule[i].0 in readers && forall k | 0 <= k < i :: schedule[k].1 != Rename)
  }

  /** The readers that have not been overtaken after one more step. */
  function Readers(readers: set<nat>, pid: nat, action: Action): set<nat> {
    if action.ReadOwner? then readers + {pid} else if action == Rename then {} else readers
  }

  lemma RestNotOvertaken(schedule: Schedule, readers: set<nat>)
    requires schedule != [] && NotOvertakenAfter(schedule, readers)
    ensures NotOvertakenAfter(schedule[1..], Readers(readers, schedule[0].0, schedule[0].1))
    ensures schedule[0].1 == RemoveStale ==> schedule[0].0 in readers
  {
    var rest := schedule[1..];
    forall i | 0 <= i < |rest| && rest[i].1 == RemoveStale
      ensures ReadBefore(rest, i) || (rest[i].0 in Readers(readers, schedule[0].0, schedule[0].1)
                                      && forall k | 0 <= k < i :: rest[k].1 != Rename)
    {
      assert schedule[i + 1] == rest[i];
      if ReadBefore(schedule, i + 1) {
        var j :| 0 <= j < i + 1 && ReadAt(schedule, rest[i].0, j, i + 1);
        assert forall k | 0 <= k < i :: rest[k] == schedule[k + 1];
        if j > 0 { assert ReadAt(rest, rest[i].0, j - 1, i); }
      } else {
        assert schedule[0].1 != Rename;
        assert forall k | 0 <= k < i :: rest[k] == schedule[k + 1];
      }
    }
    assert schedule[0].1 == RemoveStale ==> !ReadBefore(schedule, 0);
  }

  /** Whoever found the lock stale and was not overtaken is right. */
  ghost predicate ReadersAreRight(s: State, readers: set<nat>) {
    forall p | p in readers && p in s.processes && s.processes[p].phase == FoundStale :: Unowned(s)
  }

  lemma ReadersStayRight(s: State, pid: nat, action: Action, readers: set<nat>)
    requires Inv(s) && ReadersAreRight(s, readers) && Step(s, pid, action).Some?
    ensures ReadersAreRight(Step(s, pid, action).value, Readers(readers, pid, action))
  {
    var next := Step(s, pid, action).value;
    if action.ReadOwner? { FoundStaleIffUnowned(s, pid, action.timeout); }
    if Unowned(s) && action != Rename {
      assert forall q | q in next.processes && q != pid :: next.processes[q] == s.processes[q];
      assert Unowned(next);
    }
  }

  lemma ReaderCleansOnlyStale(s: State, pid: nat, readers: set<nat>)
    requires Inv(s) && ReadersAreRight(s, readers) && Step(s, pid, RemoveStale).Some? && pid in readers
    ensures RemovesOnlyStale(s, pid, RemoveStale)
  {
    OnlyStaleIffUnowned(s);
  }

  lemma {:induction false} CleanUpsAreRight(s: State, schedule: Schedule, readers: set<nat>)
    requires Inv(s) && ReadersAreRight(s, readers) && NotOvertakenAfter(schedule, readers)
    requires Run(s, schedule).Some?
    ensures CleansOnlyStale(s, schedule)
    decreases |schedule|
  {
    hide Inv, Step, ReadersAreRight, NotOvertakenAfter, VisibleOwner, Dead, Readers;
    if schedule != [] {
      var (pid, action) := schedule[0];
      RestNotOvertaken(schedule, readers);
      if action == RemoveStale { ReaderCleansOnlyStale(s, pid, readers); }
      StepKeepsInv(s, pid, action);
      ReadersStayRight(s, pid, action, readers);
      CleanUpsAreRight(Step(s, pid, action).value, schedule[1..], Readers(readers, pid, action));
    }
  }

  /** Main result: over every run in which no clean-up is overtaken by a publication, also with crashes at any point,
      all clean-ups are right, at most one living process owns the lock and the lock has a complete record. */
  lemma RunsAreSafe(s: State, schedule: Schedule)
    requires Inv(s) || Initial(s)
    requires NotOvertaken(schedule) && Run(s, schedule).Some?
    ensures CleansOnlyStale(s, schedule)
    ensures Inv(Run(s, schedule).value) && MutualExclusion(Run(s, schedule).value)
  {
    CleanUpsAreRight(s, schedule, {});
    CleanRunsAreSafe(s, schedule);
  }

  // ----- Attempts -----

  /** A whole attempt by a process that nobody interferes with, up to its decision. */
  function Attempt(s: State, pid: nat, timeout: bool): Schedule {
    [(pid, MakeStaging), (pid, WriteOwner), (pid, Look), (pid, if s.lock.None? then Rename else ReadOwner(timeout))]
  }

  /** It publishes its own record if there is no lock, and otherwise leaves the lock alone and decides on the record. */
  lemma AttemptAlone(s: State, pid: nat, timeout: bool)
    requires !Dead(s, pid) && s.processes[pid].phase == Idle
    ensures var end := Run(s, Attempt(s, pid, timeout));
            && end.Some? && end.value.processes.Keys == s.processes.Keys
            && (forall q | q in s.processes && q != pid :: end.value.processes[q] == s.processes[q])
            && var p := end.value.processes[pid];
               && p.token == s.processes[pid].token && p.alive && p.staging == None
               && if s.lock.None? then p.phase == Holding && end.value.lock == RecordOf(s, pid)
                  else end.value.lock == s.lock && p.phase == DecisionOn(s, p.token, timeout)
  {
    var p := s.processes[pid];
    var s1 := Become(s, pid, p.(phase := Staged, staging := Some(Dir(None))));
    var s2 := Become(s1, pid, p.(phase := Ready, staging := RecordOf(s, pid)));
    var looked := if s.lock.None? then Publishing else SawLock;
    var s3 := Become(s2, pid, p.(phase := looked, staging := RecordOf(s, pid)));
    var last := Attempt(s, pid, timeout)[3].1;
    assert Step(s, pid, MakeStaging) == Some(s1) && Step(s1, pid, WriteOwner) == Some(s2);
    assert Step(s2, pid, Look) == Some(s3) && Step(s3, pid, last).Some?;
    if s.lock.Some? {
      ReadingDecides(s3, pid, timeout);
      assert DecisionOn(s3, p.token, timeout) == DecisionOn(s, p.token, timeout);
    }
    FourSteps(s, s1, s2, s3, Step(s3, pid, last).value, Attempt(s, pid, timeout));
  }

  /** A process that was about to publish when another lock with a record appeared keeps out of it and then decides on
      the record. */
  lemma LosingTheRace(s: State, pid: nat, timeout: bool)
    requires !Dead(s, pid) && s.processes[pid].phase == Publishing && VisibleOwner(s).Some?
    ensures var end := Run(s, [(pid, Rename), (pid, ReadOwner(timeout))]);
            && end.Some? && end.value.lock == s.lock
            && pid in end.value.processes
            && end.value.processes[pid].phase == DecisionOn(s, s.processes[pid].token, timeout)
  {
    var t := Step(s, pid, Rename).value;
    ReadingDecides(t, pid, timeout);
    assert DecisionOn(t, s.processes[pid].token, timeout) == DecisionOn(s, s.processes[pid].token, timeout);
    OneThen(t, pid, ReadOwner(timeout), []);
    assert [(pid, ReadOwner(timeout))] + [] == [(pid, ReadOwner(timeout))];
    OneThen(s, pid, Rename, [(pid, ReadOwner(timeout))]);
    assert [(pid, Rename)] + [(pid, ReadOwner(timeout))] == [(pid, Rename), (pid, ReadOwner(timeout))];
  }

  /** A process that found the lock stale and is not interfered with comes to hold it with its own record. */
  lemma CleanUpAlone(s: State, pid: nat)
    requires !Dead(s, pid) && s.processes[pid].phase == FoundStale
    ensures var end := Run(s, [(pid, RemoveStale)] + Acquire(pid));
            && end.Some? && end.value.lock == RecordOf(s, pid)
            && pid in end.value.processes && end.value.processes[pid].phase == Holding
  {
    var t := Step(s, pid, RemoveStale).value;
    OneThen(s, pid, RemoveStale, Acquire(pid));
    AcquireAlone(t, pid);
  }

  /** An owner releases the lock, and a process that has lost it to another token releases nothing. */
  lemma ReleaseAlone(s: State, pid: nat)
    requires !Dead(s, pid) && s.processes[pid].phase == Holding
    ensures var lost := VisibleOwner(s).Some? && VisibleOwner(s).value.token != s.processes[pid].token;
            var end := Run(s, [(pid, BeginRelease)] + if lost then [] else [(pid, FinishRelease)]);
            && end.Some? && pid in end.value.processes && end.value.processes[pid].phase == Finished
            && end.value.lock == if lost then s.lock else None
  {
    var lost := VisibleOwner(s).Some? && VisibleOwner(s).value.token != s.processes[pid].token;
    var rest := if lost then [] else [(pid, FinishRelease)];
    var t := Step(s, pid, BeginRelease).value;
    OneThen(s, pid, BeginRelease, rest);
    if !lost {
      OneThen(t, pid, FinishRelease, []);
      assert rest + [] == rest;
    }
  }

  /** Under the invariant an owner never has lost its lock, so its release frees it. */
  lemma OwnersRelease(s: State, pid: nat)
    requires Inv(s) && !Dead(s, pid) && s.processes[pid].phase == Holding
    ensures var end := Run(s, [(pid, BeginRelease), (pid, FinishRelease)]);
            end.Some? && end.value.lock == None && Unowned(end.value)
  {
    ReleaseAlone(s, pid);
    InvExcludes(s);
    assert s.lock == RecordOf(s, pid);
    assert [(pid, BeginRelease)] + [(pid, FinishRelease)] == [(pid, BeginRelease), (pid, FinishRelease)];
    var t := Step(s, pid, BeginRelease).value;
    var end := Step(t, pid, FinishRelease).value;
    OneThen(s, pid, BeginRelease, [(pid, FinishRelease)]);
    OneThen(t, pid, FinishRelease, []);
    assert [(pid, FinishRelease)] + [] == [(pid, FinishRelease)];
    assert forall q | q in s.processes && q != pid :: end.processes[q] == s.processes[q];
  }
}
