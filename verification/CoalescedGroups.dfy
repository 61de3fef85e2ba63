/** What coalescing joins: the events of a stream fall into groups, each of which leaves the coalescer as one event. The
    groups do not mention the buffers, and there is one way only to form them. */
module CoalescedGroups {
  import opened Coalescer
  import opened Pieces

  predicate IsDelta<O>(action: Action<O>, kind: DeltaKind) {
    action.Pushed? && action.event.Run? && action.event.kind == kind
  }

  /** Deltas of one kind. */
  predicate OfKind<O>(group: seq<Action<O>>, kind: DeltaKind) {
    group != [] && forall i | 0 <= i < |group| :: IsDelta(group[i], kind)
  }

  /** The bytes of all deltas in order. */
  function Bytes<O>(group: seq<Action<O>>): seq<byte> {
    if group == [] then []
    else
      match group[|group| - 1]
      case Pushed(Run(_, delta)) => Bytes(group[..|group| - 1]) + delta
      case _ => Bytes(group[..|group| - 1])
  }

  /** Deltas of one kind that stay below the threshold until the last of them, or a single flush or other event. */
  ghost predicate IsGroup<O>(maxBytes: nat, group: seq<Action<O>>) {
    || (&& (OfKind(group, Text) || OfKind(group, Reasoning))
        && forall m | 0 < m < |group| :: |Bytes(group[..m])| < maxBytes)
    || (|group| == 1 && !IsDelta(group[0], Text) && !IsDelta(group[0], Reasoning))
  }

  /** A group of deltas ends before another one of its kind only when it has reached the threshold. */
  ghost predicate Ends<O>(maxBytes: nat, group: seq<Action<O>>, next: seq<Action<O>>) {
    forall kind | OfKind(group, kind) && OfKind(next, kind) :: |Bytes(group)| >= maxBytes
  }

  ghost predicate Grouped<O>(maxBytes: nat, groups: seq<seq<Action<O>>>) {
    && (forall i | 0 <= i < |groups| :: IsGroup(maxBytes, groups[i]))
    && forall i, j | 0 <= i < j < |groups| && j == i + 1 :: Ends(maxBytes, groups[i], groups[j])
  }

  /** What leaves the coalescer for a group: nothing for a flush or for deltas without bytes, otherwise one event. */
  function Outcome<O>(group: seq<Action<O>>): seq<Event<O>> {
    if group == [] || group[0].Flushed? then []
    else
      match group[0].event
      case Mark(event) => [Mark(event)]
      case Run(kind, _) => if Bytes(group) == [] then [] else [Run(kind, Bytes(group))]
  }

  function Joined<O>(groups: seq<seq<Action<O>>>): seq<Action<O>> {
    if groups == [] then [] else groups[0] + Joined(groups[1..])
  }

  function Outcomes<O>(groups: seq<seq<Action<O>>>): seq<Event<O>> {
    if groups == [] then [] else Outcomes(groups[..|groups| - 1]) + Outcome(groups[|groups| - 1])
  }

  // ----- The groups of a run -----

  lemma {:induction false} JoinedSnoc<O>(groups: seq<seq<Action<O>>>, group: seq<Action<O>>)
    ensures Joined(groups + [group]) == Joined(groups) + group
  {
    if groups == [] {
      assert (groups + [group])[1..] == [];
    } else {
      assert (groups + [group])[1..] == groups[1..] + [group];
      JoinedSnoc(groups[1..], group);
    }
  }

  function HeldOf<O>(open: seq<Action<O>>): Held {
    if open == [] then EMPTY
    else if IsDelta(open[0], Text) then Held(Bytes(open), []) else Held([], Bytes(open))
  }

  function Closed<O>(groups: seq<seq<Action<O>>>, open: seq<Action<O>>): seq<seq<Action<O>>> {
    if open == [] then groups else groups + [open]
  }

  /** A group that is not open any more: another one of its kind may follow. */
  ghost predicate Complete<O>(maxBytes: nat, group: seq<Action<O>>) {
    forall kind | OfKind(group, kind) :: |Bytes(group)| >= maxBytes
  }

  /** The run so far: groups that have left, and a last one that is still buffered. */
  ghost predicate Reached<O>(maxBytes: nat, groups: seq<seq<Action<O>>>, open: seq<Action<O>>) {
    && Grouped(maxBytes, Closed(groups, open))
    && (open != [] ==> (OfKind(open, Text) || OfKind(open, Reasoning)) && |Bytes(open)| < maxBytes)
    && (open == [] && groups != [] ==> Complete(maxBytes, groups[|groups| - 1]))
  }

  lemma GroupedSnoc<O>(maxBytes: nat, groups: seq<seq<Action<O>>>, group: seq<Action<O>>)
    requires Grouped(maxBytes, groups) && IsGroup(maxBytes, group)
    requires groups != [] ==> Ends(maxBytes, groups[|groups| - 1], group)
    ensures Grouped(maxBytes, groups + [group])
  {
    hide IsGroup, Ends;
  }

  lemma GroupedFront<O>(maxBytes: nat, groups: seq<seq<Action<O>>>, group: seq<Action<O>>)
    requires Grouped(maxBytes, groups + [group])
    ensures Grouped(maxBytes, groups) && IsGroup(maxBytes, group)
    ensures groups != [] ==> Ends(maxBytes, groups[|groups| - 1], group)
  {
    hide IsGroup, Ends;
    var all := groups + [group];
    assert all[|groups|] == group && IsGroup(maxBytes, all[|groups|]);
    assert forall i | 0 <= i < |groups| :: all[i] == groups[i] && IsGroup(maxBytes, all[i]);
    forall i, j | 0 <= i < j < |groups| && j == i + 1
      ensures Ends(maxBytes, groups[i], groups[j])
    {
      assert Ends(maxBytes, all[i], all[j]);
    }
    if groups != [] { assert Ends(maxBytes, all[|groups| - 1], all[|groups|]); }
  }

  lemma BytesSnoc<O>(group: seq<Action<O>>, action: Action<O>)
    ensures Bytes(group + [action]) ==
            Bytes(group) + if action.Pushed? && action.event.Run? then action.event.body else []
  {
    assert (group + [action])[..|group|] == group;
  }

  /** A delta that goes on in the group that is open, or starts one. */
  lemma Extended<O>(maxBytes: nat, open: seq<Action<O>>, action: Action<O>, kind: DeltaKind)
    requires IsDelta(action, kind)
    requires open != [] ==> OfKind(open, kind) && IsGroup(maxBytes, open) && |Bytes(open)| < maxBytes
    ensures IsGroup(maxBytes, open + [action]) && OfKind(open + [action], kind)
  {
    var more := open + [action];
    forall m | 0 < m < |more|
      ensures |Bytes(more[..m])| < maxBytes
    {
      if m < |open| { assert more[..m] == open[..m]; } else { assert more[..m] == open; }
    }
  }

  /** Closing the open group. */
  lemma CloseOpen<O>(maxBytes: nat, groups: seq<seq<Action<O>>>, open: seq<Action<O>>)
    requires Reached(maxBytes, groups, open)
    ensures var closed := Closed(groups, open);
            && Grouped(maxBytes, closed)
            && Outcomes(closed) == Outcomes(groups) + FlushEffect(HeldOf(open))
            && Joined(closed) == Joined(groups) + open
  {
    if open == [] {
      assert Joined(groups) + open == Joined(groups);
    } else {
      JoinedSnoc(groups, open);
      assert (groups + [open])[..|groups|] == groups;
      assert IsDelta(open[0], Text) || IsDelta(open[0], Reasoning);
      assert Outcome(open) == FlushEffect(HeldOf(open));
    }
  }

  lemma OutcomesSnoc<O>(groups: seq<seq<Action<O>>>, group: seq<Action<O>>)
    ensures Outcomes(groups + [group]) == Outcomes(groups) + Outcome(group)
    ensures Joined(groups + [group]) == Joined(groups) + group
  {
    assert (groups + [group])[..|groups|] == groups;
    JoinedSnoc(groups, group);
  }

  lemma DeltaEffect<O>(maxBytes: nat, open: seq<Action<O>>, action: Action<O>, kind: DeltaKind)
    requires IsDelta(action, kind) && (open != [] ==> OfKind(open, kind))
    ensures var more := open + [action];
            Act(maxBytes, HeldOf(open), action) ==
            if |Bytes(more)| >= maxBytes then (EMPTY, Outcome(more)) else (HeldOf(more), [])
  {
    BytesSnoc(open, action);
    var more := open + [action];
    if open != [] { assert IsDelta(open[0], kind); }
    assert [] + action.event.body == action.event.body;
    assert IsDelta(more[0], kind);
    assert Outcome(more) == Emit<O>(kind, Bytes(more));
    assert forall events: seq<Event<O>> :: [] + events == events;
  }

  /** A delta that goes on where the run is. */
  lemma DeltaGoesOn<O>(maxBytes: nat, groups: seq<seq<Action<O>>>, open: seq<Action<O>>, action: Action<O>,
                       kind: DeltaKind)
    returns (nextGroups: seq<seq<Action<O>>>, nextOpen: seq<Action<O>>)
    requires Reached(maxBytes, groups, open) && IsDelta(action, kind) && (open != [] ==> OfKind(open, kind))
    ensures Reached(maxBytes, nextGroups, nextOpen)
    ensures Joined(nextGroups) + nextOpen == Joined(groups) + open + [action]
    ensures var (held, out) := Act(maxBytes, HeldOf(open), action);
            held == HeldOf(nextOpen) && Outcomes(nextGroups) == Outcomes(groups) + out
  {
    hide Act, HeldOf, Outcome, Outcomes, Joined, Bytes;
    var more := open + [action];
    if open != [] { GroupedFront(maxBytes, groups, open); }
    Extended(maxBytes, open, action, kind);
    assert groups != [] ==> Ends(maxBytes, groups[|groups| - 1], more) by {
      if groups != [] && open != [] { EndsLater(maxBytes, groups[|groups| - 1], open, action, kind); }
    }
    GroupedSnoc(maxBytes, groups, more);
    DeltaEffect(maxBytes, open, action, kind);
    NothingOpen<O>();
    OutcomesSnoc(groups, more);
    hide Grouped, IsGroup, Ends;
    if |Bytes(more)| >= maxBytes {
      nextGroups, nextOpen := groups + [more], [];
      assert Joined(nextGroups) + [] == Joined(groups) + more == Joined(groups) + open + [action];
    } else {
      nextGroups, nextOpen := groups, more;
      assert Joined(groups) + more == Joined(groups) + open + [action];
    }
  }

  lemma EndsLater<O>(maxBytes: nat, group: seq<Action<O>>, open: seq<Action<O>>, action: Action<O>, kind: DeltaKind)
    requires Ends(maxBytes, group, open) && OfKind(open, kind)
    ensures Ends(maxBytes, group, open + [action])
  {
    forall other | OfKind(group, other) && OfKind(open + [action], other)
      ensures |Bytes(group)| >= maxBytes
    {
      assert (open + [action])[0] == open[0];
      assert OfKind(open, other);
    }
  }

  lemma SingleEffect<O>(maxBytes: nat, open: seq<Action<O>>, action: Action<O>)
    requires !IsDelta(action, Text) && !IsDelta(action, Reasoning)
    ensures Act(maxBytes, HeldOf(open), action) == (EMPTY, FlushEffect(HeldOf(open)) + Outcome([action]))
  {
    match action
    case Flushed => assert FlushEffect<O>(HeldOf(open)) + [] == FlushEffect<O>(HeldOf(open));
    case Pushed(event) => assert event.Mark? && Outcome([action]) == [event];
  }

  /** A flush or another event, behind the open group. */
  lemma SingleGoesOn<O>(maxBytes: nat, groups: seq<seq<Action<O>>>, open: seq<Action<O>>, action: Action<O>)
    returns (nextGroups: seq<seq<Action<O>>>)
    requires Reached(maxBytes, groups, open) && !IsDelta(action, Text) && !IsDelta(action, Reasoning)
    ensures Reached(maxBytes, nextGroups, [])
    ensures Joined(nextGroups) == Joined(groups) + open + [action]
    ensures var (held, out) := Act(maxBytes, HeldOf(open), action);
            held == EMPTY && Outcomes(nextGroups) == Outcomes(groups) + out
  {
    hide Act, HeldOf, Outcome, Outcomes, Joined, Bytes, FlushEffect;
    CloseOpen(maxBytes, groups, open);
    var closed := Closed(groups, open);
    nextGroups := closed + [[action]];
    GroupedSnoc(maxBytes, closed, [action]);
    SingleEffect(maxBytes, open, action);
    OutcomesSnoc(closed, [action]);
    hide Grouped, IsGroup, Ends;
  }

  /** A delta of the other kind, behind the open group. */
  lemma OtherDeltaGoesOn<O>(maxBytes: nat, groups: seq<seq<Action<O>>>, open: seq<Action<O>>, action: Action<O>,
                            kind: DeltaKind, other: DeltaKind)
    returns (nextGroups: seq<seq<Action<O>>>, nextOpen: seq<Action<O>>)
    requires Reached(maxBytes, groups, open) && IsDelta(action, kind) && OfKind(open, other) && other != kind
    ensures Reached(maxBytes, nextGroups, nextOpen)
    ensures Joined(nextGroups) + nextOpen == Joined(groups) + open + [action]
    ensures var (held, out) := Act(maxBytes, HeldOf(open), action);
            held == HeldOf(nextOpen) && Outcomes(nextGroups) == Outcomes(groups) + out
  {
    hide Act, HeldOf, Outcome, Outcomes, Joined, Bytes, FlushEffect;
    CloseOpen(maxBytes, groups, open);
    var closed := Closed(groups, open);
    Extended(maxBytes, [], action, kind);
    assert [] + [action] == [action];
    OtherKind(maxBytes, open, [action], other, kind);
    GroupedSnoc(maxBytes, closed, [action]);
    OtherEffect(maxBytes, open, action, kind, other);
    NothingOpen<O>();
    OutcomesSnoc(closed, [action]);
    hide Grouped, IsGroup, Ends;
    if |Bytes([action])| >= maxBytes {
      nextGroups, nextOpen := closed + [[action]], [];
      assert Joined(nextGroups) + [] == Joined(closed) + [action];
    } else {
      nextGroups, nextOpen := closed, [action];
    }
  }

  lemma OtherKind<O>(maxBytes: nat, group: seq<Action<O>>, next: seq<Action<O>>, kind: DeltaKind, other: DeltaKind)
    requires OfKind(group, kind) && OfKind(next, other) && kind != other
    ensures Ends(maxBytes, group, next)
  {
    assert IsDelta(group[0], kind) && IsDelta(next[0], other);
  }

  lemma OtherEffect<O>(maxBytes: nat, open: seq<Action<O>>, action: Action<O>, kind: DeltaKind, other: DeltaKind)
    requires IsDelta(action, kind) && OfKind(open, other) && other != kind
    ensures var (held, out) := Act(maxBytes, HeldOf(open), action);
            if |Bytes([action])| >= maxBytes
            then held == EMPTY && out == FlushEffect(HeldOf(open)) + Outcome([action])
            else held == HeldOf([action]) && out == FlushEffect(HeldOf(open))
  {
    BytesSnoc([], action);
    assert [] + [action] == [action];
    assert IsDelta(open[0], other);
    assert [] + action.event.body == action.event.body;
  }

  lemma {:induction false} RunReaches<O>(maxBytes: nat, actions: seq<Action<O>>)
    returns (groups: seq<seq<Action<O>>>, open: seq<Action<O>>)
    ensures Reached(maxBytes, groups, open) && Joined(groups) + open == actions
    ensures RunAll(maxBytes, EMPTY, actions) == (HeldOf(open), Outcomes(groups))
  {
    if actions == [] {
      groups, open := [], [];
    } else {
      var front, last := actions[..|actions| - 1], actions[|actions| - 1];
      assert front + [last] == actions;
      RunAllSnoc(maxBytes, front, last);
      hide Act, Outcomes, Joined, Reached, HeldOf, IsDelta, OfKind, RunAll;
      var before, beforeOpen := RunReaches(maxBytes, front);
      groups, open := GoesOn(maxBytes, before, beforeOpen, last);
    }
  }

  lemma RunAllSnoc<O>(maxBytes: nat, actions: seq<Action<O>>, action: Action<O>)
    ensures var (held, out) := RunAll(maxBytes, EMPTY, actions);
            var (next, more) := Act(maxBytes, held, action);
            RunAll(maxBytes, EMPTY, actions + [action]) == (next, out + more)
  {
    hide Act;
    assert (actions + [action])[..|actions|] == actions;
  }

  lemma GoesOn<O>(maxBytes: nat, groups: seq<seq<Action<O>>>, open: seq<Action<O>>, action: Action<O>)
    returns (nextGroups: seq<seq<Action<O>>>, nextOpen: seq<Action<O>>)
    requires Reached(maxBytes, groups, open)
    ensures Reached(maxBytes, nextGroups, nextOpen)
    ensures Joined(nextGroups) + nextOpen == Joined(groups) + open + [action]
    ensures var (held, out) := Act(maxBytes, HeldOf(open), action);
            held == HeldOf(nextOpen) && Outcomes(nextGroups) == Outcomes(groups) + out
  {
    hide Act, Outcomes, Joined, Reached, HeldOf, IsDelta, OfKind;
    var kind, other := Text, Reasoning;
    if IsDelta(action, Reasoning) { kind, other := Reasoning, Text; }
    OpenIsOfAKind(maxBytes, groups, open);
    if !IsDelta(action, kind) {
      NoDelta(action);
      nextGroups := SingleGoesOn(maxBytes, groups, open, action);
      nextOpen := [];
      NothingOpen<O>();
      assert Joined(nextGroups) + [] == Joined(nextGroups);
    } else if open == [] || OfKind(open, kind) {
      nextGroups, nextOpen := DeltaGoesOn(maxBytes, groups, open, action, kind);
    } else {
      nextGroups, nextOpen := OtherDeltaGoesOn(maxBytes, groups, open, action, kind, other);
    }
  }

  lemma NoDelta<O>(action: Action<O>)
    ensures IsDelta(action, Text) ==> !IsDelta(action, Reasoning)
  {
  }

  lemma NothingOpen<O>()
    ensures HeldOf<O>([]) == EMPTY
  {
  }

  lemma OpenIsOfAKind<O>(maxBytes: nat, groups: seq<seq<Action<O>>>, open: seq<Action<O>>)
    requires Reached(maxBytes, groups, open)
    ensures open != [] ==> OfKind(open, Text) || OfKind(open, Reasoning)
  {
  }

  /** Main result: for every sequence of calls, what is returned with a final drain is one event for each of its
      groups. */
  lemma RunsInGroups<O>(maxBytes: nat, actions: seq<Action<O>>) returns (groups: seq<seq<Action<O>>>)
    ensures Grouped(maxBytes, groups) && Joined(groups) == actions
    ensures var (held, out) := RunAll(maxBytes, EMPTY, actions); out + FlushEffect(held) == Outcomes(groups)
  {
    var closed, open := RunReaches(maxBytes, actions);
    CloseOpen(maxBytes, closed, open);
    groups := Closed(closed, open);
  }

  // ----- There is one way to group -----

  /** A group that goes on behind its first actions was below the threshold there, and goes on in their kind. */
  lemma GoesOnBelow<O>(maxBytes: nat, group: seq<Action<O>>, n: nat)
    requires IsGroup(maxBytes, group) && 0 < n < |group|
    ensures |Bytes(group[..n])| < maxBytes
    ensures exists kind :: OfKind(group[..n], kind) && IsDelta(group[n], kind)
  {
    var kind := if OfKind(group, Text) then Text else Reasoning;
    assert OfKind(group[..n], kind) && IsDelta(group[n], kind);
  }

  /** A first group that is followed by a delta of its kind has reached the threshold. */
  lemma FullBeforeDelta<O>(maxBytes: nat, groups: seq<seq<Action<O>>>, kind: DeltaKind)
    requires Grouped(maxBytes, groups) && groups != [] && OfKind(groups[0], kind)
    requires |groups[0]| < |Joined(groups)| && IsDelta(Joined(groups)[|groups[0]|], kind)
    ensures |Bytes(groups[0])| >= maxBytes
  {
    assert Joined(groups) == groups[0] + Joined(groups[1..]);
    assert groups[1..] != [] && IsGroup(maxBytes, groups[1]);
    assert Joined(groups[1..]) == groups[1] + Joined(groups[1..][1..]);
    assert groups[1][0] == Joined(groups)[|groups[0]|];
    assert OfKind(groups[1], kind);
    FullBeforeItsKind(maxBytes, groups, kind);
  }

  lemma FirstNotShorter<O>(maxBytes: nat, a: seq<seq<Action<O>>>, b: seq<seq<Action<O>>>)
    requires Grouped(maxBytes, a) && Grouped(maxBytes, b) && Joined(a) == Joined(b) && a != [] && b != []
    ensures |a[0]| >= |b[0]|
  {
    var g, h, n := a[0], b[0], |a[0]|;
    assert IsGroup(maxBytes, g) && IsGroup(maxBytes, h);
    assert Joined(a) == g + Joined(a[1..]) && Joined(b) == h + Joined(b[1..]);
    assert Joined(a)[..n] == g && Joined(b)[..|h|] == h;
    if n < |h| {
      assert h[..n] == g && Joined(a)[n] == h[n];
      GoesOnBelow(maxBytes, h, n);
      var kind :| OfKind(h[..n], kind) && IsDelta(h[n], kind);
      FullBeforeDelta(maxBytes, a, kind);
    }
  }

  lemma FullBeforeItsKind<O>(maxBytes: nat, groups: seq<seq<Action<O>>>, kind: DeltaKind)
    requires Grouped(maxBytes, groups) && |groups| > 1 && OfKind(groups[0], kind) && OfKind(groups[1], kind)
    ensures |Bytes(groups[0])| >= maxBytes
  {
    assert Ends(maxBytes, groups[0], groups[1]);
  }

  lemma JoinedEmpty<O>(maxBytes: nat, groups: seq<seq<Action<O>>>)
    requires Grouped(maxBytes, groups)
    ensures Joined(groups) == [] <==> groups == []
  {
    if groups != [] { assert IsGroup(maxBytes, groups[0]); }
  }

  /** A sequence of calls falls into groups in one way only, so these determine what is returned. */
  lemma {:induction false} GroupsUnique<O>(maxBytes: nat, a: seq<seq<Action<O>>>, b: seq<seq<Action<O>>>)
    requires Grouped(maxBytes, a) && Grouped(maxBytes, b) && Joined(a) == Joined(b)
    ensures a == b
  {
    if a == [] || b == [] {
      JoinedEmpty(maxBytes, a);
      JoinedEmpty(maxBytes, b);
    } else {
      FirstNotShorter(maxBytes, a, b);
      FirstNotShorter(maxBytes, b, a);
      assert a[0] == Joined(a)[..|a[0]|] == b[0];
      assert Joined(a[1..]) == Joined(a)[|a[0]|..] == Joined(b[1..]);
      RestGrouped(maxBytes, a);
      RestGrouped(maxBytes, b);
      GroupsUnique(maxBytes, a[1..], b[1..]);
      assert a == [a[0]] + a[1..] && b == [b[0]] + b[1..];
    }
  }

  lemma RestGrouped<O>(maxBytes: nat, groups: seq<seq<Action<O>>>)
    requires Grouped(maxBytes, groups) && groups != []
    ensures Grouped(maxBytes, groups[1..])
  {
    hide IsGroup, Ends;
    var rest := groups[1..];
    assert forall i | 0 <= i < |rest| :: rest[i] == groups[i + 1] && IsGroup(maxBytes, groups[i + 1]);
    forall i, j | 0 <= i < j < |rest| && j == i + 1
      ensures Ends(maxBytes, rest[i], rest[j])
    {
      assert Ends(maxBytes, groups[i + 1], groups[j + 1]);
    }
  }

  // ----- What this means for the events -----

  /** Deltas of one kind that stay below the threshold together return nothing; all of them are buffered. */
  lemma {:induction false} SmallDeltasStay<O>(maxBytes: nat, deltas: seq<Action<O>>, kind: DeltaKind)
    requires OfKind(deltas, kind) && |Bytes(deltas)| < maxBytes
    ensures RunAll(maxBytes, EMPTY, deltas) == (HeldOf(deltas), [])
  {
    var front, last := deltas[..|deltas| - 1], deltas[|deltas| - 1];
    assert deltas == front + [last];
    BytesSnoc(front, last);
    if front == [] {
      NothingOpen<O>();
      assert RunAll<O>(maxBytes, EMPTY, front) == (EMPTY, []);
    } else {
      SmallDeltasStay(maxBytes, front, kind);
    }
    DeltaEffect(maxBytes, front, last, kind);
  }

  predicate WithBytes<O>(action: Action<O>) {
    action.Pushed? && (action.event.Run? ==> action.event.body != [])
  }

  lemma {:induction false} SomeBytes<O>(group: seq<Action<O>>, kind: DeltaKind)
    requires OfKind(group, kind) && forall i | 0 <= i < |group| :: WithBytes(group[i])
    ensures Bytes(group) != []
  {
    assert IsDelta(group[|group| - 1], kind);
  }

  /** The group leaves as this event, which has the kind and the bytes of its deltas. */
  ghost predicate Leaves<O>(group: seq<Action<O>>, event: Event<O>) {
    && Outcome(group) == [event]
    && (event.Run? ==> OfKind(group, event.kind) && event.body == Bytes(group))
  }

  ghost predicate AllWithBytes<O>(actions: seq<Action<O>>) {
    forall i | 0 <= i < |actions| :: WithBytes(actions[i])
  }

  lemma PartsWithBytes<O>(a: seq<Action<O>>, b: seq<Action<O>>)
    requires AllWithBytes(a + b)
    ensures AllWithBytes(a) && AllWithBytes(b)
  {
    assert forall i | 0 <= i < |a| :: a[i] == (a + b)[i] && WithBytes((a + b)[i]);
    assert forall i | 0 <= i < |b| :: b[i] == (a + b)[|a| + i] && WithBytes((a + b)[|a| + i]);
  }

  /** Without empty deltas and flushes each group leaves as one event. */
  lemma {:induction false} OneEventEach<O>(maxBytes: nat, groups: seq<seq<Action<O>>>)
    requires Grouped(maxBytes, groups) && AllWithBytes(Joined(groups))
    ensures |Outcomes(groups)| == |groups|
    ensures forall i | 0 <= i < |groups| :: Leaves(groups[i], Outcomes(groups)[i])
  {
    hide Leaves, AllWithBytes, Joined, Outcome, IsGroup;
    if groups != [] {
      var front, last := groups[..|groups| - 1], groups[|groups| - 1];
      assert groups == front + [last];
      JoinedSnoc(front, last);
      GroupedFront(maxBytes, front, last);
      PartsWithBytes(Joined(front), last);
      OneEventEach(maxBytes, front);
      OneEvent(maxBytes, last);
      assert Outcomes(groups) == Outcomes(front) + Outcome(last);
    }
  }

  lemma OneEvent<O>(maxBytes: nat, group: seq<Action<O>>)
    requires IsGroup(maxBytes, group) && AllWithBytes(group)
    ensures |Outcome(group)| == 1 && Leaves(group, Outcome(group)[0])
  {
    assert WithBytes(group[0]);
    if OfKind(group, Text) {
      SomeBytes(group, Text);
      assert IsDelta(group[0], Text);
    } else if OfKind(group, Reasoning) {
      SomeBytes(group, Reasoning);
      assert IsDelta(group[0], Reasoning);
    }
  }

  /** In a batch without empty deltas, a delta that is directly followed by another of its kind has reached the
      threshold. */
  lemma NeighboursAreFull<O>(maxBytes: nat, events: seq<Event<O>>)
    requires forall i | 0 <= i < |events| && events[i].Run? :: events[i].body != []
    ensures var (held, out) := RunAll(maxBytes, EMPTY, Pushes(events));
            var r := out + FlushEffect(held);
            forall i, j | 0 <= i < j < |r| && j == i + 1 && r[i].Run? && r[j].Run? && r[i].kind == r[j].kind ::
              |r[i].body| >= maxBytes
  {
    PushesPointwise(events);
    var groups := RunsInGroups(maxBytes, Pushes(events));
    hide RunAll, IsGroup, FlushEffect, Outcomes, Joined;
    assert AllWithBytes(Pushes(events));
    OneEventEach(maxBytes, groups);
    var r := Outcomes(groups);
    forall i, j | 0 <= i < j < |r| && j == i + 1 && r[i].Run? && r[j].Run? && r[i].kind == r[j].kind
      ensures |r[i].body| >= maxBytes
    {
      assert Leaves(groups[i], r[i]) && Leaves(groups[j], r[j]);
      assert Ends(maxBytes, groups[i], groups[j]);
    }
  }

  lemma {:induction false} PushesPointwise<O>(events: seq<Event<O>>)
    ensures |Pushes(events)| == |events|
    ensures forall i | 0 <= i < |events| :: Pushes(events)[i] == Pushed(events[i])
  {
    if events != [] { PushesPointwise(events[..|events| - 1]); }
  }

  /** An empty delta of the other kind keeps two small ones apart, although it leaves no event itself. */
  lemma EmptyDeltaSeparates<O>(maxBytes: nat, a: byte, b: byte)
    requires maxBytes > 1
    ensures var events: seq<Event<O>> := [Run(Text, [a]), Run(Reasoning, []), Run(Text, [b])];
            var (held, out) := RunAll(maxBytes, EMPTY, Pushes(events));
            out + FlushEffect(held) == [Run(Text, [a]), Run(Text, [b])]
  {
    var x: Event<O>, y: Event<O>, z: Event<O> := Run(Text, [a]), Run(Reasoning, []), Run(Text, [b]);
    var events := [x, y, z];
    RunNothing<O>(maxBytes);
    FirstDelta<O>(maxBytes, a);
    FirstDelta<O>(maxBytes, b);
    EmptyOtherDelta<O>(maxBytes, a);
    LastFlush<O>(b);
    hide RunAll, Pushes, PushEffect, FlushEffect;
    RunOneMore(maxBytes, events, 0);
    RunOneMore(maxBytes, events, 1);
    RunOneMore(maxBytes, events, 2);
    assert events[..0] == [] && events[..3] == events;
    var none: seq<Event<O>> := [];
    assert none + none + [x] + none == [x];
    assert [x] + [z] == [x, z];
  }

  lemma LastFlush<O>(b: byte)
    ensures FlushEffect<O>(Held([b], [])) == [Run(Text, [b])]
  {
  }

  lemma EmptyOtherDelta<O>(maxBytes: nat, a: byte)
    requires maxBytes > 1
    ensures PushEffect<O>(maxBytes, Held([a], []), Run(Reasoning, [])) == (EMPTY, [Run(Text, [a])])
  {
    var empty: seq<byte> := [];
    assert empty + empty == empty;
    assert forall events: seq<Event<O>> :: events + [] == events;
  }

  lemma FirstDelta<O>(maxBytes: nat, a: byte)
    requires maxBytes > 1
    ensures PushEffect<O>(maxBytes, EMPTY, Run(Text, [a])) == (Held([a], []), [])
  {
    assert [] + [a] == [a];
    assert forall events: seq<Event<O>> :: [] + events == events;
  }
}
