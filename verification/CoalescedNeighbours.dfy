/** Which streams can leave the coalescer with two small neighbours of one kind. */
module CoalescedNeighbours {
  import opened CoalescedGroups
  import opened Coalescer
  import opened Pieces

  /** What all calls and a final drain return. */
  function Returned<O>(maxBytes: nat, actions: seq<Action<O>>): seq<Event<O>> {
    var (held, out) := RunAll(maxBytes, EMPTY, actions);
    out + FlushEffect(held)
  }

  /** A returned delta that is directly followed by another one of its kind has reached the threshold. */
  ghost predicate NeighboursFull<O>(maxBytes: nat, r: seq<Event<O>>) {
    forall i, j | 0 <= i < j < |r| && j == i + 1 && r[i].Run? && r[j].Run? && r[i].kind == r[j].kind ::
      |r[i].body| >= maxBytes
  }

  predicate Heard<O>(action: Action<O>, kind: DeltaKind) {
    IsDelta(action, kind) && action.event.body != []
  }

  /** A flush or an empty delta. */
  predicate Silent<O>(action: Action<O>) {
    action.Flushed? || (action.event.Run? && action.event.body == [])
  }

  /** Between two deltas of a kind there is nothing but flushes and empty deltas, and one of these is not of the
      kind. */
  ghost predicate Separated<O>(actions: seq<Action<O>>, a: nat, b: nat, kind: DeltaKind) {
    && a < b < |actions| && Heard(actions[a], kind) && Heard(actions[b], kind)
    && (forall m | a < m < b :: Silent(actions[m]))
    && exists m :: a < m < b && !IsDelta(actions[m], kind)
  }

  // ----- Where a group is -----

  function Start<O>(groups: seq<seq<Action<O>>>, p: nat): nat
    requires p <= |groups|
  {
    |Joined(groups[..p])|
  }

  lemma {:induction false} JoinedParts<O>(a: seq<seq<Action<O>>>, b: seq<seq<Action<O>>>)
    ensures Joined(a + b) == Joined(a) + Joined(b)
  {
    if a == [] {
      assert a + b == b;
    } else {
      assert (a + b)[1..] == a[1..] + b;
      JoinedParts(a[1..], b);
    }
  }

  lemma StartsNext<O>(groups: seq<seq<Action<O>>>, p: nat)
    requires p < |groups|
    ensures Start(groups, p + 1) == Start(groups, p) + |groups[p]| <= |Joined(groups)|
    ensures forall k | 0 <= k < |groups[p]| ::
              Start(groups, p) + k < |Joined(groups)| && Joined(groups)[Start(groups, p) + k] == groups[p][k]
  {
    var front := groups[..p];
    assert groups[..p + 1] == front + [groups[p]];
    JoinedSnoc(front, groups[p]);
    assert groups == groups[..p + 1] + groups[p + 1..];
    JoinedParts(groups[..p + 1], groups[p + 1..]);
    hide Joined;
    var all := Joined(groups);
    assert all == Joined(front) + groups[p] + Joined(groups[p + 1..]);
  }

  lemma {:induction false} StartsInOrder<O>(groups: seq<seq<Action<O>>>, p: nat, q: nat)
    requires p <= q <= |groups|
    ensures Start(groups, p) <= Start(groups, q)
    decreases q - p
  {
    hide Start;
    if p < q {
      StartsNext(groups, p);
      StartsInOrder(groups, p + 1, q);
    }
  }

  /** The group in which an action is. */
  lemma {:induction false} Locate<O>(groups: seq<seq<Action<O>>>, n: nat, k: nat) returns (p: nat)
    requires n <= |groups| && k < Start(groups, n)
    ensures p < n && Start(groups, p) <= k < Start(groups, p + 1)
  {
    assert Start(groups, 0) == 0 by { assert groups[..0] == []; }
    hide Start;
    if k < Start(groups, n - 1) { p := Locate(groups, n - 1, k); } else { p := n - 1; }
  }

  // ----- Which groups leave an event -----

  lemma {:induction false} OutcomesParts<O>(a: seq<seq<Action<O>>>, b: seq<seq<Action<O>>>)
    ensures Outcomes(a + b) == Outcomes(a) + Outcomes(b)
  {
    hide Outcome;
    if b == [] {
      assert a + b == a;
    } else {
      assert (a + b)[..|a + b| - 1] == a + b[..|b| - 1];
      OutcomesParts(a, b[..|b| - 1]);
    }
  }

  lemma {:induction false} BytesParts<O>(a: seq<Action<O>>, b: seq<Action<O>>)
    ensures Bytes(a + b) == Bytes(a) + Bytes(b)
  {
    if b == [] {
      assert a + b == a;
    } else {
      assert (a + b)[..|a + b| - 1] == a + b[..|b| - 1];
      BytesParts(a, b[..|b| - 1]);
    }
  }

  lemma {:induction false} NoBytesIff<O>(group: seq<Action<O>>, kind: DeltaKind)
    requires group == [] || OfKind(group, kind)
    ensures Bytes(group) == [] <==> forall k | 0 <= k < |group| :: Silent(group[k])
  {
    if group != [] {
      var front, last := group[..|group| - 1], group[|group| - 1];
      assert group == front + [last];
      NoBytesIff(front, kind);
      BytesSnoc(front, last);
      assert IsDelta(last, kind);
      assert (forall k | 0 <= k < |group| :: Silent(group[k])) <==>
             (forall k | 0 <= k < |front| :: Silent(front[k])) && Silent(last);
    }
  }

  /** A group leaves no event, or the one of its kind. */
  lemma OutcomeIff<O>(maxBytes: nat, group: seq<Action<O>>)
    requires IsGroup(maxBytes, group)
    ensures group != [] && |Outcome(group)| <= 1
    ensures Outcome(group) == [] <==> forall k | 0 <= k < |group| :: Silent(group[k])
    ensures forall kind :: (exists k :: 0 <= k < |group| && IsDelta(group[k], kind)) <==> OfKind(group, kind)
    ensures forall kind :: OfKind(group, kind) && Outcome(group) != [] ==> Outcome(group) == [Run(kind, Bytes(group))]
    ensures Outcome(group) != [] && Outcome(group)[0].Run? ==> OfKind(group, Outcome(group)[0].kind)
  {
    if OfKind(group, Text) {
      NoBytesIff(group, Text);
      assert IsDelta(group[0], Text);
    } else if OfKind(group, Reasoning) {
      NoBytesIff(group, Reasoning);
      assert IsDelta(group[0], Reasoning);
    }
    hide Bytes;
  }

  lemma {:induction false} SilentGroups<O>(groups: seq<seq<Action<O>>>)
    ensures Outcomes(groups) == [] <==> forall j | 0 <= j < |groups| :: Outcome(groups[j]) == []
  {
    hide Outcome;
    if groups != [] {
      var front, last := groups[..|groups| - 1], groups[|groups| - 1];
      SilentGroups(front);
      assert (forall j | 0 <= j < |groups| :: Outcome(groups[j]) == []) <==>
             (forall j | 0 <= j < |front| :: Outcome(front[j]) == []) && Outcome(last) == [];
    }
  }

  /** Number of events that the first groups leave. */
  function Left<O>(groups: seq<seq<Action<O>>>, p: nat): nat
    requires p <= |groups|
  {
    |Outcomes(groups[..p])|
  }

  lemma LeftBetween<O>(groups: seq<seq<Action<O>>>, p: nat, q: nat)
    requires p <= q <= |groups|
    ensures Left(groups, q) == Left(groups, p) + |Outcomes(groups[p..q])|
    ensures Left(groups, q) <= |Outcomes(groups)|
    ensures Outcomes(groups[p..q]) != [] ==> Outcomes(groups)[Left(groups, p)] == Outcomes(groups[p..q])[0]
  {
    hide Outcomes;
    OutcomesOfThree(groups, p, q);
  }

  lemma OutcomesOfThree<O>(groups: seq<seq<Action<O>>>, p: nat, q: nat)
    requires p <= q <= |groups|
    ensures Outcomes(groups[..q]) == Outcomes(groups[..p]) + Outcomes(groups[p..q])
    ensures Outcomes(groups) == Outcomes(groups[..p]) + Outcomes(groups[p..q]) + Outcomes(groups[q..])
  {
    hide *;
    CutTwice(groups, p, q);
    OutcomesParts(groups[..p], groups[p..q]);
    OutcomesParts(groups[..q], groups[q..]);
  }

  lemma CutTwice<T>(s: seq<T>, p: nat, q: nat)
    requires p <= q <= |s|
    ensures s[..q] == s[..p] + s[p..q] && s == s[..q] + s[q..]
  {
  }

  lemma LeftAlone<O>(groups: seq<seq<Action<O>>>, p: nat)
    requires p < |groups|
    ensures Outcomes(groups[p..p + 1]) == Outcome(groups[p])
  {
    hide Outcome;
    assert groups[p..p + 1] == [groups[p]] && [groups[p]][..0] == [];
    assert Outcomes([groups[p]][..0]) == [];
  }

  /** The group that leaves an event. */
  lemma {:induction false} EventOf<O>(maxBytes: nat, groups: seq<seq<Action<O>>>, n: nat, i: nat) returns (p: nat)
    requires Grouped(maxBytes, groups) && n <= |groups| && i < Left(groups, n)
    ensures p < n && Left(groups, p) == i < |Outcomes(groups)| && Outcome(groups[p]) == [Outcomes(groups)[i]]
  {
    hide *;
    NoneLeft(groups);
    EventAt(maxBytes, groups, n - 1);
    if i < Left(groups, n - 1) { p := EventOf(maxBytes, groups, n - 1, i); } else { p := n - 1; }
  }

  lemma NoneLeft<O>(groups: seq<seq<Action<O>>>)
    ensures Left(groups, 0) == 0
  {
    assert groups[..0] == [];
  }

  lemma EventAt<O>(maxBytes: nat, groups: seq<seq<Action<O>>>, p: nat)
    requires Grouped(maxBytes, groups) && p < |groups|
    ensures var i := Left(groups, p);
            && i <= Left(groups, p + 1) <= i + 1
            && (Left(groups, p + 1) == i + 1 ==>
                  i < |Outcomes(groups)| && Outcome(groups[p]) == [Outcomes(groups)[i]])
  {
    hide Left, Outcomes, Outcome, IsGroup, Silent, IsDelta, OfKind;
    OutcomeIff(maxBytes, groups[p]);
    LeftAlone(groups, p);
    LeftBetween(groups, p, p + 1);
    if Outcome(groups[p]) != [] { assert Outcomes(groups[p..p + 1])[0] == Outcome(groups[p])[0]; }
  }

  lemma WholeStart<O>(groups: seq<seq<Action<O>>>)
    ensures Start(groups, |groups|) == |Joined(groups)| && Left(groups, |groups|) == |Outcomes(groups)|
  {
    assert groups[..|groups|] == groups;
  }

  // ----- Separated deltas stay small neighbours -----

  /** The groups of two separated deltas, with groups between them that leave nothing. */
  lemma SeparatedGroups<O>(maxBytes: nat, groups: seq<seq<Action<O>>>, a: nat, b: nat, kind: DeltaKind)
    returns (p: nat, q: nat)
    requires Grouped(maxBytes, groups) && Separated(Joined(groups), a, b, kind)
    ensures p < q < |groups| && OfKind(groups[p], kind) && OfKind(groups[q], kind)
    ensures |Outcome(groups[p])| == |Outcome(groups[q])| == 1
    ensures forall j | p < j < q :: Outcome(groups[j]) == []
  {
    hide Joined, Outcome, IsGroup, OfKind, Start;
    WholeStart(groups);
    p := Locate(groups, |groups|, a);
    q := Locate(groups, |groups|, b);
    StartsNext(groups, p);
    StartsNext(groups, q);
    assert groups[p][a - Start(groups, p)] == Joined(groups)[a] && groups[q][b - Start(groups, q)] == Joined(groups)[b];
    OutcomeIff(maxBytes, groups[p]);
    OutcomeIff(maxBytes, groups[q]);
    var m :| a < m < b && !IsDelta(Joined(groups)[m], kind);
    if q <= p {
      StartsInOrder(groups, q + 1, p + 1);
      assert groups[p][m - Start(groups, p)] == Joined(groups)[m];
      OfKindMeans(groups[p], kind, m - Start(groups, p));
    }
    forall j | p < j < q
      ensures Outcome(groups[j]) == []
    {
      StartsInOrder(groups, p + 1, j);
      StartsInOrder(groups, j + 1, q);
      StartsNext(groups, j);
      OutcomeIff(maxBytes, groups[j]);
      forall k | 0 <= k < |groups[j]|
        ensures Silent(groups[j][k])
      {
        assert Joined(groups)[Start(groups, j) + k] == groups[j][k];
      }
    }
  }

  lemma OfKindMeans<O>(group: seq<Action<O>>, kind: DeltaKind, k: nat)
    requires OfKind(group, kind) && k < |group|
    ensures IsDelta(group[k], kind)
  {
  }

  lemma {:induction false} PartOfBytes<O>(groups: seq<seq<Action<O>>>, p: nat)
    requires p < |groups|
    ensures |Bytes(groups[p])| <= |Bytes(Joined(groups))|
  {
    assert groups == groups[..p] + groups[p..];
    JoinedParts(groups[..p], groups[p..]);
    assert Joined(groups[p..]) == groups[p] + Joined(groups[p..][1..]);
    BytesParts(Joined(groups[..p]), Joined(groups[p..]));
    BytesParts(groups[p], Joined(groups[p..][1..]));
  }

  lemma SeparatedStaySmall<O>(actions: seq<Action<O>>, a: nat, b: nat, kind: DeltaKind)
    requires Separated(actions, a, b, kind)
    ensures exists maxBytes :: !NeighboursFull(maxBytes, Returned(maxBytes, actions))
  {
    var maxBytes := |Bytes(actions)| + 1;
    var groups := RunsInGroups(maxBytes, actions);
    var r := Returned(maxBytes, actions);
    assert r == Outcomes(groups);
    hide Joined, Outcome, Outcomes, IsGroup, OfKind, Returned, RunAll, Bytes, Left, Silent;
    var p, q := SeparatedGroups(maxBytes, groups, a, b, kind);
    AdjacentEvents(maxBytes, groups, p, q);
    PartOfBytes(groups, p);
    OutcomeIff(maxBytes, groups[p]);
    OutcomeIff(maxBytes, groups[q]);
    hide Grouped, Separated;
    var i := Left(groups, p);
    assert r[i] == Run(kind, Bytes(groups[p])) && r[i + 1].Run? && r[i + 1].kind == kind;
    assert !NeighboursFull(maxBytes, r);
  }

  lemma AdjacentEvents<O>(maxBytes: nat, groups: seq<seq<Action<O>>>, p: nat, q: nat)
    requires Grouped(maxBytes, groups) && p < q < |groups|
    requires |Outcome(groups[p])| == |Outcome(groups[q])| == 1
    requires forall j | p < j < q :: Outcome(groups[j]) == []
    ensures var i := Left(groups, p);
            && Left(groups, q) == i + 1 < |Outcomes(groups)|
            && Outcomes(groups)[i] == Outcome(groups[p])[0] && Outcomes(groups)[i + 1] == Outcome(groups[q])[0]
  {
    hide Outcome, Outcomes, Left, Grouped;
    LeftAlone(groups, p);
    LeftAlone(groups, q);
    LeftBetween(groups, p, p + 1);
    LeftBetween(groups, p + 1, q);
    LeftBetween(groups, q, q + 1);
    SilentGroups(groups[p + 1..q]);
    assert Outcomes(groups[p..p + 1])[0] == Outcome(groups[p])[0];
    assert Outcomes(groups[q..q + 1])[0] == Outcome(groups[q])[0];
  }

  // ----- Small neighbours are separated deltas -----

  lemma {:induction false} LastHeard<O>(group: seq<Action<O>>, kind: DeltaKind) returns (k: nat)
    requires OfKind(group, kind) && exists i :: 0 <= i < |group| && !Silent(group[i])
    ensures k < |group| && Heard(group[k], kind) && forall i | k < i < |group| :: Silent(group[i])
  {
    var n := |group| - 1;
    if Silent(group[n]) { k := LastHeard(group[..n], kind); } else { k := n; }
  }

  lemma {:induction false} FirstHeard<O>(group: seq<Action<O>>, kind: DeltaKind) returns (k: nat)
    requires OfKind(group, kind) && exists i :: 0 <= i < |group| && !Silent(group[i])
    ensures k < |group| && Heard(group[k], kind) && forall i | 0 <= i < k :: Silent(group[i])
  {
    if Silent(group[0]) {
      var rest := FirstHeard(group[1..], kind);
      k := rest + 1;
      assert forall i | 0 < i < k :: group[i] == group[1..][i - 1];
    } else {
      k := 0;
    }
  }

  /** Two groups of a kind that leave events, with nothing that does between them, hold separated deltas, unless the
      first one has reached the threshold. */
  lemma SeparatedInGroups<O>(maxBytes: nat, groups: seq<seq<Action<O>>>, p: nat, q: nat, kind: DeltaKind)
    returns (a: nat, b: nat)
    requires Grouped(maxBytes, groups) && p < q < |groups| && |Bytes(groups[p])| < maxBytes
    requires OfKind(groups[p], kind) && OfKind(groups[q], kind)
    requires Outcome(groups[p]) != [] && Outcome(groups[q]) != []
    requires forall j | p < j < q :: Outcome(groups[j]) == []
    ensures Separated(Joined(groups), a, b, kind)
  {
    hide Joined, Outcome, OfKind, Start, Silent, Bytes;
    OutcomeIff(maxBytes, groups[p]);
    OutcomeIff(maxBytes, groups[q]);
    OutcomeIff(maxBytes, groups[p + 1]);
    hide IsGroup;
    var k := LastHeard(groups[p], kind);
    var l := FirstHeard(groups[q], kind);
    StartsNext(groups, p);
    StartsNext(groups, q);
    StartsNext(groups, p + 1);
    StartsInOrder(groups, p + 1, q);
    a, b := Start(groups, p) + k, Start(groups, q) + l;
    forall m | a < m < b
      ensures Silent(Joined(groups)[m])
    {
      SilentBetween(maxBytes, groups, p, q, k, l, m);
    }
    assert Ends(maxBytes, groups[p], groups[p + 1]);
    assert !OfKind(groups[p + 1], kind) && p + 1 < q;
    var other := Start(groups, p + 1);
    StartsInOrder(groups, p + 2, q);
    assert Joined(groups)[other + 0] == groups[p + 1][0] && !IsDelta(groups[p + 1][0], kind);
    assert a < other < b;
  }

  lemma SilentBetween<O>(maxBytes: nat, groups: seq<seq<Action<O>>>, p: nat, q: nat, k: nat, l: nat, m: nat)
    requires Grouped(maxBytes, groups) && p < q < |groups| && k < |groups[p]| && l < |groups[q]|
    requires forall i | k < i < |groups[p]| :: Silent(groups[p][i])
    requires forall i | 0 <= i < l :: Silent(groups[q][i])
    requires forall j | p < j < q :: Outcome(groups[j]) == []
    requires Start(groups, p) + k < m < Start(groups, q) + l
    ensures m < |Joined(groups)| && Silent(Joined(groups)[m])
  {
    hide Joined, Outcome, OfKind, Start, Silent, Bytes, IsGroup;
    WholeStart(groups);
    StartsNext(groups, q);
    var j := Locate(groups, |groups|, m);
    StartsNext(groups, j);
    StartsNext(groups, p);
    var i := m - Start(groups, j);
    assert Joined(groups)[Start(groups, j) + i] == groups[j][i];
    if j < p {
      StartsInOrder(groups, j + 1, p);
    } else if q < j {
      StartsInOrder(groups, q + 1, j);
    } else if p < j < q {
      OutcomeIff(maxBytes, groups[j]);
    }
  }

  lemma SmallAreSeparated<O>(maxBytes: nat, actions: seq<Action<O>>) returns (a: nat, b: nat, kind: DeltaKind)
    requires !NeighboursFull(maxBytes, Returned(maxBytes, actions))
    ensures Separated(actions, a, b, kind)
  {
    var groups := RunsInGroups(maxBytes, actions);
    var r := Returned(maxBytes, actions);
    assert r == Outcomes(groups);
    hide Joined, Outcome, Outcomes, IsGroup, OfKind, Returned, RunAll, Bytes, Left, Silent;
    var i, j :| 0 <= i < j < |r| && j == i + 1 && r[i].Run? && r[j].Run? && r[i].kind == r[j].kind
                && |r[i].body| < maxBytes;
    kind := r[i].kind;
    WholeStart(groups);
    var p := EventOf(maxBytes, groups, |groups|, i);
    var q := EventOf(maxBytes, groups, |groups|, j);
    OutcomeIff(maxBytes, groups[p]);
    OutcomeIff(maxBytes, groups[q]);
    SilentInBetween(groups, p, q);
    hide Grouped, NeighboursFull, Separated;
    a, b := SeparatedInGroups(maxBytes, groups, p, q, kind);
  }

  lemma SilentInBetween<O>(groups: seq<seq<Action<O>>>, p: nat, q: nat)
    requires p < |groups| && q < |groups| && Left(groups, q) == Left(groups, p) + 1
    requires |Outcome(groups[p])| == |Outcome(groups[q])| == 1
    ensures p < q && forall j | p < j < q :: Outcome(groups[j]) == []
  {
    hide Outcome, Outcomes, Left;
    if q <= p {
      LeftBetween(groups, q, p);
    } else {
      LeftAlone(groups, p);
      LeftBetween(groups, p, p + 1);
      LeftBetween(groups, p + 1, q);
      SilentGroups(groups[p + 1..q]);
      assert forall j | p < j < q :: groups[j] == groups[p + 1..q][j - p - 1];
    }
  }

  /** Main result: neighbours of one kind have reached the threshold, whatever it is, exactly if nowhere among the calls
      two deltas of a kind are separated by flushes and empty deltas only, one of them not of this kind. */
  lemma NeighboursAlwaysFullIff<O>(actions: seq<Action<O>>)
    ensures (forall maxBytes :: NeighboursFull(maxBytes, Returned(maxBytes, actions))) <==>
            !exists a: nat, b: nat, kind :: Separated(actions, a, b, kind)
  {
    hide NeighboursFull, Returned, Separated;
    if maxBytes: nat :| !NeighboursFull(maxBytes, Returned(maxBytes, actions)) {
      var a, b, kind := SmallAreSeparated(maxBytes, actions);
    }
    if a: nat, b: nat, kind :| Separated(actions, a, b, kind) { SeparatedStaySmall(actions, a, b, kind); }
  }
}
