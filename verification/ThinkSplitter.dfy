/** The streaming splitter that separates `<think>` blocks from the text of a model's answer
    (control-plane/src/orchestration_runtime.rs). */
module ThinkSplitter {
  import opened Pieces
  import opened Text
  import opened Wrappers

  datatype DebugDeltaKind = TextDelta | ReasoningDelta

  type DebugDeltaPart = Piece<DebugDeltaKind, char, ()>
  type Labelled = seq<Atom<DebugDeltaKind, char, ()>>

  function Tag(insideThink: bool): (tag: string)
    ensures 7 <= |tag| <= 8 && tag[0] == '<'
    ensures forall i | 0 < i < |tag| :: tag[i] != '<'
  {
    if insideThink then "</think>" else "<think>"
  }

  function KindOf(insideThink: bool): DebugDeltaKind {
    if insideThink then ReasoningDelta else TextDelta
  }

  /** The last `n` characters of the buffer are the first `n` of the tag. */
  predicate EndsWithTagPrefix(buffer: string, tag: string, n: nat) {
    n <= |buffer| && n <= |tag| && buffer[|buffer| - n..] == tag[..n]
  }

  function LongestPrefixUpTo(buffer: string, tag: string, n: nat): (r: nat)
    requires n <= |buffer| && n < |tag|
    ensures r <= n && EndsWithTagPrefix(buffer, tag, r)
    ensures forall m | r < m <= n :: !EndsWithTagPrefix(buffer, tag, m)
  {
    if n == 0 || EndsWithTagPrefix(buffer, tag, n) then n else LongestPrefixUpTo(buffer, tag, n - 1)
  }

  /** Length of the longest strict prefix of the tag at the end of the buffer. */
  function PartialTagPrefixLen(buffer: string, tag: string): (r: nat)
    requires tag != []
    ensures r <= |buffer| && r < |tag| && EndsWithTagPrefix(buffer, tag, r)
    ensures forall m | r < m < |tag| :: !EndsWithTagPrefix(buffer, tag, m)
  {
    LongestPrefixUpTo(buffer, tag, if |buffer| < |tag| then |buffer| else |tag| - 1)
  }

  datatype State = State(insideThink: bool, pending: string)

  const INITIAL := State(false, "")

  datatype Outcome = Outcome(out: Labelled, state: State)

  /** What a splitter with an empty buffer makes of a text that arrives in one piece. */
  function Scan(insideThink: bool, s: string): Outcome
    decreases |s|
  {
    var tag := Tag(insideThink);
    match Find(s, tag)
    case Some(i) =>
      var rest := Scan(!insideThink, s[i + |tag|..]);
      rest.(out := Tagged(KindOf(insideThink), s[..i]) + rest.out)
    case None =>
      var emit := |s| - PartialTagPrefixLen(s, tag);
      Outcome(Tagged(KindOf(insideThink), s[..emit]), State(insideThink, s[emit..]))
  }

  class ThinkTagStreamSplitter {
    var insideThink: bool
    var pending: string

    constructor ()
      ensures Abstract() == INITIAL
    {
      insideThink, pending := false, "";
    }

    ghost function Abstract(): State
      reads this
    {
      State(insideThink, pending)
    }

    method Split(delta: string) returns (parts: seq<DebugDeltaPart>)
      modifies this
      ensures (Abstract(), parts) == Step(old(Abstract()), delta)
    {
      hide Scan, Merge, Flatten, Tagged, Group, Find, PartialTagPrefixLen, AppendPiece;
      pending := pending + delta;
      ghost var whole := Scan(insideThink, pending);
      parts := [];
      ghost var runs, rest := [], whole;
      assert parts == Merge(runs) && Flatten(runs) + rest.out == whole.out by {
        NoRuns(whole.out);
      }
      while true
        invariant parts == Merge(runs)
        invariant rest == Scan(insideThink, pending)
        invariant Flatten(runs) + rest.out == whole.out && rest.state == whole.state
        decreases |pending|
      {
        var tag := Tag(insideThink);
        var tagIndex := Find(pending, tag);
        if tagIndex.Some? {
          var text := pending[..tagIndex.value];
          rest := Scan(!insideThink, pending[tagIndex.value + |tag|..]);
          ScanAtTag(insideThink, pending, tagIndex.value);
          MergeRun(runs, KindOf(insideThink), text, rest.out);
          runs := runs + [Run(KindOf(insideThink), text)];
          parts := PushDebugDeltaPart(parts, KindOf(insideThink), text);
          pending := pending[tagIndex.value + |tag|..];
          insideThink := !insideThink;
          continue;
        }
        var keepLen := PartialTagPrefixLen(pending, tag);
        var emitLen := |pending| - keepLen;
        ScanWithoutTag(insideThink, pending);
        MergeRun(runs, KindOf(insideThink), pending[..emitLen], []);
        assert rest.out + [] == rest.out;
        runs := runs + [Run(KindOf(insideThink), pending[..emitLen])];
        if emitLen > 0 {
          var text := pending[..emitLen];
          pending := pending[emitLen..];
          parts := PushDebugDeltaPart(parts, KindOf(insideThink), text);
        } else {
          assert pending[..emitLen] == "" && pending[emitLen..] == pending;
          AppendNothing(parts, KindOf(insideThink));
        }
        break;
      }
      assert Flatten(runs) == Flatten(runs) + [] == whole.out;
      MergeIsGroup(runs);
    }
  }

  /** Drops an empty text and extends a last part of the same kind. */
  method PushDebugDeltaPart(parts: seq<DebugDeltaPart>, kind: DebugDeltaKind, text: string)
    returns (r: seq<DebugDeltaPart>)
    ensures r == AppendPiece(parts, Run(kind, text))
  {
    if text == "" {
      return parts;
    }
    if parts != [] && parts[|parts| - 1].Run? && parts[|parts| - 1].kind == kind {
      return parts[..|parts| - 1] + [Run(kind, parts[|parts| - 1].body + text)];
    }
    return parts + [Run(kind, text)];
  }

  /** The effect of one `Split`: the canonical parts of everything that is scanned, and the new state. */
  function Step(st: State, delta: string): (State, seq<DebugDeltaPart>) {
    var r := Scan(st.insideThink, st.pending + delta);
    (r.state, Group(r.out))
  }

  lemma ScanAtTag(insideThink: bool, s: string, i: nat)
    requires Find(s, Tag(insideThink)) == Some(i)
    ensures var rest := Scan(!insideThink, s[i + |Tag(insideThink)|..]);
            Scan(insideThink, s) == Outcome(Tagged(KindOf(insideThink), s[..i]) + rest.out, rest.state)
  {
    hide Find, Tagged, PartialTagPrefixLen;
  }

  lemma ScanWithoutTag(insideThink: bool, s: string)
    requires Find(s, Tag(insideThink)).None?
    ensures var emit := |s| - PartialTagPrefixLen(s, Tag(insideThink));
            Scan(insideThink, s) == Outcome(Tagged(KindOf(insideThink), s[..emit]), State(insideThink, s[emit..]))
  {
  }

  lemma AppendNothing(parts: seq<DebugDeltaPart>, kind: DebugDeltaKind)
    ensures AppendPiece(parts, Run(kind, "")) == parts
  {
  }

  lemma NoRuns(out: Labelled)
    ensures Merge<DebugDeltaKind, char, ()>([]) == []
    ensures Flatten<DebugDeltaKind, char, ()>([]) + out == out
  {
  }

  /** Successive deltas; the parts of all calls in order. */
  function StepAll(st: State, deltas: seq<string>): (State, seq<DebugDeltaPart>)
    decreases |deltas|
  {
    if deltas == [] then (st, [])
    else
      var (next, parts) := Step(st, deltas[0]);
      var (last, rest) := StepAll(next, deltas[1..]);
      (last, parts + rest)
  }

  function Concat(deltas: seq<string>): string {
    if deltas == [] then "" else deltas[0] + Concat(deltas[1..])
  }

  // ----- Chunk boundaries do not matter -----

  lemma FindInPrefix(s: string, t: string, pat: string)
    requires Find(s, pat).Some?
    ensures Find(s + t, pat) == Find(s, pat)
  {
    var i := Find(s, pat).value;
    assert OccursAt(s + t, pat, i) by { assert (s + t)[i..i + |pat|] == s[i..i + |pat|]; }
    forall j: nat | j < i
      ensures !OccursAt(s + t, pat, j)
    {
      assert !OccursAt(s, pat, j);
      assert (s + t)[j..j + |pat|] == s[j..j + |pat|];
    }
  }

  lemma FindAfter(u: string, pat: string, e: nat)
    requires e <= |u|
    requires forall j: nat | j < e :: !OccursAt(u, pat, j)
    ensures match Find(u, pat)
            case Some(i) => e <= i && Find(u[e..], pat) == Some(i - e)
            case None => Find(u[e..], pat).None?
  {
    forall j: nat
      ensures OccursAt(u[e..], pat, j) == OccursAt(u, pat, e + j)
    {
      if e + j + |pat| <= |u| {
        assert u[e..][j..j + |pat|] == u[e + j..e + j + |pat|];
      }
    }
    match Find(u, pat)
    case Some(i) => assert OccursAt(u[e..], pat, i - e);
    case None =>
  }

  lemma EndOfFirstPart(s: string, t: string, p: string, j: nat)
    requires j <= |s| <= j + |p| && OccursAt(s + t, p, j)
    ensures s[j..] == p[..|s| - j]
  {
    forall k | 0 <= k < |s| - j
      ensures s[j..][k] == p[k]
    {
      assert p[k] == (s + t)[j..j + |p|][k] == (s + t)[j + k];
    }
  }

  /** Nothing that was emitted can turn out to be the start of a tag when more text arrives. */
  lemma EmittedIsFinal(s: string, t: string, tag: string)
    requires tag != "" && Find(s, tag).None?
    ensures var emit := |s| - PartialTagPrefixLen(s, tag);
            && (forall j: nat | j < emit :: !OccursAt(s + t, tag, j))
            && PartialTagPrefixLen(s + t, tag) <= |s + t| - emit
  {
    var u, emit := s + t, |s| - PartialTagPrefixLen(s, tag);
    forall j: nat | j < emit
      ensures !OccursAt(u, tag, j)
    {
      if OccursAt(u, tag, j) {
        if j + |tag| <= |s| {
          assert s[j..j + |tag|] == u[j..j + |tag|];
          assert OccursAt(s, tag, j);
        } else {
          EndOfFirstPart(s, t, tag, j);
          assert EndsWithTagPrefix(s, tag, |s| - j);
        }
        assert false;
      }
    }
    var m := PartialTagPrefixLen(u, tag);
    if m > |u| - emit {
      var j := |u| - m;
      EndOfFirstPart(s, t, tag[..m], j);
      assert EndsWithTagPrefix(s, tag, |s| - j);
      assert false;
    }
  }

  lemma PartialAfter(u: string, tag: string, e: nat)
    requires tag != "" && e <= |u|
    requires PartialTagPrefixLen(u, tag) <= |u| - e
    ensures PartialTagPrefixLen(u[e..], tag) == PartialTagPrefixLen(u, tag)
  {
    var m, k := PartialTagPrefixLen(u, tag), PartialTagPrefixLen(u[e..], tag);
    forall n | 0 <= n <= |u| - e
      ensures EndsWithTagPrefix(u[e..], tag, n) == EndsWithTagPrefix(u, tag, n)
    {
      assert u[e..][|u| - e - n..] == u[|u| - n..];
    }
    assert EndsWithTagPrefix(u[e..], tag, m);
    assert EndsWithTagPrefix(u, tag, k);
  }

  lemma ScanAfterAtTag(insideThink: bool, u: string, e: nat, i: nat)
    requires e <= i && Find(u, Tag(insideThink)) == Some(i) && Find(u[e..], Tag(insideThink)) == Some(i - e)
    ensures var rest := Scan(insideThink, u[e..]);
            Scan(insideThink, u) == Outcome(Tagged(KindOf(insideThink), u[..e]) + rest.out, rest.state)
  {
    hide Scan, Tagged, Find;
    var tag, kind := Tag(insideThink), KindOf(insideThink);
    ScanAtTag(insideThink, u, i);
    ScanAtTag(insideThink, u[e..], i - e);
    assert u[e..][i - e + |tag|..] == u[i + |tag|..];
    TaggedSplit(kind, u[..i], e);
    assert u[..i][..e] == u[..e] && u[..i][e..] == u[e..][..i - e];
    var a: Labelled, b: Labelled := Tagged(kind, u[..e]), Tagged(kind, u[e..][..i - e]);
    var rest := Scan(!insideThink, u[i + |tag|..]).out;
    assert (a + b) + rest == a + (b + rest);
  }

  lemma ScanAfterWithoutTag(insideThink: bool, u: string, e: nat)
    requires e <= |u| && Find(u, Tag(insideThink)).None? && Find(u[e..], Tag(insideThink)).None?
    requires PartialTagPrefixLen(u, Tag(insideThink)) <= |u| - e
    ensures var rest := Scan(insideThink, u[e..]);
            Scan(insideThink, u) == Outcome(Tagged(KindOf(insideThink), u[..e]) + rest.out, rest.state)
  {
    hide Scan, Tagged, Find, PartialTagPrefixLen;
    var tag, kind := Tag(insideThink), KindOf(insideThink);
    PartialAfter(u, tag, e);
    ScanWithoutTag(insideThink, u);
    ScanWithoutTag(insideThink, u[e..]);
    var emit := |u| - PartialTagPrefixLen(u, tag);
    TaggedSplit(kind, u[..emit], e);
    assert u[..emit][..e] == u[..e] && u[..emit][e..] == u[e..][..emit - e];
    assert u[e..][emit - e..] == u[emit..];
  }

  /** A tag-free beginning can be emitted before the rest is scanned. */
  lemma ScanAfter(insideThink: bool, u: string, e: nat)
    requires e <= |u|
    requires forall j: nat | j < e :: !OccursAt(u, Tag(insideThink), j)
    requires PartialTagPrefixLen(u, Tag(insideThink)) <= |u| - e
    ensures var rest := Scan(insideThink, u[e..]);
            Scan(insideThink, u) == Outcome(Tagged(KindOf(insideThink), u[..e]) + rest.out, rest.state)
  {
    hide Scan, Tagged, Find, PartialTagPrefixLen;
    FindAfter(u, Tag(insideThink), e);
    match Find(u, Tag(insideThink))
    case Some(i) => ScanAfterAtTag(insideThink, u, e, i);
    case None => ScanAfterWithoutTag(insideThink, u, e);
  }

  lemma TaggedSplit(kind: DebugDeltaKind, s: string, e: nat)
    requires e <= |s|
    ensures Tagged<DebugDeltaKind, char, ()>(kind, s) == Tagged(kind, s[..e]) + Tagged(kind, s[e..])
  {
    assert s == s[..e] + s[e..];
    TaggedConcat<DebugDeltaKind, char, ()>(kind, s[..e], s[e..]);
  }

  /** Scanning a text in two pieces gives the same labels and ends in the same state. */
  lemma {:induction false} ScanConcat(insideThink: bool, s: string, t: string)
    ensures var first := Scan(insideThink, s);
            var second := Scan(first.state.insideThink, first.state.pending + t);
            Scan(insideThink, s + t) == Outcome(first.out + second.out, second.state)
    decreases |s|
  {
    hide Scan, Tagged, Find, PartialTagPrefixLen;
    var tag, kind := Tag(insideThink), KindOf(insideThink);
    match Find(s, tag)
    case Some(i) =>
      FindInPrefix(s, t, tag);
      ScanAtTag(insideThink, s, i);
      ScanAtTag(insideThink, s + t, i);
      var rest := s[i + |tag|..];
      assert (s + t)[i + |tag|..] == rest + t && (s + t)[..i] == s[..i];
      ScanConcat(!insideThink, rest, t);
      var middle := Scan(!insideThink, rest);
      var last := Scan(middle.state.insideThink, middle.state.pending + t);
      assert (Tagged(kind, s[..i]) + middle.out) + last.out == Tagged(kind, s[..i]) + (middle.out + last.out);
    case None =>
      ScanWithoutTag(insideThink, s);
      EmittedIsFinal(s, t, tag);
      var emit := |s| - PartialTagPrefixLen(s, tag);
      ScanAfter(insideThink, s + t, emit);
      assert (s + t)[..emit] == s[..emit] && (s + t)[emit..] == s[emit..] + t;
  }

  /** The pending text of such a state will be kept as it is if nothing arrives. */
  ghost predicate Stable(st: State) {
    Scan(st.insideThink, st.pending) == Outcome([], st)
  }

  lemma {:induction false} ScanIsStable(insideThink: bool, s: string)
    ensures Stable(Scan(insideThink, s).state)
    decreases |s|
  {
    hide Scan, Find, PartialTagPrefixLen;
    var tag := Tag(insideThink);
    match Find(s, tag)
    case Some(i) =>
      ScanAtTag(insideThink, s, i);
      ScanIsStable(!insideThink, s[i + |tag|..]);
    case None =>
      ScanWithoutTag(insideThink, s);
      var emit := |s| - PartialTagPrefixLen(s, tag);
      ScanConcat(insideThink, s, "");
      assert s + "" == s && s[emit..] + "" == s[emit..];
      var first, second := Scan(insideThink, s), Scan(insideThink, s[emit..]);
      assert first.out == first.out + second.out;
      assert |second.out| == 0;
  }

  /** Every state the splitter can reach from its initial state is stable. */
  lemma {:induction false} ReachableIsStable(st: State, deltas: seq<string>)
    requires Stable(st)
    ensures Stable(StepAll(st, deltas).0)
    decreases |deltas|
  {
    if deltas != [] {
      hide Scan, Group;
      ScanIsStable(st.insideThink, st.pending + deltas[0]);
      ReachableIsStable(Step(st, deltas[0]).0, deltas[1..]);
    }
  }

  lemma InitialIsStable()
    ensures Stable(INITIAL)
  {
  }

  /** What is held back holds no tag and may still become the next one: it is at most 6 characters outside a think
      block and 7 inside. `HeldIsLongestEnding` says which ending of the text it is. */
  lemma PendingIsPartialTag(st: State)
    requires Stable(st)
    ensures Find(st.pending, Tag(st.insideThink)).None?
    ensures PartialTagPrefixLen(st.pending, Tag(st.insideThink)) == |st.pending|
    ensures |st.pending| <= if st.insideThink then 7 else 6
  {
    hide Scan, Find, PartialTagPrefixLen;
    match Find(st.pending, Tag(st.insideThink))
    case Some(i) =>
      ScanAtTag(st.insideThink, st.pending, i);
      PendingNotLonger(!st.insideThink, st.pending[i + |Tag(st.insideThink)|..]);
    case None =>
      ScanWithoutTag(st.insideThink, st.pending);
  }

  lemma {:induction false} PendingNotLonger(insideThink: bool, s: string)
    ensures |Scan(insideThink, s).state.pending| <= |s|
    decreases |s|
  {
    hide Scan, Find, PartialTagPrefixLen;
    match Find(s, Tag(insideThink))
    case Some(i) =>
      ScanAtTag(insideThink, s, i);
      PendingNotLonger(!insideThink, s[i + |Tag(insideThink)|..]);
    case None =>
      ScanWithoutTag(insideThink, s);
  }

  /** Main result: however a text is cut into deltas, the parts of all calls, once neighbours of one kind are
      joined, are the parts of a single call with the whole text, and the splitter ends in the same state. */
  lemma {:induction false} ChunkInvariance(st: State, deltas: seq<string>)
    requires Stable(st)
    ensures StepAll(st, deltas).0 == Step(st, Concat(deltas)).0
    ensures Merge(StepAll(st, deltas).1) == Step(st, Concat(deltas)).1
  {
    AllDeltasScan(st, deltas);
    MergeIsGroup(StepAll(st, deltas).1);
  }

  lemma {:induction false} AllDeltasScan(st: State, deltas: seq<string>)
    requires Stable(st)
    ensures var (last, parts) := StepAll(st, deltas);
            Scan(st.insideThink, st.pending + Concat(deltas)) == Outcome(Flatten(parts), last)
    decreases |deltas|
  {
    hide Scan, Group, Flatten;
    if deltas == [] {
      assert st.pending + "" == st.pending;
      assert Flatten<DebugDeltaKind, char, ()>([]) == [] by { NoRuns([]); }
    } else {
      var s, t := st.pending + deltas[0], Concat(deltas[1..]);
      var (next, parts) := Step(st, deltas[0]);
      ScanIsStable(st.insideThink, s);
      AllDeltasScan(next, deltas[1..]);
      ScanConcat(st.insideThink, s, t);
      assert st.pending + Concat(deltas) == s + t;
      GroupProperties(Scan(st.insideThink, s).out);
      FlattenConcat(parts, StepAll(next, deltas[1..]).1);
    }
  }

  // ----- What the labels mean -----

  /** A text as the spans between its tags, the first one inside a think block or not. */
  function JoinSpans(insideThink: bool, spans: seq<string>): string
    requires spans != []
    decreases |spans|
  {
    if |spans| == 1 then spans[0]
    else spans[0] + Tag(insideThink) + JoinSpans(!insideThink, spans[1..])
  }

  /** No span contains the tag that would end it. The other tag may occur and is then plain text. */
  predicate TagFree(insideThink: bool, spans: seq<string>)
    decreases |spans|
  {
    spans == [] || (Find(spans[0], Tag(insideThink)).None? && TagFree(!insideThink, spans[1..]))
  }

  function LabelSpans(insideThink: bool, spans: seq<string>): Labelled
    decreases |spans|
  {
    if spans == [] then [] else Tagged(KindOf(insideThink), spans[0]) + LabelSpans(!insideThink, spans[1..])
  }

  /** A tag shares no beginning with its own end, so it is found right after a tag-free span. */
  lemma FindAfterSpan(span: string, insideThink: bool, rest: string)
    requires Find(span, Tag(insideThink)).None?
    ensures Find(span + Tag(insideThink) + rest, Tag(insideThink)) == Some(|span|)
  {
    hide Find;
    var tag := Tag(insideThink);
    var s := span + tag + rest;
    assert OccursAt(s, tag, |span|);
    forall j: nat | j < |span|
      ensures !OccursAt(s, tag, j)
    {
      if j + |tag| <= |span| {
        assert span[j..j + |tag|] == s[j..j + |tag|];
        assert !OccursAt(span, tag, j);
      } else {
        var k := |span| - j;
        assert s[j..j + |tag|][k] == s[|span|] == tag[0] != tag[k];
      }
    }
  }

  lemma ThreeParts(a: string, b: string, c: string)
    ensures (a + b + c)[..|a|] == a && (a + b + c)[|a| + |b|..] == c
  {
  }

  /** Main result: the splitter labels each span of a text by its side of the tags. Nothing is lost: what is emitted
      followed by what is held back is all of the text between the tags. */
  lemma {:induction false} SplitMeaning(insideThink: bool, spans: seq<string>)
    requires spans != [] && TagFree(insideThink, spans)
    ensures var r := Scan(insideThink, JoinSpans(insideThink, spans));
            && r.out + Tagged(KindOf(r.state.insideThink), r.state.pending) == LabelSpans(insideThink, spans)
            && r.state.insideThink == (insideThink != (|spans| % 2 == 0))
            && |r.state.pending| <= |spans[|spans| - 1]|
    decreases |spans|
  {
    hide Scan, Find, Tagged, PartialTagPrefixLen, Tag;
    var kind := KindOf(insideThink);
    if |spans| == 1 {
      ScanWithoutTag(insideThink, spans[0]);
      TaggedSplit(kind, spans[0], |spans[0]| - PartialTagPrefixLen(spans[0], Tag(insideThink)));
      assert LabelSpans(!insideThink, spans[1..]) == [];
    } else {
      var rest := JoinSpans(!insideThink, spans[1..]);
      var s := JoinSpans(insideThink, spans);
      FindAfterSpan(spans[0], insideThink, rest);
      ScanAtTag(insideThink, s, |spans[0]|);
      ThreeParts(spans[0], Tag(insideThink), rest);
      SplitMeaning(!insideThink, spans[1..]);
      var r := Scan(!insideThink, rest);
      var held: Labelled := Tagged(KindOf(r.state.insideThink), r.state.pending);
      assert (Tagged(kind, spans[0]) + r.out) + held == Tagged(kind, spans[0]) + (r.out + held);
    }
  }

  /** Cuts a text at the tags that end its spans. */
  function Spans(insideThink: bool, s: string): (spans: seq<string>)
    ensures spans != []
    decreases |s|
  {
    match Find(s, Tag(insideThink))
    case Some(i) => [s[..i]] + Spans(!insideThink, s[i + |Tag(insideThink)|..])
    case None => [s]
  }

  /** Every text has spans: `SplitMeaning` covers all inputs. */
  lemma {:induction false} EveryTextHasSpans(insideThink: bool, s: string)
    ensures JoinSpans(insideThink, Spans(insideThink, s)) == s
    ensures TagFree(insideThink, Spans(insideThink, s))
    decreases |s|
  {
    hide Find;
    var tag := Tag(insideThink);
    match Find(s, tag)
    case Some(i) =>
      EveryTextHasSpans(!insideThink, s[i + |tag|..]);
      assert s == s[..i] + tag + s[i + |tag|..];
      forall j: nat
        ensures !OccursAt(s[..i], tag, j)
      {
        if j + |tag| <= i {
          assert s[..i][j..j + |tag|] == s[j..j + |tag|];
          assert !OccursAt(s, tag, j);
        }
      }
      assert Find(s[..i], tag).None?;
    case None =>
      assert TagFree(!insideThink, [s][1..]);
  }

  /** The spans of a text are unique. */
  lemma {:induction false} SpansUnique(insideThink: bool, spans: seq<string>)
    requires spans != [] && TagFree(insideThink, spans)
    ensures Spans(insideThink, JoinSpans(insideThink, spans)) == spans
    decreases |spans|
  {
    hide Find, Tag;
    if |spans| > 1 {
      var rest := JoinSpans(!insideThink, spans[1..]);
      FindAfterSpan(spans[0], insideThink, rest);
      ThreeParts(spans[0], Tag(insideThink), rest);
      SpansUnique(!insideThink, spans[1..]);
    }
  }

  /** The part of the last span that may still become a tag. */
  function Ending(insideThink: bool, spans: seq<string>): string
    requires spans != []
  {
    var last, side := spans[|spans| - 1], insideThink != (|spans| % 2 == 0);
    last[|last| - PartialTagPrefixLen(last, Tag(side))..]
  }

  /** What is held back is the longest ending of the text since the last tag that is a strict prefix of the next tag. */
  lemma {:induction false} HeldIsLongestEnding(insideThink: bool, spans: seq<string>)
    requires spans != [] && TagFree(insideThink, spans)
    ensures Scan(insideThink, JoinSpans(insideThink, spans)).state.pending == Ending(insideThink, spans)
    decreases |spans|
  {
    hide Scan, Find, Tagged, PartialTagPrefixLen, Tag;
    if |spans| == 1 {
      ScanWithoutTag(insideThink, spans[0]);
    } else {
      var rest := JoinSpans(!insideThink, spans[1..]);
      FindAfterSpan(spans[0], insideThink, rest);
      ScanAtTag(insideThink, JoinSpans(insideThink, spans), |spans[0]|);
      ThreeParts(spans[0], Tag(insideThink), rest);
      HeldIsLongestEnding(!insideThink, spans[1..]);
      EndingOfRest(insideThink, spans);
      hide Ending;
    }
  }

  lemma EndingOfRest(insideThink: bool, spans: seq<string>)
    requires |spans| > 1
    ensures Ending(!insideThink, spans[1..]) == Ending(insideThink, spans)
  {
    hide PartialTagPrefixLen, Tag;
    assert spans[1..][|spans| - 2] == spans[|spans| - 1];
  }

  /** From the start, for every way to cut a text into deltas: the merged parts are those of one call; the text held
      back is the longest ending, since the last tag, that may still become the next tag; and the parts followed by it
      are the spans of the text, each labelled by its side of the tags. */
  lemma FromTheStart(deltas: seq<string>)
    ensures var (st, parts) := StepAll(INITIAL, deltas);
            var spans := Spans(false, Concat(deltas));
            && (st, Merge(parts)) == Step(INITIAL, Concat(deltas))
            && Stable(st) && st.insideThink == (|spans| % 2 == 0) && st.pending == Ending(false, spans)
            && Flatten(parts) + Tagged(KindOf(st.insideThink), st.pending) == LabelSpans(false, spans)
  {
    hide Scan, Find, Group, Merge, Flatten, Tagged, PartialTagPrefixLen, Tag, Stable, Step, StepAll, Concat, Spans,
         LabelSpans, Ending, JoinSpans, TagFree, KindOf;
    var spans := Spans(false, Concat(deltas));
    InitialIsStable();
    EveryTextHasSpans(false, Concat(deltas));
    ReachableIsStable(INITIAL, deltas);
    ChunkInvariance(INITIAL, deltas);
    AllDeltasScan(INITIAL, deltas);
    assert INITIAL.pending + Concat(deltas) == Concat(deltas);
    SplitMeaning(false, spans);
    HeldIsLongestEnding(false, spans);
  }

  /** The spans that are not empty, as parts. */
  function Parts(insideThink: bool, spans: seq<string>): seq<DebugDeltaPart>
    decreases |spans|
  {
    if spans == [] then []
    else (if spans[0] == "" then [] else [Run(KindOf(insideThink), spans[0])]) + Parts(!insideThink, spans[1..])
  }

  /** No span between two others is empty. */
  predicate InnerSpansNotEmpty(spans: seq<string>) {
    forall i | 0 < i < |spans| - 1 :: spans[i] != ""
  }

  lemma {:induction false} PartsFlatten(insideThink: bool, spans: seq<string>)
    ensures Flatten(Parts(insideThink, spans)) == LabelSpans(insideThink, spans)
    decreases |spans|
  {
    hide Flatten, Tagged;
    NoRuns([]);
    if spans != [] {
      PartsFlatten(!insideThink, spans[1..]);
      NothingLabelled(KindOf(insideThink));
      var rest := Parts(!insideThink, spans[1..]);
      var part: DebugDeltaPart := Run(KindOf(insideThink), spans[0]);
      if spans[0] == "" {
        assert [] + rest == rest;
      } else {
        FlattenStep(part, rest);
      }
    }
  }

  lemma NothingLabelled(kind: DebugDeltaKind)
    ensures Tagged<DebugDeltaKind, char, ()>(kind, "") == []
  {
  }

  /** The merged parts of a text, with the text held back as their end, are exactly its spans that are not empty, if and
      only if this list has no neighbours of one kind. */
  lemma PartsAreSpansIff(insideThink: bool, spans: seq<string>)
    ensures Group(LabelSpans(insideThink, spans)) == Parts(insideThink, spans) <==> Merged(Parts(insideThink, spans))
  {
    hide Group, Flatten, Merged;
    PartsFlatten(insideThink, spans);
    GroupProperties(LabelSpans(insideThink, spans));
    if Merged(Parts(insideThink, spans)) {
      MergedUnique(Group(LabelSpans(insideThink, spans)), Parts(insideThink, spans));
    }
  }

  /** In particular if no span between two tags is empty. Then no merged part holds the tag that would end it. */
  lemma PartsWithoutTags(insideThink: bool, spans: seq<string>)
    requires TagFree(insideThink, spans) && InnerSpansNotEmpty(spans)
    ensures Group(LabelSpans(insideThink, spans)) == Parts(insideThink, spans)
    ensures forall part <- Parts(insideThink, spans) ::
              part.Run? && Find(part.body, Tag(part.kind == ReasoningDelta)).None?
  {
    hide Group, Find, Merged;
    PartsAreSpansIff(insideThink, spans);
    PartsMerged(insideThink, spans);
    PartsFree(insideThink, spans);
  }

  lemma {:induction false} PartsMerged(insideThink: bool, spans: seq<string>)
    requires InnerSpansNotEmpty(spans)
    ensures Merged(Parts(insideThink, spans))
    decreases |spans|
  {
    hide Merged, KindOf;
    if spans == [] {
      NothingMerged();
    } else {
      var rest := Parts(!insideThink, spans[1..]);
      assert InnerSpansNotEmpty(spans[1..]);
      PartsMerged(!insideThink, spans[1..]);
      if spans[0] == "" {
        assert [] + rest == rest;
      } else {
        if |spans| > 1 {
          assert |spans| > 2 ==> spans[1..][0] != "";
          FirstPart(!insideThink, spans[1..]);
        }
        ConsMerged(insideThink, spans[0], rest);
      }
    }
  }

  lemma NothingMerged()
    ensures Merged<DebugDeltaKind, char, ()>([])
  {
  }

  lemma FirstPart(insideThink: bool, spans: seq<string>)
    requires spans != [] && (|spans| > 1 ==> spans[0] != "")
    ensures var parts := Parts(insideThink, spans);
            parts == [] || (parts[0].Run? && parts[0].kind == KindOf(insideThink))
  {
  }

  lemma ConsMerged(insideThink: bool, span: string, rest: seq<DebugDeltaPart>)
    requires Merged(rest) && span != ""
    requires rest == [] || (rest[0].Run? && rest[0].kind == KindOf(!insideThink))
    ensures Merged([Run(KindOf(insideThink), span)] + rest)
  {
    var parts: seq<DebugDeltaPart> := [Run(KindOf(insideThink), span)] + rest;
    forall i, j | 0 <= i < j < |parts| && j == i + 1
      ensures parts[i].Run? && parts[j].Run? ==> parts[i].kind != parts[j].kind
    {
      if i > 0 { assert parts[i] == rest[i - 1] && parts[j] == rest[j - 1]; }
    }
  }

  lemma {:induction false} PartsFree(insideThink: bool, spans: seq<string>)
    requires TagFree(insideThink, spans)
    ensures forall part <- Parts(insideThink, spans) ::
              part.Run? && Find(part.body, Tag(part.kind == ReasoningDelta)).None?
    decreases |spans|
  {
    hide Find;
    if spans != [] {
      PartsFree(!insideThink, spans[1..]);
      forall part | part in Parts(insideThink, spans)
        ensures part.Run? && Find(part.body, Tag(part.kind == ReasoningDelta)).None?
      {
        if part !in Parts(!insideThink, spans[1..]) {
          assert part == Run(KindOf(insideThink), spans[0]);
          assert (part.kind == ReasoningDelta) == insideThink;
        }
      }
    }
  }

  /** With an empty span between two others, the part joined around it can hold a tag: here the joined text part is
      itself an opening tag. */
  lemma JoinedPartMayBeATag()
    ensures Step(INITIAL, "<th" + "<think>" + ("" + "</think>" + "ink>")) == (INITIAL, [Run(TextDelta, "<think>")])
  {
    hide Scan, Find, Group, Tagged;
    var text := "<th" + "<think>" + ("" + "</think>" + "ink>");
    var spans := ["<th", "", "ink>"];
    assert spans[1..] == ["", "ink>"] && spans[1..][1..] == ["ink>"] && ["ink>"][1..] == [];
    assert JoinSpans(false, spans) == text && TagFree(false, spans);
    SplitMeaning(false, spans);
    ScanIsStable(false, text);
    var r := Scan(false, text);
    var a: Labelled, b: Labelled := Tagged(TextDelta, "<th"), Tagged(TextDelta, "ink>");
    assert LabelSpans(false, spans) == a + (Tagged(ReasoningDelta, "") + (b + []));
    assert LabelSpans(false, spans) == a + b;
    var held: Labelled := Tagged(TextDelta, r.state.pending);
    assert r.out + held == a + b;
    PendingIsPartialTag(r.state);
    assert EndsWithTagPrefix(r.state.pending, "<think>", |r.state.pending|);
    assert r.state.pending == "" || r.state.pending[0] == '<';
    if r.state.pending != "" { EndOfInk(r.out, r.state.pending); }
    JoinedGroup(r.out);
    assert INITIAL.pending + text == text;
  }

  lemma JoinedGroup(out: Labelled)
    requires out == Tagged(TextDelta, "<th") + Tagged(TextDelta, "ink>")
    ensures Group(out) == [Run(TextDelta, "<think>")]
  {
    hide Group, Tagged, Flatten, Merged;
    var part: DebugDeltaPart := Run(TextDelta, "<th" + "ink>");
    TaggedConcat<DebugDeltaKind, char, ()>(TextDelta, "<th", "ink>");
    FlattenOne(part);
    OneMerged(part);
    GroupProperties(out);
    MergedUnique(Group(out), [part]);
    assert "<th" + "ink>" == "<think>";
  }

  lemma OneMerged(part: DebugDeltaPart)
    requires part.Run? && part.body != ""
    ensures Merged([part])
  {
  }

  lemma EndOfInk(out: Labelled, held: string)
    requires out + Tagged(TextDelta, held) == Tagged(TextDelta, "<th") + Tagged(TextDelta, "ink>") && 0 < |held| <= 4
    ensures held[0] != '<'
  {
    var b: Labelled := Tagged(TextDelta, "ink>");
    assert (out + Tagged(TextDelta, held))[|out|] == Unit(TextDelta, held[0]);
    assert b[4 - |held|] == Unit(TextDelta, held[0]);
  }
}
