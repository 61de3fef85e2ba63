/** What a `<think>` block becomes, in however many deltas it arrives. */
module ThinkBlocks {
  import opened Pieces
  import opened Text
  import opened ThinkSplitter
  import opened Wrappers

  predicate NoAngle(s: string) {
    '<' !in s
  }

  lemma NoTagInside(s: string, insideThink: bool)
    requires NoAngle(s)
    ensures Find(s, Tag(insideThink)).None? && PartialTagPrefixLen(s, Tag(insideThink)) == 0
  {
    var tag := Tag(insideThink);
    forall i: nat
      ensures !OccursAt(s, tag, i)
    {
      if i + |tag| <= |s| { assert s[i..i + |tag|][0] == s[i]; }
    }
    var n := PartialTagPrefixLen(s, tag);
    if n > 0 { EndsInAngle(s, tag, n); }
  }

  lemma EndsInAngle(s: string, tag: string, n: nat)
    requires 0 < n && EndsWithTagPrefix(s, tag, n) && tag[0] == '<'
    ensures !NoAngle(s)
  {
    assert s[|s| - n] == s[|s| - n..][0] == tag[..n][0];
  }

  /** One more span in front. */
  lemma SpanInFront(insideThink: bool, span: string, rest: seq<string>)
    requires NoAngle(span) && TagFree(!insideThink, rest)
    ensures TagFree(insideThink, [span] + rest)
    ensures LabelSpans(insideThink, [span] + rest) == Tagged(KindOf(insideThink), span) + LabelSpans(!insideThink, rest)
    ensures JoinSpans(insideThink, [span] + rest) ==
            if rest == [] then span else span + Tag(insideThink) + JoinSpans(!insideThink, rest)
  {
    NoTagInside(span, insideThink);
    assert ([span] + rest)[1..] == rest;
    hide Find, Tagged, KindOf, Tag;
  }

  /** Main result: however the text is cut into deltas, the characters between `<think>` and `</think>` come out as
      reasoning, those around as text, in order and each once; nothing is held back. */
  lemma ThinkBlock(before: string, thought: string, after: string, deltas: seq<string>)
    requires NoAngle(before) && NoAngle(thought) && NoAngle(after)
    requires Concat(deltas) == before + "<think>" + thought + "</think>" + after
    ensures var (st, parts) := StepAll(INITIAL, deltas);
            && !st.insideThink && st.pending == ""
            && Flatten(parts) == Tagged(TextDelta, before) + Tagged(ReasoningDelta, thought) + Tagged(TextDelta, after)
  {
    var spans := BlockSpans(before, thought, after);
    hide *;
    OnlySpans(spans, deltas);
  }

  lemma BlockSpans(before: string, thought: string, after: string) returns (spans: seq<string>)
    requires NoAngle(before) && NoAngle(thought) && NoAngle(after)
    ensures |spans| == 3 && TagFree(false, spans) && PartialTagPrefixLen(spans[2], Tag(false)) == 0
    ensures JoinSpans(false, spans) == before + "<think>" + thought + "</think>" + after
    ensures LabelSpans(false, spans) ==
            Tagged(TextDelta, before) + Tagged(ReasoningDelta, thought) + Tagged(TextDelta, after)
  {
    NoTagInside(after, false);
    SpanInFront(false, after, []);
    SpanInFront(true, thought, [after]);
    SpanInFront(false, before, [thought] + [after]);
    hide *;
    TagTexts();
    NoSpans();
    assert [after] + [] == [after];
    spans := [before] + ([thought] + [after]);
    Regrouped(before, "<think>", thought, "</think>", after);
    RegroupedLabels(Tagged(TextDelta, before), Tagged(ReasoningDelta, thought), Tagged(TextDelta, after));
  }

  lemma RegroupedLabels(a: Labelled, b: Labelled, c: Labelled)
    ensures a + (b + (c + [])) == a + b + c
  {
  }

  lemma Regrouped(a: string, b: string, c: string, d: string, e: string)
    ensures a + b + (c + d + e) == a + b + c + d + e
  {
  }

  lemma TagTexts()
    ensures Tag(false) == "<think>" && Tag(true) == "</think>"
    ensures KindOf(false) == TextDelta && KindOf(true) == ReasoningDelta
  {
  }

  lemma NoSpans()
    ensures forall insideThink :: TagFree(insideThink, []) && LabelSpans(insideThink, []) == []
  {
  }

  /** An open block: what is behind `<think>` is reasoning. */
  lemma OpenThinkBlock(before: string, thought: string, deltas: seq<string>)
    requires NoAngle(before) && NoAngle(thought) && Concat(deltas) == before + "<think>" + thought
    ensures var (st, parts) := StepAll(INITIAL, deltas);
            && st.insideThink && st.pending == ""
            && Flatten(parts) == Tagged(TextDelta, before) + Tagged(ReasoningDelta, thought)
  {
    var spans := OpenSpans(before, thought);
    hide *;
    OnlySpans(spans, deltas);
  }

  lemma OpenSpans(before: string, thought: string) returns (spans: seq<string>)
    requires NoAngle(before) && NoAngle(thought)
    ensures |spans| == 2 && TagFree(false, spans) && PartialTagPrefixLen(spans[1], Tag(true)) == 0
    ensures JoinSpans(false, spans) == before + "<think>" + thought
    ensures LabelSpans(false, spans) == Tagged(TextDelta, before) + Tagged(ReasoningDelta, thought)
  {
    NoTagInside(thought, true);
    SpanInFront(true, thought, []);
    SpanInFront(false, before, [thought]);
    hide *;
    TagTexts();
    NoSpans();
    assert [thought] + [] == [thought];
    spans := [before] + [thought];
    RegroupedLabels(Tagged(TextDelta, before), Tagged(ReasoningDelta, thought), []);
  }

  /** A text without tags is text. */
  lemma NoThinkBlock(text: string, deltas: seq<string>)
    requires NoAngle(text) && Concat(deltas) == text
    ensures var (st, parts) := StepAll(INITIAL, deltas);
            !st.insideThink && st.pending == "" && Flatten(parts) == Tagged(TextDelta, text)
  {
    SpanInFront(false, text, []);
    NoTagInside(text, false);
    hide *;
    TagTexts();
    NoSpans();
    var spans := [text];
    assert spans + [] == spans;
    OnlySpans(spans, deltas);
    assert LabelSpans(false, spans) == Tagged(TextDelta, text) + [];
  }

  lemma OnlySpans(spans: seq<string>, deltas: seq<string>)
    requires spans != [] && TagFree(false, spans) && JoinSpans(false, spans) == Concat(deltas)
    requires PartialTagPrefixLen(spans[|spans| - 1], Tag(|spans| % 2 == 0)) == 0
    ensures var (st, parts) := StepAll(INITIAL, deltas);
            && st.insideThink == (|spans| % 2 == 0) && st.pending == ""
            && Flatten(parts) == LabelSpans(false, spans)
  {
    FromTheStart(deltas);
    SpansUnique(false, spans);
    assert Ending(false, spans) == "";
    hide Spans, StepAll, LabelSpans, TagFree, JoinSpans, Concat;
  }
}
