/** Coalescing of streamed deltas (observability/src/delta_coalescer.rs and the batch and live forms in
    control-plane/src/runtime_observability.rs). A delta's text is its UTF-8 bytes, because the size threshold
    counts bytes; the other provider events are opaque. */
module Coalescer {
  import opened Pieces
  import opened Wrappers

  newtype byte = x: int | 0 <= x < 256

  datatype DeltaKind = Text | Reasoning

  /** `Run(Text, d)` is a text delta, `Run(Reasoning, d)` a reasoning delta, `Mark(e)` any other event. */
  type Event<O> = Piece<DeltaKind, byte, O>

  class DeltaCoalescer<O> {
    const maxBytes: nat
    var text: seq<byte>
    var reasoning: seq<byte>

    constructor (maxBytes: nat)
      ensures this.maxBytes == maxBytes && Contents() == EMPTY
    {
      this.maxBytes := maxBytes;
      text, reasoning := [], [];
    }

    ghost function Contents(): Held
      reads this
    {
      Held(text, reasoning)
    }

    method FlushText() returns (event: Option<Event<O>>)
      modifies this`text
      ensures text == []
      ensures event == if old(text) == [] then None else Some(Run(Text, old(text)))
    {
      if text == [] {
        return None;
      }
      event := Some(Run(Text, text));
      text := [];
    }

    method FlushReasoning() returns (event: Option<Event<O>>)
      modifies this`reasoning
      ensures reasoning == []
      ensures event == if old(reasoning) == [] then None else Some(Run(Reasoning, old(reasoning)))
    {
      if reasoning == [] {
        return None;
      }
      event := Some(Run(Reasoning, reasoning));
      reasoning := [];
    }

    method PushText(delta: seq<byte>) returns (event: Option<Event<O>>)
      modifies this`text
      ensures (text, Ready(event)) == Buffered(maxBytes, Text, old(text) + delta)
    {
      text := text + delta;
      if |text| >= maxBytes {
        event := FlushText();
      } else {
        event := None;
      }
    }

    method PushReasoning(delta: seq<byte>) returns (event: Option<Event<O>>)
      modifies this`reasoning
      ensures (reasoning, Ready(event)) == Buffered(maxBytes, Reasoning, old(reasoning) + delta)
    {
      reasoning := reasoning + delta;
      if |reasoning| >= maxBytes {
        event := FlushReasoning();
      } else {
        event := None;
      }
    }
  }

  datatype Held = Held(text: seq<byte>, reasoning: seq<byte>)

  const EMPTY := Held([], [])

  function Ready<O>(event: Option<Event<O>>): seq<Event<O>> {
    match event
    case Some(e) => [e]
    case None => []
  }

  function Emit<O>(kind: DeltaKind, buffer: seq<byte>): seq<Event<O>> {
    if buffer == [] then [] else [Run(kind, buffer)]
  }

  /** What stays in a buffer and what leaves it once a delta was appended. */
  function Buffered<O>(maxBytes: nat, kind: DeltaKind, buffer: seq<byte>): (seq<byte>, seq<Event<O>>) {
    if |buffer| >= maxBytes then ([], Emit(kind, buffer)) else (buffer, [])
  }

  function FlushEffect<O>(b: Held): seq<Event<O>> {
    Emit(Text, b.text) + Emit(Reasoning, b.reasoning)
  }

  function PushEffect<O>(maxBytes: nat, b: Held, event: Event<O>): (Held, seq<Event<O>>) {
    match event
    case Run(Text, delta) =>
      var (kept, out) := Buffered(maxBytes, Text, b.text + delta);
      (Held(kept, []), Emit(Reasoning, b.reasoning) + out)
    case Run(Reasoning, delta) =>
      var (kept, out) := Buffered(maxBytes, Reasoning, b.reasoning + delta);
      (Held([], kept), Emit(Text, b.text) + out)
    case Mark(_) =>
      (EMPTY, FlushEffect(b) + [event])
  }

  class LiveEventCoalescer<O> {
    const coalescer: DeltaCoalescer<O>

    constructor (maxBytes: nat)
      ensures fresh(coalescer)
      ensures coalescer.maxBytes == maxBytes && coalescer.Contents() == EMPTY
    {
      coalescer := new DeltaCoalescer(maxBytes);
    }

    method Push(event: Event<O>) returns (ready: seq<Event<O>>)
      modifies coalescer
      ensures (coalescer.Contents(), ready) == PushEffect(coalescer.maxBytes, old(coalescer.Contents()), event)
    {
      match event
      case Run(Text, delta) =>
        var reasoning := coalescer.FlushReasoning();
        var text := coalescer.PushText(delta);
        ready := Ready(reasoning) + Ready(text);
      case Run(Reasoning, delta) =>
        var text := coalescer.FlushText();
        var reasoning := coalescer.PushReasoning(delta);
        ready := Ready(text) + Ready(reasoning);
      case Mark(_) =>
        var text := coalescer.FlushText();
        var reasoning := coalescer.FlushReasoning();
        ready := Ready(text) + Ready(reasoning) + [event];
    }

    method FlushBuffered() returns (ready: seq<Event<O>>)
      modifies coalescer
      ensures coalescer.Contents() == EMPTY && ready == FlushEffect(old(coalescer.Contents()))
    {
      var text := coalescer.FlushText();
      var reasoning := coalescer.FlushReasoning();
      ready := Ready(text) + Ready(reasoning);
    }

    method Finish() returns (ready: seq<Event<O>>)
      modifies coalescer
      ensures coalescer.Contents() == EMPTY && ready == FlushEffect(old(coalescer.Contents()))
    {
      ready := FlushBuffered();
    }
  }

  /** One call on a live coalescer. */
  datatype Action<O> = Pushed(event: Event<O>) | Flushed

  function Act<O>(maxBytes: nat, b: Held, action: Action<O>): (Held, seq<Event<O>>) {
    match action
    case Pushed(event) => PushEffect(maxBytes, b, event)
    case Flushed => (EMPTY, FlushEffect(b))
  }

  /** Any sequence of calls: the buffers afterwards and all returned events in order. */
  function RunAll<O>(maxBytes: nat, b: Held, actions: seq<Action<O>>): (Held, seq<Event<O>>) {
    if actions == [] then (b, [])
    else
      var (before, out) := RunAll(maxBytes, b, actions[..|actions| - 1]);
      var (after, more) := Act(maxBytes, before, actions[|actions| - 1]);
      (after, out + more)
  }

  function Inputs<O>(actions: seq<Action<O>>): seq<Event<O>> {
    if actions == [] then []
    else
      match actions[|actions| - 1]
      case Pushed(event) => Inputs(actions[..|actions| - 1]) + [event]
      case Flushed => Inputs(actions[..|actions| - 1])
  }

  function Pushes<O>(events: seq<Event<O>>): seq<Action<O>> {
    if events == [] then [] else Pushes(events[..|events| - 1]) + [Pushed(events[|events| - 1])]
  }

  class RuntimeEventBus<O> {
    /** Everything published so far. A non-delta event stands for the runtime event that carries it. */
    var published: seq<Event<O>>

    method Publish(event: Event<O>)
      modifies this
      ensures published == old(published) + [event]
    {
      published := published + [event];
    }
  }

  /** Publishes and collects a delta that left the coalescer. */
  method PushRuntimeBusDelta<O>(bus: RuntimeEventBus<O>, coalesced: seq<Event<O>>, event: Option<Event<O>>)
    returns (r: seq<Event<O>>)
    modifies bus
    ensures r == coalesced + Ready(event)
    ensures bus.published == old(bus.published) + Ready(event)
  {
    r := coalesced;
    if event.Some? {
      bus.Publish(event.value);
      r := r + [event.value];
    }
  }

  /** One turn of the batch loop. */
  method CoalesceEvent<O>(bus: RuntimeEventBus<O>, coalescer: DeltaCoalescer<O>, coalesced: seq<Event<O>>,
                          event: Event<O>) returns (r: seq<Event<O>>)
    modifies bus, coalescer
    ensures var (held, out) := PushEffect(coalescer.maxBytes, old(coalescer.Contents()), event);
            && coalescer.Contents() == held
            && r == coalesced + out
            && bus.published == old(bus.published) + out
  {
    match event
    case Run(Text, delta) =>
      var reasoning := coalescer.FlushReasoning();
      r := PushRuntimeBusDelta(bus, coalesced, reasoning);
      var text := coalescer.PushText(delta);
      r := PushRuntimeBusDelta(bus, r, text);
    case Run(Reasoning, delta) =>
      var text := coalescer.FlushText();
      r := PushRuntimeBusDelta(bus, coalesced, text);
      var reasoning := coalescer.PushReasoning(delta);
      r := PushRuntimeBusDelta(bus, r, reasoning);
    case Mark(_) =>
      var text := coalescer.FlushText();
      r := PushRuntimeBusDelta(bus, coalesced, text);
      var reasoning := coalescer.FlushReasoning();
      r := PushRuntimeBusDelta(bus, r, reasoning);
      bus.Publish(event);
      r := r + [event];
  }

  lemma RunNothing<O>(maxBytes: nat)
    ensures RunAll<O>(maxBytes, EMPTY, Pushes([])) == (EMPTY, [])
  {
  }

  lemma RunOneMore<O>(maxBytes: nat, events: seq<Event<O>>, i: nat)
    requires i < |events|
    ensures var (held, out) := RunAll(maxBytes, EMPTY, Pushes(events[..i]));
            var (next, more) := PushEffect(maxBytes, held, events[i]);
            RunAll(maxBytes, EMPTY, Pushes(events[..i + 1])) == (next, out + more)
  {
    assert events[..i + 1][..i] == events[..i];
  }

  /** The batch form: everything a live coalescer would return for the same events and at the end, and exactly
      the same on the bus. */
  method CoalesceProviderStreamEvents<O>(bus: RuntimeEventBus<O>, events: seq<Event<O>>, maxBytes: nat)
    returns (coalesced: seq<Event<O>>)
    modifies bus
    ensures var (held, live) := RunAll(maxBytes, EMPTY, Pushes(events)); coalesced == live + FlushEffect(held)
    ensures bus.published == old(bus.published) + coalesced
  {
    hide RunAll, Pushes;
    var coalescer := new DeltaCoalescer<O>(maxBytes);
    coalesced := [];
    RunNothing<O>(maxBytes);
    for i := 0 to |events|
      invariant fresh(coalescer) && coalescer.maxBytes == maxBytes
      invariant coalescer.Contents() == RunAll<O>(maxBytes, EMPTY, Pushes(events[..i])).0
      invariant coalesced == RunAll(maxBytes, EMPTY, Pushes(events[..i])).1
      invariant bus.published == old(bus.published) + coalesced
    {
      RunOneMore(maxBytes, events, i);
      coalesced := CoalesceEvent(bus, coalescer, coalesced, events[i]);
    }
    assert events[..|events|] == events;
    var text := coalescer.FlushText();
    coalesced := PushRuntimeBusDelta(bus, coalesced, text);
    var reasoning := coalescer.FlushReasoning();
    coalesced := PushRuntimeBusDelta(bus, coalesced, reasoning);
  }

  // ----- Conservation -----

  /** At most one buffer holds bytes, and fewer than the threshold; with threshold 0 neither does. */
  ghost predicate OneSmallBuffer(maxBytes: nat, b: Held) {
    && (b.text == [] || b.reasoning == [])
    && (b.text == [] || |b.text| < maxBytes)
    && (b.reasoning == [] || |b.reasoning| < maxBytes)
  }

  /** Over every sequence of calls, including flushes at any time. */
  lemma {:induction false} BuffersStaySmall<O>(maxBytes: nat, actions: seq<Action<O>>)
    ensures OneSmallBuffer(maxBytes, RunAll(maxBytes, EMPTY, actions).0)
  {
    if actions != [] {
      BuffersStaySmall(maxBytes, actions[..|actions| - 1]);
    }
  }

  function Input<O>(action: Action<O>): seq<Event<O>> {
    if action.Pushed? then [action.event] else []
  }

  lemma FlattenEmit<O>(kind: DeltaKind, buffer: seq<byte>)
    ensures Flatten(Emit<O>(kind, buffer)) == Tagged(kind, buffer)
  {
    if buffer != [] { FlattenOne<DeltaKind, byte, O>(Run(kind, buffer)); }
  }

  lemma FlattenHeld<O>(b: Held)
    ensures Flatten(FlushEffect<O>(b)) == Tagged(Text, b.text) + Tagged(Reasoning, b.reasoning)
  {
    FlattenEmit<O>(Text, b.text);
    FlattenEmit<O>(Reasoning, b.reasoning);
    FlattenConcat(Emit<O>(Text, b.text), Emit<O>(Reasoning, b.reasoning));
  }

  lemma FlattenBuffered<O>(maxBytes: nat, kind: DeltaKind, buffer: seq<byte>, delta: seq<byte>)
    ensures var (kept, out) := Buffered<O>(maxBytes, kind, buffer + delta);
            Tagged(kind, buffer) + Tagged(kind, delta) == Flatten(out) + Tagged(kind, kept)
  {
    FlattenEmit<O>(kind, buffer + delta);
    TaggedConcat<DeltaKind, byte, O>(kind, buffer, delta);
  }

  lemma TextConserves<O>(maxBytes: nat, b: Held, delta: seq<byte>)
    requires OneSmallBuffer(maxBytes, b)
    ensures var (next, out) := PushEffect<O>(maxBytes, b, Run(Text, delta));
            (Tagged(Text, b.text) + Tagged(Reasoning, b.reasoning)) + Tagged(Text, delta) ==
            Flatten(out) + (Tagged(Text, next.text) + Tagged(Reasoning, next.reasoning))
  {
    hide Flatten, Tagged, Buffered, Emit;
    var (kept, more) := Buffered<O>(maxBytes, Text, b.text + delta);
    NothingTagged<O>();
    FlattenEmit<O>(Reasoning, b.reasoning);
    FlattenBuffered<O>(maxBytes, Text, b.text, delta);
    FlattenConcat(Emit<O>(Reasoning, b.reasoning), more);
    Rearranged<O>(Tagged(Text, b.text), Tagged(Reasoning, b.reasoning), Tagged(Text, delta), Flatten(more),
                  Tagged(Text, kept));
  }

  lemma ReasoningConserves<O>(maxBytes: nat, b: Held, delta: seq<byte>)
    ensures var (next, out) := PushEffect<O>(maxBytes, b, Run(Reasoning, delta));
            (Tagged(Text, b.text) + Tagged(Reasoning, b.reasoning)) + Tagged(Reasoning, delta) ==
            Flatten(out) + (Tagged(Text, next.text) + Tagged(Reasoning, next.reasoning))
  {
    hide Flatten, Tagged, Buffered, Emit;
    var (kept, more) := Buffered<O>(maxBytes, Reasoning, b.reasoning + delta);
    NothingTagged<O>();
    FlattenEmit<O>(Text, b.text);
    FlattenBuffered<O>(maxBytes, Reasoning, b.reasoning, delta);
    FlattenConcat(Emit<O>(Text, b.text), more);
    Reassociated<O>(Tagged(Text, b.text), Tagged(Reasoning, b.reasoning), Tagged(Reasoning, delta), Flatten(more),
                    Tagged(Reasoning, kept));
  }

  /** One call neither loses, invents, relabels nor reorders anything. */
  lemma ActConserves<O>(maxBytes: nat, b: Held, action: Action<O>)
    requires OneSmallBuffer(maxBytes, b)
    ensures var (next, out) := Act(maxBytes, b, action);
            Flatten(FlushEffect<O>(b)) + Flatten(Input(action)) == Flatten(out) + Flatten(FlushEffect<O>(next))
  {
    hide Flatten, Tagged, FlushEffect, PushEffect;
    var (next, out) := Act(maxBytes, b, action);
    FlattenHeld<O>(b);
    FlattenHeld<O>(next);
    NothingTagged<O>();
    NothingHeld<O>();
    match action
    case Flushed =>
    case Pushed(event) =>
      FlattenOne(event);
      match event
      case Run(Text, delta) => TextConserves<O>(maxBytes, b, delta);
      case Run(Reasoning, delta) => ReasoningConserves<O>(maxBytes, b, delta);
      case Mark(e) =>
        FlattenConcat(FlushEffect<O>(b), [event]);
        MarkEffect(maxBytes, b, e);
  }

  lemma MarkEffect<O>(maxBytes: nat, b: Held, e: O)
    ensures PushEffect(maxBytes, b, Mark(e)) == (EMPTY, FlushEffect(b) + [Mark(e)])
  {
  }

  type Labelled<O> = seq<Atom<DeltaKind, byte, O>>

  /** What a text delta does to a buffered text or reasoning, of which one is empty. */
  lemma Rearranged<O>(text: Labelled<O>, reasoning: Labelled<O>, delta: Labelled<O>, out: Labelled<O>,
                      kept: Labelled<O>)
    requires text == [] || reasoning == []
    requires text + delta == out + kept
    ensures (text + reasoning) + delta == (reasoning + out) + (kept + [])
  {
    assert (reasoning + out) + (kept + []) == reasoning + (out + kept);
    if text == [] {
      assert text + delta == delta && text + reasoning == reasoning;
    } else {
      assert text + reasoning == text && reasoning + (out + kept) == out + kept;
    }
  }

  lemma Reassociated<O>(text: Labelled<O>, reasoning: Labelled<O>, delta: Labelled<O>, out: Labelled<O>,
                        kept: Labelled<O>)
    requires reasoning + delta == out + kept
    ensures (text + reasoning) + delta == (text + out) + ([] + kept)
  {
    assert (text + reasoning) + delta == text + (reasoning + delta);
    assert (text + out) + ([] + kept) == text + (out + kept);
  }

  lemma NothingTagged<O>()
    ensures Flatten<DeltaKind, byte, O>([]) == []
    ensures forall kind :: Tagged<DeltaKind, byte, O>(kind, []) == []
  {
  }

  /** Main result: whatever is pushed and whenever the buffers are drained, the returned events followed by a
      final drain are the pushed events, once empty deltas are dropped and neighbours of one kind are joined.
      In particular the other events stay in place. Coalescing never makes a stream longer. */
  lemma CoalescingConserves<O>(maxBytes: nat, actions: seq<Action<O>>)
    ensures var (held, out) := RunAll(maxBytes, EMPTY, actions);
            && Merge(out + FlushEffect(held)) == Merge(Inputs(actions))
            && |out + FlushEffect(held)| <= |Inputs(actions)|
  {
    var (held, out) := RunAll(maxBytes, EMPTY, actions);
    RunConserves(maxBytes, actions);
    FlattenConcat(out, FlushEffect(held));
    MergeEqualIffFlattenEqual(out + FlushEffect(held), Inputs(actions));
    RunNotLonger(maxBytes, actions);
  }

  lemma {:induction false} RunConserves<O>(maxBytes: nat, actions: seq<Action<O>>)
    ensures var (held, out) := RunAll(maxBytes, EMPTY, actions);
            Flatten(out) + Flatten(FlushEffect(held)) == Flatten(Inputs(actions))
  {
    hide Flatten, FlushEffect, Act;
    if actions == [] {
      assert Flatten<DeltaKind, byte, O>([]) == [] && FlushEffect<O>(EMPTY) == [] by {
        NothingTagged<O>();
        NothingHeld<O>();
      }
    } else {
      var front, last := actions[..|actions| - 1], actions[|actions| - 1];
      var (before, out) := RunAll(maxBytes, EMPTY, front);
      var (after, more) := Act(maxBytes, before, last);
      RunConserves(maxBytes, front);
      BuffersStaySmall(maxBytes, front);
      ActConserves(maxBytes, before, last);
      assert Inputs(actions) == Inputs(front) + Input(last);
      assert RunAll(maxBytes, EMPTY, actions) == (after, out + more);
      FlattenConcat(Inputs(front), Input(last));
      FlattenConcat(out, more);
      Shift(Flatten(out), Flatten(FlushEffect(before)), Flatten(Input(last)), Flatten(more),
            Flatten(FlushEffect(after)));
    }
  }

  lemma NothingHeld<O>()
    ensures FlushEffect<O>(EMPTY) == []
  {
  }

  lemma Shift<T>(out: seq<T>, before: seq<T>, input: seq<T>, more: seq<T>, after: seq<T>)
    requires before + input == more + after
    ensures (out + more) + after == (out + before) + input
  {
    assert (out + more) + after == out + (more + after);
    assert (out + before) + input == out + (before + input);
  }

  lemma {:induction false} RunNotLonger<O>(maxBytes: nat, actions: seq<Action<O>>)
    ensures var (held, out) := RunAll(maxBytes, EMPTY, actions);
            |out| + |FlushEffect<O>(held)| <= |Inputs(actions)|
  {
    if actions != [] {
      RunNotLonger(maxBytes, actions[..|actions| - 1]);
    }
  }

  lemma {:induction false} PushedInputs<O>(events: seq<Event<O>>)
    ensures Inputs(Pushes(events)) == events
  {
    if events != [] {
      PushedInputs(events[..|events| - 1]);
      assert Pushes(events)[..|events| - 1] == Pushes(events[..|events| - 1]) by { PushesLength(events); }
    }
  }

  lemma {:induction false} PushesLength<O>(events: seq<Event<O>>)
    ensures |Pushes(events)| == |events|
  {
    if events != [] { PushesLength(events[..|events| - 1]); }
  }

  /** The batch form returns the same stream, never with more events than it was given. */
  lemma BatchConserves<O>(maxBytes: nat, events: seq<Event<O>>)
    ensures var (held, out) := RunAll(maxBytes, EMPTY, Pushes(events));
            && Merge(out + FlushEffect(held)) == Merge(events)
            && |out + FlushEffect(held)| <= |events|
  {
    CoalescingConserves(maxBytes, Pushes(events));
    PushedInputs(events);
  }
}
