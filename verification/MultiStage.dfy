/** Stages in a row, each translating the output of the one before:
    `src/runtime/MultiStage.cpp`. A stage is given by what it answers to its calls,
    as a function of all calls so far, so it can be any state machine. */
module MultiStages {
  import opened Keys
  import opened Contexts
  import Q = SendQueue

  const NO_DEVICE := -1

  datatype Call = Update(event: KeyEvent, device: int) | SetActive(indices: seq<int>)

  type Calls = seq<Call>

  type Behaviour = Calls -> KeySequence

  /** Timeouts, virtual keys and actions are for the server. */
  predicate IsServerEvent(event: KeyEvent) {
    event.key == TIMEOUT || IsVirtualKey(event.key) || IsActionKey(event.key)
  }

  // ---------------------------------------------------------------------------
  // What stages do with the output of those before them

  datatype Translated = Translated(output: KeySequence, calls: Calls)

  function Invoke(stage: Behaviour, calls: Calls, call: Call): Translated {
    Translated(stage(calls + [call]), calls + [call])
  }

  /** Translates events one by one. Those for the server are forwarded, except by
      the first stage. */
  function Translate(stage: Behaviour, calls: Calls, events: KeySequence, device: int, first: bool): Translated
    decreases |events|
  {
    if events == [] then Translated([], calls)
    else if !first && IsServerEvent(events[0]) then
      var others := Translate(stage, calls, events[1..], device, first);
      Translated([events[0]] + others.output, others.calls)
    else
      var one := Invoke(stage, calls, Update(events[0], device));
      var others := Translate(stage, one.calls, events[1..], device, first);
      Translated(one.output + others.output, others.calls)
  }

  /** Translating is in order: what is output for one part of the events comes before
      what is output for the rest, which the stage is given behind the first part. */
  lemma {:induction false} TranslateInOrder(stage: Behaviour, calls: Calls, a: KeySequence, b: KeySequence, device: int, first: bool)
    ensures var ta := Translate(stage, calls, a, device, first);
      var tb := Translate(stage, ta.calls, b, device, first);
      Translate(stage, calls, a + b, device, first) == Translated(ta.output + tb.output, tb.calls)
    decreases |a|
  {
    hide IsServerEvent;
    if a == [] {
      assert a + b == b;
      assert [] + Translate(stage, calls, b, device, first).output == Translate(stage, calls, b, device, first).output;
    } else {
      assert (a + b)[1..] == a[1..] + b;
      var one := if !first && IsServerEvent(a[0]) then Translated([a[0]], calls) else Invoke(stage, calls, Update(a[0], device));
      TranslateInOrder(stage, one.calls, a[1..], b, device, first);
      var ta := Translate(stage, one.calls, a[1..], device, first);
      Associative(one.output, ta.output, Translate(stage, ta.calls, b, device, first).output);
    }
  }

  /** So a stage that answers each event with itself outputs the events in the order in
      which they came. */
  lemma {:induction false} EchoesInOrder(stage: Behaviour, calls: Calls, events: KeySequence, device: int, first: bool)
    requires forall more: Calls, event: KeyEvent :: stage(more + [Update(event, device)]) == [event]
    ensures Translate(stage, calls, events, device, first).output == events
    decreases |events|
  {
    hide IsServerEvent;
    if events != [] {
      var n := |events| - 1;
      assert events == events[..n] + [events[n]];
      TranslateInOrder(stage, calls, events[..n], [events[n]], device, first);
      EchoesInOrder(stage, calls, events[..n], device, first);
      assert [events[n]][1..] == [] && [events[n]] + [] == [events[n]];
    }
  }

  /** Timeouts and virtual keys are applied in all stages. */
  predicate ForAllStages(event: KeyEvent) { event.key == TIMEOUT || IsVirtualKey(event.key) }

  function UpdateStage(stage: Behaviour, calls: Calls, event: KeyEvent, input: KeySequence, device: int, first: bool): Translated {
    var applied := if ForAllStages(event) && !first then Invoke(stage, calls, Update(event, device)) else Translated([], calls);
    var others := Translate(stage, applied.calls, input, device, first);
    Translated(applied.output + others.output, others.calls)
  }

  /** One event that a stage outputs: a later stage passes timeouts, virtual keys and
      actions on without being called, and translates everything else. */
  lemma TranslatedAlone(stage: Behaviour, calls: Calls, event: KeyEvent, device: int)
    ensures Translate(stage, calls, [event], device, false)
      == if event.key == TIMEOUT || IsVirtualKey(event.key) || IsActionKey(event.key) then Translated([event], calls)
         else Invoke(stage, calls, Update(event, device))
    ensures Translate(stage, calls, [event], device, true) == Invoke(stage, calls, Update(event, device))
  {
    assert [event][1..] == [] && [event] + [] == [event];
    var one := Invoke(stage, calls, Update(event, device));
    assert one.output + [] == one.output;
  }

  /** An input that is a timeout or a virtual key is also given to each later stage
      itself; one of a device is not. */
  lemma InputReachesStage(stage: Behaviour, calls: Calls, event: KeyEvent, device: int)
    requires IsDeviceKey(event.key) || IsVirtualKey(event.key) || event.key == TIMEOUT
    ensures UpdateStage(stage, calls, event, [], device, false)
      == if IsDeviceKey(event.key) then Translated([], calls) else Invoke(stage, calls, Update(event, device))
    ensures UpdateStage(stage, calls, event, [], device, true) == Translated([], calls)
  {
    var one := Invoke(stage, calls, Update(event, device));
    assert one.output + [] == one.output;
  }

  datatype Results = Results(output: KeySequence, calls: seq<Calls>)

  /** The stages from `i` on. */
  function UpdateFrom(stages: seq<Behaviour>, calls: seq<Calls>, i: nat, event: KeyEvent, input: KeySequence, device: int): (r: Results)
    requires i <= |stages| == |calls|
    ensures |r.calls| == |calls|
    decreases |stages| - i
  {
    if i == |stages| then Results(input, calls)
    else
      var one := UpdateStage(stages[i], calls[i], event, input, device, i == 0);
      UpdateFrom(stages, calls[i := one.calls], i + 1, event, one.output, device)
  }

  // ---------------------------------------------------------------------------
  // Nothing for the server is lost

  function ServerEvents(s: KeySequence): KeySequence {
    if s == [] then []
    else (if IsServerEvent(s[0]) then [s[0]] else []) + ServerEvents(s[1..])
  }

  function OtherEvents(s: KeySequence): KeySequence {
    if s == [] then []
    else (if IsServerEvent(s[0]) then [] else [s[0]]) + OtherEvents(s[1..])
  }

  lemma {:induction false} ServerEventsSplit(a: KeySequence, b: KeySequence)
    ensures ServerEvents(a + b) == ServerEvents(a) + ServerEvents(b)
    decreases |a|
  {
    hide IsServerEvent;
    if a == [] {
      assert a + b == b;
    } else {
      assert (a + b)[1..] == a[1..] + b;
      ServerEventsSplit(a[1..], b);
      Associative(if IsServerEvent(a[0]) then [a[0]] else [], ServerEvents(a[1..]), ServerEvents(b));
    }
  }

  lemma {:induction false} PrependSubsequence(a: KeySequence, more: KeySequence, b: KeySequence)
    requires Q.IsSubsequence(a, b)
    ensures Q.IsSubsequence(a, more + b)
    decreases |more|
  {
    if more == [] {
      assert more + b == b;
    } else {
      assert (more + b)[1..] == more[1..] + b;
      PrependSubsequence(a, more[1..], b);
    }
  }

  lemma {:induction false} SubsequenceTransitive(a: KeySequence, b: KeySequence, c: KeySequence)
    requires Q.IsSubsequence(a, b) && Q.IsSubsequence(b, c)
    ensures Q.IsSubsequence(a, c)
    decreases |c|
  {
    if a != [] {
      if b[0] == c[0] && Q.IsSubsequence(b[1..], c[1..]) {
        if a[0] == b[0] && Q.IsSubsequence(a[1..], b[1..]) {
          SubsequenceTransitive(a[1..], b[1..], c[1..]);
        } else {
          SubsequenceTransitive(a, b[1..], c[1..]);
        }
      } else {
        SubsequenceTransitive(a, b, c[1..]);
      }
    }
  }

  /** What a later stage forwards: all events for the server, in order. */
  lemma {:induction false} TranslateForwards(stage: Behaviour, calls: Calls, events: KeySequence, device: int)
    ensures Q.IsSubsequence(ServerEvents(events), ServerEvents(Translate(stage, calls, events, device, false).output))
    decreases |events|
  {
    hide IsServerEvent;
    if events != [] {
      if IsServerEvent(events[0]) {
        TranslateForwards(stage, calls, events[1..], device);
        var others := Translate(stage, calls, events[1..], device, false).output;
        assert ([events[0]] + others)[1..] == others;
      } else {
        var one := Invoke(stage, calls, Update(events[0], device));
        TranslateForwards(stage, one.calls, events[1..], device);
        var others := Translate(stage, one.calls, events[1..], device, false).output;
        ServerEventsSplit(one.output, others);
        assert ServerEvents(events) == ServerEvents(events[1..]);
        PrependSubsequence(ServerEvents(events[1..]), ServerEvents(one.output), ServerEvents(others));
      }
    }
  }

  lemma StageForwards(stage: Behaviour, calls: Calls, event: KeyEvent, input: KeySequence, device: int)
    ensures Q.IsSubsequence(ServerEvents(input), ServerEvents(UpdateStage(stage, calls, event, input, device, false).output))
  {
    hide ServerEvents, Translate, ForAllStages, Q.IsSubsequence;
    var applied := if ForAllStages(event) then Invoke(stage, calls, Update(event, device)) else Translated([], calls);
    TranslateForwards(stage, applied.calls, input, device);
    var others := Translate(stage, applied.calls, input, device, false).output;
    ServerEventsSplit(applied.output, others);
    PrependSubsequence(ServerEvents(input), ServerEvents(applied.output), ServerEvents(others));
  }

  /** Every event for the server which a stage outputs leaves the last stage, and
      such events do not overtake each other. */
  lemma {:induction false} ServerEventsArrive(stages: seq<Behaviour>, calls: seq<Calls>, i: nat, event: KeyEvent,
                                              input: KeySequence, device: int)
    requires 0 < i <= |stages| == |calls|
    ensures Q.IsSubsequence(ServerEvents(input), ServerEvents(UpdateFrom(stages, calls, i, event, input, device).output))
    decreases |stages| - i
  {
    hide ServerEvents, UpdateStage, Q.IsSubsequence;
    if i == |stages| {
      Q.SubsequenceOfItself(ServerEvents(input));
    } else {
      var one := UpdateStage(stages[i], calls[i], event, input, device, false);
      StageForwards(stages[i], calls[i], event, input, device);
      ServerEventsArrive(stages, calls[i := one.calls], i + 1, event, one.output, device);
      SubsequenceTransitive(ServerEvents(input), ServerEvents(one.output),
                            ServerEvents(UpdateFrom(stages, calls[i := one.calls], i + 1, event, one.output, device).output));
    }
  }

  function UpdatesOf(events: KeySequence, device: int): (r: Calls)
    ensures |r| == |events| && forall i :: 0 <= i < |r| ==> r[i] == Update(events[i], device)
  {
    seq(|events|, i requires 0 <= i < |events| => Update(events[i], device))
  }

  /** The events which a stage translates. */
  function Taken(events: KeySequence, first: bool): KeySequence {
    if first then events else OtherEvents(events)
  }

  /** A stage is called for exactly the events which it translates. */
  lemma {:induction false} TranslateCalls(stage: Behaviour, calls: Calls, events: KeySequence, device: int, first: bool)
    ensures Translate(stage, calls, events, device, first).calls == calls + UpdatesOf(Taken(events, first), device)
    decreases |events|
  {
    hide IsServerEvent, UpdatesOf, Taken;
    TakenFirst(events, first);
    if events == [] {
      NoCalls(calls, device);
    } else if !first && IsServerEvent(events[0]) {
      TranslateCalls(stage, calls, events[1..], device, first);
    } else {
      TranslateCalls(stage, calls + [Update(events[0], device)], events[1..], device, first);
      OneMoreCall(calls, events[0], Taken(events[1..], first), device);
    }
  }

  lemma TakenFirst(events: KeySequence, first: bool)
    ensures events == [] ==> Taken(events, first) == []
    ensures events != [] ==>
      Taken(events, first)
      == (if !first && IsServerEvent(events[0]) then [] else [events[0]]) + Taken(events[1..], first)
  {
    if events != [] && first {
      assert events == [events[0]] + events[1..];
    }
  }

  lemma NoCalls(calls: Calls, device: int)
    ensures calls + UpdatesOf([], device) == calls
  {
  }

  lemma OneMoreCall(calls: Calls, event: KeyEvent, others: KeySequence, device: int)
    ensures calls + [Update(event, device)] + UpdatesOf(others, device) == calls + UpdatesOf([event] + others, device)
  {
  }

  /** Each stage but the first gets the event itself if it concerns all stages, and
      then what the stage before it output for the next one. */
  lemma StageCalls(stage: Behaviour, calls: Calls, event: KeyEvent, input: KeySequence, device: int)
    ensures UpdateStage(stage, calls, event, input, device, false).calls
      == calls + (if ForAllStages(event) then [Update(event, device)] else []) + UpdatesOf(OtherEvents(input), device)
  {
    hide ForAllStages, OtherEvents, Translate;
    TranslateCalls(stage, if ForAllStages(event) then calls + [Update(event, device)] else calls, input, device, false);
    assert calls + [] == calls;
  }

  // ---------------------------------------------------------------------------
  // Client contexts are translated to each stage

  /** The indices of a stage, so that its first context has the index 0. */
  function Local(indices: seq<int>, begin: int, end: int): seq<int> {
    if indices == [] then []
    else (if begin <= indices[0] < end then [indices[0] - begin] else []) + Local(indices[1..], begin, end)
  }

  function Shifted(indices: seq<int>, offset: int): seq<int> {
    if indices == [] then [] else [indices[0] + offset] + Shifted(indices[1..], offset)
  }

  function Sum(counts: seq<nat>): nat {
    if counts == [] then 0 else counts[0] + Sum(counts[1..])
  }

  /** The local indices of all stages, translated back. */
  function Rejoined(indices: seq<int>, begin: int, counts: seq<nat>): seq<int>
    decreases |counts|
  {
    if counts == [] then []
    else Shifted(Local(indices, begin, begin + counts[0]), begin) + Rejoined(indices, begin + counts[0], counts[1..])
  }

  /** What a stage gets are indices of its contexts, and ascends like the list. */
  lemma {:induction false} LocalAscends(indices: seq<int>, begin: int, end: int)
    requires Ascending(indices)
    ensures Ascending(Local(indices, begin, end))
    ensures forall x :: x in Local(indices, begin, end) ==> 0 <= x < end - begin && indices[0] - begin <= x
    decreases |indices|
  {
    if indices != [] {
      var later := indices[1..];
      assert forall i :: 0 <= i < |later| ==> later[i] == indices[i + 1];
      LocalAscends(later, begin, end);
      var rest := Local(later, begin, end);
      if rest != [] {
        assert later[0] >= indices[0];
      }
      assert forall i :: 0 <= i < |rest| ==> rest[i] in rest;
    }
  }

  lemma {:induction false} LocalSplit(a: seq<int>, b: seq<int>, begin: int, end: int)
    ensures Local(a + b, begin, end) == Local(a, begin, end) + Local(b, begin, end)
    decreases |a|
  {
    if a == [] {
      assert a + b == b;
    } else {
      assert (a + b)[1..] == a[1..] + b;
      LocalSplit(a[1..], b, begin, end);
      Associative(if begin <= a[0] < end then [a[0] - begin] else [], Local(a[1..], begin, end), Local(b, begin, end));
    }
  }

  lemma {:induction false} NoneLocal(indices: seq<int>, begin: int, end: int)
    requires forall i :: 0 <= i < |indices| ==> !(begin <= indices[i] < end)
    ensures Local(indices, begin, end) == []
    decreases |indices|
  {
    if indices != [] {
      NoneLocal(indices[1..], begin, end);
    }
  }

  lemma {:induction false} AllLocal(indices: seq<int>, begin: int, end: int)
    requires forall i :: 0 <= i < |indices| ==> begin <= indices[i] < end
    ensures Shifted(Local(indices, begin, end), begin) == indices
    decreases |indices|
  {
    if indices != [] {
      AllLocal(indices[1..], begin, end);
      assert Shifted(Local(indices, begin, end), begin) == [indices[0]] + Shifted(Local(indices[1..], begin, end), begin);
    }
  }

  /** Where the indices from `bound` on begin. */
  function SplitAt(indices: seq<int>, bound: int): (k: nat)
    requires Ascending(indices)
    ensures k <= |indices|
    ensures forall i :: 0 <= i < k ==> indices[i] < bound
    ensures forall i :: k <= i < |indices| ==> indices[i] >= bound
  {
    if indices == [] || indices[0] >= bound then 0
    else
      assert forall i :: 0 <= i < |indices| - 1 ==> indices[1..][i] == indices[i + 1];
      var k := 1 + SplitAt(indices[1..], bound);
      assert forall i :: 1 <= i < |indices| ==> indices[i] == indices[1..][i - 1];
      k
  }

  lemma FrontNotLocal(a: seq<int>, b: seq<int>, begin: int, end: int)
    requires forall i :: 0 <= i < |a| ==> a[i] < begin
    ensures Local(a + b, begin, end) == Local(b, begin, end)
  {
    hide Local;
    LocalSplit(a, b, begin, end);
    NoneLocal(a, begin, end);
    assert [] + Local(b, begin, end) == Local(b, begin, end);
  }

  lemma {:induction false} IgnoredInFront(a: seq<int>, b: seq<int>, begin: int, counts: seq<nat>)
    requires forall i :: 0 <= i < |a| ==> a[i] < begin
    ensures Rejoined(a + b, begin, counts) == Rejoined(b, begin, counts)
    decreases |counts|
  {
    if counts != [] {
      var end := begin + counts[0];
      FrontNotLocal(a, b, begin, end);
      IgnoredInFront(a, b, end, counts[1..]);
      hide Local, Shifted;
      RejoinedFirst(a + b, begin, counts);
      RejoinedFirst(b, begin, counts);
      hide Rejoined;
    }
  }

  lemma RejoinedFirst(indices: seq<int>, begin: int, counts: seq<nat>)
    requires counts != []
    ensures Rejoined(indices, begin, counts)
      == Shifted(Local(indices, begin, begin + counts[0]), begin) + Rejoined(indices, begin + counts[0], counts[1..])
  {
  }

  /** Ascending client contexts are split among the stages without loss: what the
      stages get, translated back, is the list again. */
  lemma {:induction false} IndicesRejoin(indices: seq<int>, begin: int, counts: seq<nat>)
    requires Ascending(indices) && InRange(indices, begin, begin + Sum(counts))
    ensures Rejoined(indices, begin, counts) == indices
    decreases |counts|
  {
    hide Ascending, InRange, Local, Shifted;
    if counts == [] {
      if indices != [] {
        RangeNotEmpty(indices, begin, begin + Sum(counts));
        assert false;
      }
    } else {
      var end := begin + counts[0];
      var k := FirstStage(indices, begin, end, begin + Sum(counts));
      RejoinedFirst(indices, begin, counts);
      IndicesRejoin(indices[k..], end, counts[1..]);
      hide Rejoined;
      IgnoredInFront(indices[..k], indices[k..], end, counts[1..]);
      assert indices == indices[..k] + indices[k..];
    }
  }

  predicate InRange(indices: seq<int>, begin: int, end: int) {
    forall i :: 0 <= i < |indices| ==> begin <= indices[i] < end
  }

  lemma RangeNotEmpty(indices: seq<int>, begin: int, end: int)
    requires indices != [] && InRange(indices, begin, end)
    ensures begin < end
  {
    assert begin <= indices[0] < end;
  }

  lemma FirstStage(indices: seq<int>, begin: int, end: int, bound: int) returns (k: nat)
    requires Ascending(indices) && InRange(indices, begin, bound)
    ensures k <= |indices| && Shifted(Local(indices, begin, end), begin) == indices[..k]
    ensures Ascending(indices[k..]) && InRange(indices[k..], end, bound)
    ensures forall i :: 0 <= i < |indices[..k]| ==> indices[..k][i] < end
  {
    hide Local, Shifted;
    k := SplitAt(indices, end);
    var a, b := indices[..k], indices[k..];
    assert indices == a + b;
    LocalSplit(a, b, begin, end);
    AllLocal(a, begin, end);
    NoneLocal(b, begin, end);
    assert Local(a, begin, end) + [] == Local(a, begin, end);
  }

  // ---------------------------------------------------------------------------
  // Activating contexts

  function SetActiveStage(stage: Behaviour, calls: Calls, input: KeySequence, local: seq<int>): Translated {
    var translated := Translate(stage, calls, input, NO_DEVICE, false);
    var activated := Invoke(stage, translated.calls, SetActive(local));
    Translated(translated.output + activated.output, activated.calls)
  }

  /** The stages from `i` on, the first of which has the contexts from `begin` on. */
  function SetActiveFrom(stages: seq<Behaviour>, counts: seq<nat>, calls: seq<Calls>, i: nat, begin: int,
                         indices: seq<int>, input: KeySequence): (r: Results)
    requires i <= |stages| == |calls| == |counts|
    ensures |r.calls| == |calls|
    decreases |stages| - i
  {
    if i == |stages| then Results(input, calls)
    else
      var end := begin + counts[i];
      var one := SetActiveStage(stages[i], calls[i], input, Local(indices, begin, end));
      SetActiveFrom(stages, counts, calls[i := one.calls], i + 1, end, indices, one.output)
  }

  // ---------------------------------------------------------------------------
  // The stages

  class MultiStage {
    const stages: seq<Behaviour>
    const contextCounts: seq<nat>
    var calls: seq<Calls>
    var activeClientContexts: seq<int>
    var inputBuffer: KeySequence
    var outputBuffer: KeySequence
    var contextActiveBuffer: KeySequence

    ghost predicate Valid()
      reads this
    {
      |calls| == |stages| == |contextCounts|
    }

    constructor (stages: seq<Behaviour>, contextCounts: seq<nat>)
      requires |stages| == |contextCounts|
      ensures Valid() && fresh(this) && this.stages == stages && this.contextCounts == contextCounts
      ensures outputBuffer == [] && forall i :: 0 <= i < |calls| ==> calls[i] == []
    {
      this.stages, this.contextCounts := stages, contextCounts;
      calls := seq(|stages|, i => []);
      activeClientContexts, inputBuffer, outputBuffer, contextActiveBuffer := [], [], [], [];
    }

    /** Calls a stage, and appends its output. */
    method CallStage(i: nat, call: Call)
      requires Valid() && i < |stages|
      modifies `calls, `outputBuffer
      ensures Valid() && calls == old(calls)[i := old(calls)[i] + [call]]
      ensures outputBuffer == old(outputBuffer) + stages[i](old(calls)[i] + [call])
    {
      calls := calls[i := calls[i] + [call]];
      outputBuffer := outputBuffer + stages[i](calls[i]);
    }

    /** Translates the events of a buffer. */
    method TranslateBuffer(i: nat, events: KeySequence, device: int, first: bool)
      requires Valid() && i < |stages|
      modifies `calls, `outputBuffer
      ensures Valid()
      ensures var r := Translate(stages[i], old(calls)[i], events, device, first);
        calls == old(calls)[i := r.calls] && outputBuffer == old(outputBuffer) + r.output
    {
      hide IsServerEvent;
      var j := 0;
      assert events[0..] == events && calls == calls[i := calls[i]];
      while j < |events|
        invariant j <= |events| && Valid()
        invariant var r, rest := Translate(stages[i], old(calls)[i], events, device, first), Translate(stages[i], calls[i], events[j..], device, first);
          r.calls == rest.calls && old(outputBuffer) + r.output == outputBuffer + rest.output
        invariant calls == old(calls)[i := calls[i]]
      {
        assert events[j..][1..] == events[j + 1..];
        ghost var before := outputBuffer;
        if !first && IsServerEvent(events[j]) {
          outputBuffer := outputBuffer + [events[j]];
          ghost var others := Translate(stages[i], calls[i], events[j + 1..], device, first);
          assert before + ([events[j]] + others.output) == outputBuffer + others.output;
        } else {
          CallStage(i, Call.Update(events[j], device));
          ghost var others := Translate(stages[i], calls[i], events[j + 1..], device, first);
          assert before + (stages[i](calls[i]) + others.output) == outputBuffer + others.output;
        }
        j := j + 1;
      }
      assert events[j..] == [] && outputBuffer + [] == outputBuffer;
    }

    /** Translates the input buffer with one stage. */
    method UpdateOne(i: nat, event: KeyEvent, device: int)
      requires Valid() && i < |stages| && outputBuffer == []
      modifies `calls, `outputBuffer
      ensures Valid()
      ensures var one := UpdateStage(stages[i], old(calls)[i], event, inputBuffer, device, i == 0);
        calls == old(calls)[i := one.calls] && outputBuffer == one.output
    {
      hide Translate, ForAllStages;
      if ForAllStages(event) && i != 0 {
        CallStage(i, Call.Update(event, device));
      }
      TranslateBuffer(i, inputBuffer, device, i == 0);
    }

    method Update(event: KeyEvent, device: int) returns (output: KeySequence)
      requires Valid() && outputBuffer == []
      modifies `calls, `inputBuffer, `outputBuffer
      ensures Valid() && outputBuffer == []
      ensures Results(output, calls) == UpdateFrom(stages, old(calls), 0, event, [event], device)
    {
      hide UpdateStage;
      outputBuffer := outputBuffer + [event];
      assert outputBuffer == [event];
      var i := 0;
      while i < |stages|
        invariant i <= |stages| && Valid()
        invariant UpdateFrom(stages, calls, i, event, outputBuffer, device) == UpdateFrom(stages, old(calls), 0, event, [event], device)
      {
        inputBuffer, outputBuffer := outputBuffer, inputBuffer;
        outputBuffer := [];
        UpdateOne(i, event, device);
        i := i + 1;
      }
      output := outputBuffer;
      outputBuffer := [];
    }

    method SetActiveOne(i: nat, local: seq<int>)
      requires Valid() && i < |stages| && outputBuffer == []
      modifies `calls, `outputBuffer
      ensures Valid()
      ensures var one := SetActiveStage(stages[i], old(calls)[i], contextActiveBuffer, local);
        calls == old(calls)[i := one.calls] && outputBuffer == one.output
    {
      hide Translate;
      TranslateBuffer(i, contextActiveBuffer, NO_DEVICE, false);
      CallStage(i, SetActive(local));
    }

    /** Translates the client's context indices so that those of each stage start at 0. */
    method SetActiveClientContexts(indices: seq<int>) returns (output: KeySequence)
      requires Valid() && outputBuffer == []
      modifies `calls, `outputBuffer, `contextActiveBuffer, `activeClientContexts
      ensures Valid() && activeClientContexts == indices && output == outputBuffer
      ensures Results(output, calls) == SetActiveFrom(stages, contextCounts, old(calls), 0, 0, indices, [])
    {
      hide SetActiveStage, Local;
      activeClientContexts := indices;
      var contextOffset, i := 0, 0;
      while i < |stages|
        invariant i <= |stages| && Valid() && activeClientContexts == indices
        invariant SetActiveFrom(stages, contextCounts, calls, i, contextOffset, indices, outputBuffer)
          == SetActiveFrom(stages, contextCounts, old(calls), 0, 0, indices, [])
      {
        contextActiveBuffer, outputBuffer := outputBuffer, contextActiveBuffer;
        outputBuffer := [];
        var end := contextOffset + contextCounts[i];
        var local := LocalIndices(indices, contextOffset, end);
        SetActiveOne(i, local);
        contextOffset := end;
        i := i + 1;
      }
      output := outputBuffer;
    }

    static method LocalIndices(indices: seq<int>, begin: int, end: int) returns (local: seq<int>)
      ensures local == Local(indices, begin, end)
    {
      local := [];
      var i := 0;
      assert indices[0..] == indices;
      while i < |indices|
        invariant i <= |indices|
        invariant local + Local(indices[i..], begin, end) == Local(indices, begin, end)
      {
        assert indices[i..][1..] == indices[i + 1..];
        ghost var rest := Local(indices[i + 1..], begin, end);
        if begin <= indices[i] < end {
          Associative(local, [indices[i] - begin], rest);
          local := local + [indices[i] - begin];
        } else {
          assert [] + rest == rest;
        }
        i := i + 1;
      }
      assert local + [] == local;
    }

    method ReuseBuffer()
      modifies `outputBuffer
      ensures outputBuffer == []
    {
      outputBuffer := [];
    }
  }
}
