/** The send buffer while it is flushed: what passes, what is inserted, and what
    remains. `src/server/ServerState.cpp`: `flush_send_buffer`. */
module SendQueue {
  import opened Keys

  const MAX_TOGGLES := 10

  /** A virtual key which is toggled when it is flushed. */
  predicate Toggles(event: KeyEvent) { IsVirtualKey(event.key) && event.state == Down }

  /** Events which are passed on to the system. */
  predicate IsSendable(event: KeyEvent) {
    && !(IsMouseWheel(event.key) && event.state == Down)
    && !IsActionKey(event.key) && !IsVirtualKey(event.key) && event.key != TIMEOUT
  }

  function Sendable(s: KeySequence): KeySequence {
    if s == [] then []
    else (if IsSendable(s[0]) then [s[0]] else []) + Sendable(s[1..])
  }

  /** The indices of the actions which are triggered. */
  function Actions(s: KeySequence): seq<int> {
    if s == [] then []
    else
      (if IsActionKey(s[0].key) && s[0].state == Down then [s[0].key - FIRST_ACTION] else []) + Actions(s[1..])
  }

  function CountToggles(s: KeySequence): nat {
    if s == [] then 0 else (if Toggles(s[0]) then 1 else 0) + CountToggles(s[1..])
  }

  /** Among events of keys, buttons and wheel releases, the tap of a virtual key toggles it
      once, and everything else is sent in order. */
  lemma TapTogglesOnce(a: KeySequence, v: Key, b: KeySequence)
    requires IsVirtualKey(v) && OfDevice(a) && OfDevice(b)
    ensures Sendable(a + ([Press(v), Release(v)] + b)) == a + b
    ensures CountToggles(a + ([Press(v), Release(v)] + b)) == 1 && CountToggles(a) == 0
  {
    hide Sendable, CountToggles, OfDevice;
    var tap := [Press(v), Release(v)];
    AllSendable(a);
    AllSendable(b);
    SendableSplit(a, tap + b);
    SendableSplit(tap, b);
    CountSplit(a, tap + b);
    CountSplit(tap, b);
    TapPasses(v);
    assert [] + b == b;
  }

  lemma TapPasses(k: Key)
    requires IsVirtualKey(k) || IsActionKey(k)
    ensures Sendable([Press(k), Release(k)]) == []
    ensures IsVirtualKey(k) ==> CountToggles([Press(k), Release(k)]) == 1
    ensures IsActionKey(k) ==> Actions([Press(k), Release(k)]) == [k - FIRST_ACTION]
  {
    var last, tap := [Release(k)], [Press(k), Release(k)];
    assert tap[1..] == last && last[1..] == [];
    assert Sendable(last) == [] && CountToggles(last) == 0 && Actions(last) == [];
    assert Sendable(tap) == Sendable(last) && CountToggles(tap) == (if IsVirtualKey(k) then 1 else 0) + CountToggles(last);
    assert Actions(tap) == (if IsActionKey(k) then [k - FIRST_ACTION] else []) + Actions(last);
  }

  predicate OfDevice(s: KeySequence) {
    forall i :: 0 <= i < |s| ==> IsDeviceKey(s[i].key) && (IsMouseWheel(s[i].key) ==> s[i].state == Up)
  }

  lemma {:induction false} AllSendable(s: KeySequence)
    requires OfDevice(s)
    ensures Sendable(s) == s && CountToggles(s) == 0
    decreases |s|
  {
    if s != [] {
      AllSendable(s[1..]);
    }
  }

  /** An action is triggered once by its press, with its index. */
  lemma ActionTriggers(a: KeySequence, action: Key, b: KeySequence)
    requires IsActionKey(action) && OfDevice(a) && OfDevice(b)
    ensures Actions(a + ([Press(action), Release(action)] + b)) == [action - FIRST_ACTION]
    ensures Sendable(a + ([Press(action), Release(action)] + b)) == a + b
  {
    hide Sendable, Actions, OfDevice;
    var tap := [Press(action), Release(action)];
    AllSendable(a);
    AllSendable(b);
    NoActions(a);
    NoActions(b);
    SendableSplit(a, tap + b);
    SendableSplit(tap, b);
    ActionsSplit(a, tap + b);
    ActionsSplit(tap, b);
    TapPasses(action);
    assert [] + b == b && [] + [action - FIRST_ACTION] + [] == [action - FIRST_ACTION];
  }

  lemma {:induction false} NoActions(s: KeySequence)
    requires OfDevice(s)
    ensures Actions(s) == []
    decreases |s|
  {
    if s != [] {
      NoActions(s[1..]);
    }
  }

  /** The first events of the buffer `before` are passed one by one. Whenever a
      virtual key is toggled, a burst of output is inserted behind it, but not
      from the tenth toggle on. */
  predicate Drains(before: KeySequence, toggled: nat, passed: KeySequence, bursts: seq<KeySequence>, rest: KeySequence)
    decreases |passed|
  {
    if passed == [] then bursts == [] && rest == before
    else
      && before != [] && before[0] == passed[0]
      && if !Toggles(passed[0]) then Drains(before[1..], toggled, passed[1..], bursts, rest)
         else if toggled + 1 >= MAX_TOGGLES then Drains(before[1..], toggled + 1, passed[1..], bursts, rest)
         else bursts != [] && Drains(bursts[0] + before[1..], toggled + 1, passed[1..], bursts[1..], rest)
  }

  lemma {:induction false} SendableSplit(a: KeySequence, b: KeySequence)
    ensures Sendable(a + b) == Sendable(a) + Sendable(b)
    decreases |a|
  {
    hide IsSendable;
    if a == [] {
      assert a + b == b;
    } else {
      assert (a + b)[1..] == a[1..] + b;
      SendableSplit(a[1..], b);
      Associative(if IsSendable(a[0]) then [a[0]] else [], Sendable(a[1..]), Sendable(b));
    }
  }

  lemma {:induction false} ActionsSplit(a: KeySequence, b: KeySequence)
    ensures Actions(a + b) == Actions(a) + Actions(b)
    decreases |a|
  {
    hide IsActionKey;
    if a == [] {
      assert a + b == b;
    } else {
      assert (a + b)[1..] == a[1..] + b;
      ActionsSplit(a[1..], b);
      Associative(Actions([a[0]]), Actions(a[1..]), Actions(b));
    }
  }

  lemma {:induction false} CountSplit(a: KeySequence, b: KeySequence)
    ensures CountToggles(a + b) == CountToggles(a) + CountToggles(b)
    decreases |a|
  {
    if a == [] {
      assert a + b == b;
    } else {
      assert (a + b)[1..] == a[1..] + b;
      CountSplit(a[1..], b);
    }
  }

  /** One more event passes. */
  lemma {:induction false} DrainsStep(before: KeySequence, toggled: nat, passed: KeySequence, bursts: seq<KeySequence>,
                                      rest: KeySequence, burst: KeySequence)
    requires Drains(before, toggled, passed, bursts, rest) && rest != []
    ensures var inserts := Toggles(rest[0]) && toggled + CountToggles(passed) + 1 < MAX_TOGGLES;
      Drains(before, toggled, passed + [rest[0]], if inserts then bursts + [burst] else bursts,
             if inserts then burst + rest[1..] else rest[1..])
    decreases |passed|
  {
    var event := rest[0];
    if passed == [] {
      assert passed + [event] == [event] && [event][1..] == [];
      assert [burst][1..] == [];
    } else {
      assert (passed + [event])[1..] == passed[1..] + [event];
      if !Toggles(passed[0]) {
        DrainsStep(before[1..], toggled, passed[1..], bursts, rest, burst);
      } else if toggled + 1 >= MAX_TOGGLES {
        DrainsStep(before[1..], toggled + 1, passed[1..], bursts, rest, burst);
      } else {
        assert (bursts + [burst])[1..] == bursts[1..] + [burst];
        DrainsStep(bursts[0] + before[1..], toggled + 1, passed[1..], bursts[1..], rest, burst);
      }
    }
  }

  // ---------------------------------------------------------------------------
  // Conservation

  predicate WithoutToggles(s: KeySequence) { forall i :: 0 <= i < |s| ==> !Toggles(s[i]) }

  /** Without virtual keys nothing is inserted, lost or reordered. */
  lemma {:induction false} DrainIsPrefix(before: KeySequence, toggled: nat, passed: KeySequence, bursts: seq<KeySequence>, rest: KeySequence)
    requires Drains(before, toggled, passed, bursts, rest) && WithoutToggles(before)
    ensures bursts == [] && passed + rest == before
    decreases |passed|
  {
    if passed != [] {
      DrainIsPrefix(before[1..], toggled, passed[1..], bursts, rest);
      assert passed + rest == [passed[0]] + (passed[1..] + rest);
    }
  }

  /** So what was sent, and what still can be, is what could be sent before. */
  lemma DrainConservesSendable(before: KeySequence, passed: KeySequence, bursts: seq<KeySequence>, rest: KeySequence)
    requires Drains(before, 0, passed, bursts, rest) && WithoutToggles(before)
    ensures Sendable(passed) + Sendable(rest) == Sendable(before)
  {
    DrainIsPrefix(before, 0, passed, bursts, rest);
    SendableSplit(passed, rest);
  }

  function Together(bursts: seq<KeySequence>): multiset<KeyEvent> {
    if bursts == [] then multiset{} else multiset(bursts[0]) + Together(bursts[1..])
  }

  /** `a` is what remains of `b` without some of its events. */
  predicate IsSubsequence(a: KeySequence, b: KeySequence)
    decreases |b|
  {
    if a == [] then true
    else if b == [] then false
    else (a[0] == b[0] && IsSubsequence(a[1..], b[1..])) || IsSubsequence(a, b[1..])
  }

  lemma {:induction false} SubsequenceOfItself(a: KeySequence)
    ensures IsSubsequence(a, a)
    decreases |a|
  {
    if a != [] {
      SubsequenceOfItself(a[1..]);
    }
  }

  lemma {:induction false} TailIsSubsequence(burst: KeySequence, a: KeySequence, b: KeySequence)
    requires IsSubsequence(burst + a, b)
    ensures IsSubsequence(a, b)
    decreases |b|
  {
    if burst == [] {
      assert burst + a == a;
    } else if a != [] {
      assert (burst + a)[1..] == burst[1..] + a;
      if (burst + a)[0] == b[0] && IsSubsequence((burst + a)[1..], b[1..]) {
        TailIsSubsequence(burst[1..], a, b[1..]);
      } else {
        TailIsSubsequence(burst, a, b[1..]);
      }
    }
  }

  lemma FirstOf(s: KeySequence)
    requires s != []
    ensures multiset(s) == multiset{s[0]} + multiset(s[1..])
  {
    assert s == [s[0]] + s[1..];
  }

  type Bag = multiset<KeyEvent>

  lemma AddEverywhere(e: Bag, p: Bag, r: Bag, b: Bag, t: Bag)
    requires p + r == b + t
    ensures e + p + r == e + b + t
  {
    assert e + p + r == e + (p + r);
  }

  lemma AddBurst(e: Bag, p: Bag, r: Bag, u: Bag, b: Bag, t: Bag)
    requires p + r == u + b + t
    ensures e + p + r == e + b + (u + t)
  {
    assert e + p + r == e + (p + r);
  }

  lemma BagOf(a: KeySequence, b: KeySequence)
    ensures multiset(a + b) == multiset(a) + multiset(b)
  {
  }

  /** In general at most nine bursts are inserted. No event is lost or doubled,
      and those which were in the buffer keep their order. */
  lemma {:induction false} DrainConserves(before: KeySequence, toggled: nat, passed: KeySequence, bursts: seq<KeySequence>, rest: KeySequence)
    requires Drains(before, toggled, passed, bursts, rest)
    ensures multiset(passed) + multiset(rest) == multiset(before) + Together(bursts)
    ensures IsSubsequence(before, passed + rest)
    ensures bursts != [] ==> toggled + |bursts| < MAX_TOGGLES
    decreases |passed|
  {
    if passed == [] {
      assert passed + rest == before;
      SubsequenceOfItself(before);
    } else {
      var event := passed[0];
      FirstOf(passed);
      FirstOf(before);
      assert passed + rest == [event] + (passed[1..] + rest);
      var one, p, r, b := multiset{event}, multiset(passed[1..]), multiset(rest), multiset(before[1..]);
      if !Toggles(event) {
        DrainConserves(before[1..], toggled, passed[1..], bursts, rest);
        AddEverywhere(one, p, r, b, Together(bursts));
      } else if toggled + 1 >= MAX_TOGGLES {
        DrainConserves(before[1..], toggled + 1, passed[1..], bursts, rest);
        AddEverywhere(one, p, r, b, Together(bursts));
      } else {
        DrainConserves(bursts[0] + before[1..], toggled + 1, passed[1..], bursts[1..], rest);
        TailIsSubsequence(bursts[0], before[1..], passed[1..] + rest);
        BagOf(bursts[0], before[1..]);
        AddBurst(one, p, r, multiset(bursts[0]), b, Together(bursts[1..]));
      }
    }
  }

  // ---------------------------------------------------------------------------
  // Whole runs

  /** The buffer grows at its end, or is flushed. */
  datatype QueueStep = Push(events: KeySequence) | Flush(passed: KeySequence, bursts: seq<KeySequence>, rest: KeySequence)

  predicate QueueRun(buffer: KeySequence, steps: seq<QueueStep>)
    decreases |steps|
  {
    if steps == [] then true
    else
      match steps[0]
      case Push(events) => QueueRun(buffer + events, steps[1..])
      case Flush(passed, bursts, rest) => Drains(buffer, 0, passed, bursts, rest) && QueueRun(rest, steps[1..])
  }

  function FinalBuffer(buffer: KeySequence, steps: seq<QueueStep>): KeySequence
    decreases |steps|
  {
    if steps == [] then buffer
    else
      match steps[0]
      case Push(events) => FinalBuffer(buffer + events, steps[1..])
      case Flush(_, _, rest) => FinalBuffer(rest, steps[1..])
  }

  function Pushed(steps: seq<QueueStep>): KeySequence {
    if steps == [] then []
    else (if steps[0].Push? then steps[0].events else []) + Pushed(steps[1..])
  }

  function Passed(steps: seq<QueueStep>): KeySequence {
    if steps == [] then []
    else (if steps[0].Flush? then steps[0].passed else []) + Passed(steps[1..])
  }

  function Inserted(steps: seq<QueueStep>): multiset<KeyEvent> {
    if steps == [] then multiset{}
    else (if steps[0].Flush? then Together(steps[0].bursts) else multiset{}) + Inserted(steps[1..])
  }

  predicate PushesWithoutToggles(steps: seq<QueueStep>) {
    forall i :: 0 <= i < |steps| && steps[i].Push? ==> WithoutToggles(steps[i].events)
  }

  /** Over every run, with every pattern of delays and failures, the system gets
      the events in the order in which they were pushed, each once. */
  lemma RunKeepsOrder(buffer: KeySequence, steps: seq<QueueStep>)
    requires QueueRun(buffer, steps) && WithoutToggles(buffer) && PushesWithoutToggles(steps)
    ensures Passed(steps) + FinalBuffer(buffer, steps) == buffer + Pushed(steps)
    ensures Sendable(Passed(steps)) + Sendable(FinalBuffer(buffer, steps)) == Sendable(buffer + Pushed(steps))
  {
    RunKeepsEvents(buffer, steps);
    SendableSplit(Passed(steps), FinalBuffer(buffer, steps));
  }

  lemma {:induction false} RunKeepsEvents(buffer: KeySequence, steps: seq<QueueStep>)
    requires QueueRun(buffer, steps) && WithoutToggles(buffer) && PushesWithoutToggles(steps)
    ensures Passed(steps) + FinalBuffer(buffer, steps) == buffer + Pushed(steps)
    decreases |steps|
  {
    hide Drains, Toggles;
    if steps != [] {
      var later := steps[1..];
      assert forall i :: 0 <= i < |later| ==> later[i] == steps[i + 1];
      match steps[0]
      case Push(events) =>
        assert WithoutToggles(steps[0].events);
        RunKeepsEvents(buffer + events, later);
        assert Passed(steps) == Passed(later);
        Reassociate([], buffer + events, [], buffer, events, Pushed(later));
      case Flush(passed, bursts, rest) =>
        DrainIsPrefix(buffer, 0, passed, bursts, rest);
        assert forall i :: 0 <= i < |rest| ==> rest[i] == buffer[|passed| + i];
        RunKeepsEvents(rest, later);
        assert Pushed(steps) == Pushed(later);
        Reassociate(passed, Passed(later), FinalBuffer(rest, later), passed, rest, Pushed(later));
    }
  }

  lemma Reassociate(a: KeySequence, b: KeySequence, c: KeySequence, d: KeySequence, e: KeySequence, f: KeySequence)
    ensures a + b + c == a + (b + c) && d + e + f == d + (e + f)
  {
  }

  /** With virtual keys each event, pushed or inserted, passes once or still waits. */
  lemma {:induction false} RunConserves(buffer: KeySequence, steps: seq<QueueStep>)
    requires QueueRun(buffer, steps)
    ensures multiset(Passed(steps)) + multiset(FinalBuffer(buffer, steps))
      == multiset(buffer) + multiset(Pushed(steps)) + Inserted(steps)
    decreases |steps|
  {
    hide Drains, Together;
    if steps != [] {
      match steps[0]
      case Push(events) =>
        RunConserves(buffer + events, steps[1..]);
        BagOf(buffer, events);
        BagOf(events, Pushed(steps[1..]));
        assert Passed(steps) == Passed(steps[1..]);
        assert Inserted(steps) == Inserted(steps[1..]);
        Regroup(multiset(buffer), multiset(events), multiset(Pushed(steps[1..])), Inserted(steps));
      case Flush(passed, bursts, rest) =>
        DrainConserves(buffer, 0, passed, bursts, rest);
        RunConserves(rest, steps[1..]);
        BagOf(passed, Passed(steps[1..]));
        assert Pushed(steps) == Pushed(steps[1..]);
        Exchange(multiset(passed), multiset(rest), multiset(buffer), Together(bursts), multiset(Passed(steps[1..])),
                 multiset(FinalBuffer(rest, steps[1..])), multiset(Pushed(steps)), Inserted(steps[1..]));
    }
  }

  lemma Regroup(a: Bag, b: Bag, c: Bag, d: Bag)
    ensures a + b + c + d == a + (b + c) + d
  {
  }

  lemma Exchange(p: Bag, r: Bag, b: Bag, t: Bag, q: Bag, f: Bag, u: Bag, i: Bag)
    requires p + r == b + t && q + f == r + u + i
    ensures p + q + f == b + u + (t + i)
  {
    assert p + q + f == p + (q + f);
    assert p + (r + u + i) == (p + r) + u + i;
  }
}
