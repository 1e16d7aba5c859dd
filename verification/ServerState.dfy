/** The platform independent server: it feeds the stages and drains their output.
    `src/server/ServerState.cpp`. The stages, the system and the clock are given
    as functions of the number of calls so far, so they can be anything. */
module Server {
  import opened Keys
  import opened Contexts
  import opened SendQueue

  const NO_DEVICE := -1
  const ANY_DEVICE := -2
  const BUTTON_LEFT: Key := 0x0110

  /** An event given to the stages. */
  datatype StageCall = StageCall(event: KeyEvent, device: int)

  /** The timeout which the stages wait for. */
  datatype Timer = Idle | Waiting(timeout: Value, cancelOnUp: bool)

  datatype VirtualKeyNote = VirtualKeyNote(key: Key, down: bool)

  type Responses = nat -> KeySequence

  type Clock = nat -> Value

  predicate CancelsOnUp(state: KeyState) { state == NotTimeoutCancelOnUpDown || state == Up }

  predicate IsWheelUp(event: KeyEvent) { IsMouseWheel(event.key) && event.state == Up }

  function ElapsedEvent(elapsed: Value): KeyEvent { KeyEvent(TIMEOUT, Up, elapsed) }

  // ---------------------------------------------------------------------------
  // What one input makes the stages do

  function TimerAfter(response: KeySequence, timer: Timer): Timer {
    var i := FindKey(response, TIMEOUT);
    if i >= 0 then Waiting(response[i].value, CancelsOnUp(response[i].state)) else timer
  }

  predicate Cancels(timer: Timer, input: KeyEvent) { timer.Waiting? && (input.state == Down || timer.cancelOnUp) }

  /** The events the stages get for one input, which is their `n`-th one: first the
      elapsed time when a timeout is cancelled, and a Down before the Up of a wheel. */
  function Feed(respond: Responses, clock: Clock, timer: Timer, n: nat, input: KeyEvent, device: int): (seq<StageCall>, Timer)
    decreases IsWheelUp(input), timer.Waiting?, 2
  {
    var (early, timer1) := Early(respond, clock, timer, n, input, device);
    var (down, timer2) := DownBefore(respond, clock, timer1, n + |early|, input, device);
    (early + down + [StageCall(input, device)], TimerAfter(respond(n + |early| + |down|), timer2))
  }

  function Early(respond: Responses, clock: Clock, timer: Timer, n: nat, input: KeyEvent, device: int): (r: (seq<StageCall>, Timer))
    ensures r.1.Waiting? ==> timer.Waiting?
    decreases IsWheelUp(input), timer.Waiting?, 0
  {
    if Cancels(timer, input) then Feed(respond, clock, Idle, n, ElapsedEvent(clock(n)), device) else ([], timer)
  }

  function DownBefore(respond: Responses, clock: Clock, timer: Timer, n: nat, input: KeyEvent, device: int): (seq<StageCall>, Timer)
    decreases IsWheelUp(input), timer.Waiting?, 1
  {
    if IsWheelUp(input) then Feed(respond, clock, timer, n, input.(state := Down), device) else ([], timer)
  }

  /** The output as it is sent: without the timeout, and wheel events turn as far as
      the wheel of the input. */
  function Processed(response: KeySequence, input: KeyEvent): KeySequence {
    var i := FindKey(response, TIMEOUT);
    var output := if i >= 0 then Erase(response, i) else response;
    if IsMouseWheel(input.key) then WithDelta(output, input.value) else output
  }

  function WithDelta(output: KeySequence, value: Value): (r: KeySequence)
    ensures |r| == |output|
    ensures forall i :: 0 <= i < |r| ==>
      r[i] == if IsMouseWheel(output[i].key) && output[i].value == 0 then output[i].(value := value) else output[i]
  {
    seq(|output|, i requires 0 <= i < |output| =>
      if IsMouseWheel(output[i].key) && output[i].value == 0 then output[i].(value := value) else output[i])
  }

  /** The timeout of an output is not sent, all else is, in order; and what turns a wheel
      turns it as far as the input did, unless the configuration says how far. */
  lemma SentOutput(response: KeySequence, input: KeyEvent, i: nat)
    requires i < |response| && response[i].key == TIMEOUT && forall j :: 0 <= j < |response| && j != i ==> response[j].key != TIMEOUT
    ensures var out := Processed(response, input);
      && |out| == |response| - 1 && (forall j :: 0 <= j < |out| ==> out[j].key != TIMEOUT)
      && (forall j :: 0 <= j < |out| ==> out[j] == TurnedBy(response[if j < i then j else j + 1], input))
  {
    assert FindKey(response, TIMEOUT) == i;
    hide FindKey, IsMouseWheel;
    var out, rest := Processed(response, input), Erase(response, i);
    forall j | 0 <= j < |rest| ensures rest[j] == response[if j < i then j else j + 1] && out[j] == TurnedBy(rest[j], input) {
    }
  }

  lemma SentWithoutTimeout(response: KeySequence, input: KeyEvent)
    requires forall j :: 0 <= j < |response| ==> response[j].key != TIMEOUT
    ensures var out := Processed(response, input);
      |out| == |response| && forall j :: 0 <= j < |out| ==> out[j] == TurnedBy(response[j], input)
  {
    assert FindKey(response, TIMEOUT) < 0;
    hide FindKey, IsMouseWheel;
    var out := Processed(response, input);
    forall j | 0 <= j < |response| ensures out[j] == TurnedBy(response[j], input) {
    }
  }

  function TurnedBy(event: KeyEvent, input: KeyEvent): KeyEvent {
    if IsMouseWheel(input.key) && IsMouseWheel(event.key) && event.value == 0 then KeyEvent(event.key, event.state, input.value) else event
  }

  /** The output of these calls, appended, or each inserted in front of those before. */
  function Joined(respond: Responses, n: nat, calls: seq<StageCall>, inFront: bool): KeySequence
    decreases |calls|
  {
    if calls == [] then []
    else
      var first, others := Processed(respond(n), calls[0].event), Joined(respond, n + 1, calls[1..], inFront);
      if inFront then others + first else first + others
  }

  lemma {:induction false} JoinedSplit(respond: Responses, n: nat, a: seq<StageCall>, b: seq<StageCall>, inFront: bool)
    ensures var x, y := Joined(respond, n, a, inFront), Joined(respond, n + |a|, b, inFront);
      Joined(respond, n, a + b, inFront) == if inFront then y + x else x + y
    decreases |a|
  {
    if a == [] {
      assert a + b == b;
    } else {
      assert (a + b)[1..] == a[1..] + b;
      JoinedSplit(respond, n + 1, a[1..], b, inFront);
    }
  }

  // ---------------------------------------------------------------------------
  // Properties of the feed

  predicate IsElapsed(call: StageCall, device: int) {
    call.event.key == TIMEOUT && call.event.state == Up && call.device == device
  }

  /** Every input that is not ignored reaches the stages exactly once and last. The
      time that elapsed comes first, exactly when a timeout is cancelled. Before the
      Up of a wheel comes its Down, after which the time may elapse once more. */
  lemma FeedShape(respond: Responses, clock: Clock, timer: Timer, n: nat, input: KeyEvent, device: int)
    requires input.key != TIMEOUT
    ensures var calls := Feed(respond, clock, timer, n, input, device).0;
      var rest := if Cancels(timer, input) then calls[1..] else calls;
      && calls != [] && calls[|calls| - 1] == StageCall(input, device)
      && (Cancels(timer, input) ==> IsElapsed(calls[0], device) && calls[0].event.value == clock(n))
      && (if IsWheelUp(input) then
            && 2 <= |rest| <= 3 && rest[|rest| - 2] == StageCall(input.(state := Down), device)
            && (|rest| == 3 ==> IsElapsed(rest[0], device))
          else rest == [StageCall(input, device)])
  {
    hide Feed, Early, DownBefore, IsWheelUp, TimerAfter;
    var (early, timer1) := Early(respond, clock, timer, n, input, device);
    FeedUnfolds(respond, clock, timer, n, input, device);
    EarlyShape(respond, clock, timer, n, input, device);
    if IsWheelUp(input) {
      var down, m := input.(state := Down), n + |early|;
      WheelDown(input);
      DownUnfolds(respond, clock, timer1, m, input, device);
      FeedUnfolds(respond, clock, timer1, m, down, device);
      EarlyShape(respond, clock, timer1, m, down, device);
      DownUnfolds(respond, clock, Early(respond, clock, timer1, m, down, device).1, m + |Early(respond, clock, timer1, m, down, device).0|, down, device);
    } else {
      DownUnfolds(respond, clock, timer1, n + |early|, input, device);
    }
  }

  lemma WheelDown(input: KeyEvent)
    requires IsWheelUp(input)
    ensures !IsWheelUp(input.(state := Down)) && input.key != TIMEOUT
  {
  }

  lemma FeedUnfolds(respond: Responses, clock: Clock, timer: Timer, n: nat, input: KeyEvent, device: int)
    ensures var (early, timer1) := Early(respond, clock, timer, n, input, device);
      var (down, timer2) := DownBefore(respond, clock, timer1, n + |early|, input, device);
      Feed(respond, clock, timer, n, input, device)
      == (early + down + [StageCall(input, device)], TimerAfter(respond(n + |early + down|), timer2))
  {
    hide TimerAfter, Early, DownBefore;
  }

  lemma DownUnfolds(respond: Responses, clock: Clock, timer: Timer, n: nat, input: KeyEvent, device: int)
    ensures DownBefore(respond, clock, timer, n, input, device)
      == if IsWheelUp(input) then Feed(respond, clock, timer, n, input.(state := Down), device) else ([], timer)
  {
    hide Feed;
  }

  lemma EarlyShape(respond: Responses, clock: Clock, timer: Timer, n: nat, input: KeyEvent, device: int)
    ensures Early(respond, clock, timer, n, input, device).0
      == if Cancels(timer, input) then [StageCall(ElapsedEvent(clock(n)), device)] else []
  {
    hide TimerAfter;
    var event := ElapsedEvent(clock(n));
    FeedUnfolds(respond, clock, Idle, n, event, device);
    assert Early(respond, clock, Idle, n, event, device) == ([], Idle);
    assert DownBefore(respond, clock, Idle, n, event, device) == ([], Idle);
  }

  // ---------------------------------------------------------------------------
  // Virtual keys

  function StatesOf(notes: seq<VirtualKeyNote>, k: Key): seq<bool> {
    if notes == [] then []
    else (if notes[0].key == k then [notes[0].down] else []) + StatesOf(notes[1..], k)
  }

  function LastState(changes: seq<bool>): bool { changes != [] && changes[|changes| - 1] }

  lemma {:induction false} StatesSplit(a: seq<VirtualKeyNote>, b: seq<VirtualKeyNote>, k: Key)
    ensures StatesOf(a + b, k) == StatesOf(a, k) + StatesOf(b, k)
    decreases |a|
  {
    if a == [] {
      assert a + b == b;
    } else {
      assert (a + b)[1..] == a[1..] + b;
      StatesSplit(a[1..], b, k);
      Associative(if a[0].key == k then [a[0].down] else [], StatesOf(a[1..], k), StatesOf(b, k));
    }
  }

  lemma {:induction false} OneMoreTurn(changes: seq<bool>, active: bool)
    requires TakeTurns(changes, active)
    ensures var last := if changes == [] then active else changes[|changes| - 1]; TakeTurns(changes + [!last], active)
    decreases |changes|
  {
    if changes == [] {
      assert changes + [!active] == [!active] && [!active][1..] == [];
    } else {
      assert (changes + [!changes[|changes| - 1]])[1..] == changes[1..] + [!changes[|changes| - 1]];
      OneMoreTurn(changes[1..], changes[0]);
    }
  }

  predicate Unique(keys: seq<Key>) { forall i, j :: 0 <= i < j < |keys| ==> keys[i] != keys[j] }

  /** The client is told Down and Up in turns, and knows which virtual keys are down. */
  ghost predicate ClientKnows(notes: seq<VirtualKeyNote>, down: seq<Key>) {
    forall k: Key :: IsVirtualKey(k) ==>
      TakeTurns(StatesOf(notes, k), false) && (LastState(StatesOf(notes, k)) <==> k in down)
  }

  lemma ClientTold(notes: seq<VirtualKeyNote>, down: seq<Key>, key: Key, after: seq<Key>)
    requires ClientKnows(notes, down) && IsVirtualKey(key)
    requires forall k :: k != key ==> (k in after <==> k in down)
    requires key in after <==> key !in down
    ensures ClientKnows(notes + [VirtualKeyNote(key, key in after)], after)
  {
    var note := VirtualKeyNote(key, key in after);
    forall k: Key | IsVirtualKey(k)
      ensures var states := StatesOf(notes + [note], k);
        TakeTurns(states, false) && (LastState(states) <==> k in after)
    {
      StatesSplit(notes, [note], k);
      assert [note][1..] == [];
      if k == key {
        assert StatesOf([note], k) == [note.down];
        OneMoreTurn(StatesOf(notes, k), false);
      } else {
        assert StatesOf(notes, k) + [] == StatesOf(notes, k);
      }
    }
  }

  lemma OtherKey(notes: seq<VirtualKeyNote>, down: seq<Key>, key: Key, after: seq<Key>)
    requires ClientKnows(notes, down) && !IsVirtualKey(key)
    requires forall k :: k != key ==> (k in after <==> k in down)
    ensures ClientKnows(notes, after)
  {
    hide TakeTurns, StatesOf;
  }

  /** Index of the first occurrence, or -1. */
  function IndexOf(keys: seq<Key>, k: Key): (r: int)
    ensures -1 <= r < |keys| && (r < 0 <==> k !in keys) && (r >= 0 ==> keys[r] == k)
  {
    if keys == [] then -1
    else if keys[0] == k then 0
    else
      var r := IndexOf(keys[1..], k);
      if r < 0 then -1 else r + 1
  }

  lemma ErasedKey(keys: seq<Key>, i: nat)
    requires Unique(keys) && i < |keys|
    ensures Unique(Erase(keys, i))
    ensures forall k :: k in Erase(keys, i) <==> k in keys && k != keys[i]
  {
    forall k | k in keys && k != keys[i] ensures k in Erase(keys, i) {
      var j :| 0 <= j < |keys| && keys[j] == k;
      assert Erase(keys, i)[if j < i then j else j - 1] == k;
    }
  }

  /** The keys which are toggled when these events pass. */
  function ToggledKeys(s: KeySequence, toggled: nat): seq<Key> {
    if s == [] then []
    else if !Toggles(s[0]) then ToggledKeys(s[1..], toggled)
    else (if toggled + 1 < MAX_TOGGLES then [s[0].key] else []) + ToggledKeys(s[1..], toggled + 1)
  }

  lemma {:induction false} ToggledKeysSplit(a: KeySequence, b: KeySequence, toggled: nat)
    ensures ToggledKeys(a + b, toggled) == ToggledKeys(a, toggled) + ToggledKeys(b, toggled + CountToggles(a))
    decreases |a|
  {
    hide Toggles;
    if a == [] {
      assert a + b == b;
    } else {
      assert (a + b)[1..] == a[1..] + b;
      var after := if Toggles(a[0]) then toggled + 1 else toggled;
      ToggledKeysSplit(a[1..], b, after);
      Associative([a[0].key], ToggledKeys(a[1..], after), ToggledKeys(b, after + CountToggles(a[1..])));
    }
  }

  function NotedKeys(notes: seq<VirtualKeyNote>): (r: seq<Key>)
    ensures |r| == |notes| && forall i :: 0 <= i < |r| ==> r[i] == notes[i].key
  {
    seq(|notes|, i requires 0 <= i < |notes| => notes[i].key)
  }

  function Spliced(buffer: KeySequence, at: int, inserted: KeySequence): KeySequence
    requires at <= |buffer|
  {
    if at >= 0 then buffer[..at] + inserted + buffer[at..] else buffer + inserted
  }

  lemma SplicedTwice(buffer: KeySequence, at: int, a: KeySequence, b: KeySequence)
    requires at <= |buffer|
    ensures at <= |Spliced(buffer, at, a)|
    ensures Spliced(Spliced(buffer, at, a), at, b) == Spliced(buffer, at, if at >= 0 then b + a else a + b)
  {
    if at >= 0 {
      var once, front, back := Spliced(buffer, at, a), buffer[..at], buffer[at..];
      assert once[..at] == front && once[at..] == a + back;
      Associative(front + b, a, back);
      Associative(front, b, a);
    } else {
      Associative(buffer, a, b);
    }
  }

  // ---------------------------------------------------------------------------
  // The server

  class ServerState {
    const respond: Responses       // the output of the stages
    const clock: Clock             // the time since a timeout started
    const accepts: nat -> bool     // whether the system takes an event
    const flushes: nat -> bool     // whether the system is flushed without error

    var sendBuffer: KeySequence
    var virtualKeysDown: seq<Key>
    var lastKeyEvent: KeyEvent
    var sendingKey: bool
    var insertAt: int
    var flushScheduled: Option<Value>
    var timer: Timer
    var nextKeyInfoRequested: bool
    var nextKeyInfo: seq<Key>

    // what the stages, the system and the client were given so far
    var fed: seq<StageCall>
    var attempts: nat
    var sent: KeySequence
    var triggered: seq<int>
    var notified: seq<VirtualKeyNote>
    var keyInfos: seq<seq<Key>>

    ghost predicate Sound()
      reads `insertAt, `sendBuffer, `lastKeyEvent
    {
      insertAt <= |sendBuffer| && (IsKeyboardKey(lastKeyEvent.key) || lastKeyEvent.key == NONE)
    }

    ghost predicate Valid()
      reads `insertAt, `sendBuffer, `lastKeyEvent, `virtualKeysDown, `notified
    {
      Sound() && Unique(virtualKeysDown) && ClientKnows(notified, virtualKeysDown)
    }

    constructor (respond: Responses, clock: Clock, accepts: nat -> bool, flushes: nat -> bool)
      ensures Valid() && fresh(this)
      ensures this.respond == respond && this.clock == clock && this.accepts == accepts && this.flushes == flushes
      ensures sendBuffer == [] && sent == [] && fed == [] && !sendingKey && insertAt == -1
    {
      this.respond, this.clock, this.accepts, this.flushes := respond, clock, accepts, flushes;
      sendBuffer, virtualKeysDown, lastKeyEvent, sendingKey, insertAt := [], [], NO_EVENT, false, -1;
      flushScheduled, timer, nextKeyInfoRequested, nextKeyInfo := None, Idle, false, [];
      fed, attempts, sent, triggered, notified, keyInfos := [], 0, [], [], [], [];
    }

    /** A repeat which the server swallows. */
    predicate Repeats(input: KeyEvent)
      reads this
    {
      input.Same(lastKeyEvent) && (flushScheduled.Some? || timer.Waiting?)
    }

    predicate TellsKeyInfo(input: KeyEvent)
      reads this
    {
      nextKeyInfoRequested && IsDeviceKey(input.key) && input.key != BUTTON_LEFT
    }

    method SendKeySequence(s: KeySequence)
      requires insertAt <= |sendBuffer|
      modifies `sendBuffer
      ensures sendBuffer == Spliced(old(sendBuffer), insertAt, s)
    {
      if insertAt >= 0 {
        sendBuffer := sendBuffer[..insertAt] + s + sendBuffer[insertAt..];
      } else {
        sendBuffer := sendBuffer + s;
      }
    }

    /** The keys which were pressed until one is released. */
    method CollectKeyInfo(input: KeyEvent)
      modifies `nextKeyInfo, `nextKeyInfoRequested, `keyInfos
      ensures input.state == Down ==>
        && nextKeyInfo == (if input.key in old(nextKeyInfo) then old(nextKeyInfo) else old(nextKeyInfo) + [input.key])
        && nextKeyInfoRequested == old(nextKeyInfoRequested) && keyInfos == old(keyInfos)
      ensures input.state != Down && old(nextKeyInfo) == [] ==>
        nextKeyInfo == [] && nextKeyInfoRequested == old(nextKeyInfoRequested) && keyInfos == old(keyInfos)
      ensures input.state != Down && old(nextKeyInfo) != [] ==>
        nextKeyInfo == [] && !nextKeyInfoRequested && keyInfos == old(keyInfos) + [old(nextKeyInfo)]
    {
      if input.state == Down {
        if input.key !in nextKeyInfo {
          nextKeyInfo := nextKeyInfo + [input.key];
        }
      } else if nextKeyInfo != [] {
        keyInfos := keyInfos + [nextKeyInfo];
        nextKeyInfo := [];
        nextKeyInfoRequested := false;
      }
    }

    /** Gives an event to the stages and takes the timeout out of their output. */
    method UpdateStages(input: KeyEvent, device: int)
      requires insertAt <= |sendBuffer|
      modifies `fed, `sendBuffer, `timer
      ensures fed == old(fed) + [StageCall(input, device)] && insertAt <= |sendBuffer|
      ensures timer == TimerAfter(respond(|old(fed)|), old(timer))
      ensures sendBuffer == Spliced(old(sendBuffer), insertAt, Processed(respond(|old(fed)|), input))
    {
      var output := respond(|fed|);
      fed := fed + [StageCall(input, device)];
      var i := FindKey(output, TIMEOUT);
      if i >= 0 {
        timer := Waiting(output[i].value, CancelsOnUp(output[i].state));
        output := Erase(output, i);
      }
      if IsMouseWheel(input.key) {
        output := CopyDelta(output, input.value);
      }
      SendKeySequence(output);
      hide Processed, TimerAfter;
    }

    static method CopyDelta(events: KeySequence, value: Value) returns (output: KeySequence)
      ensures output == WithDelta(events, value)
    {
      output := events;
      var i := 0;
      while i < |output|
        invariant 0 <= i <= |output| == |events|
        invariant forall j :: 0 <= j < i ==> output[j] == WithDelta(events, value)[j]
        invariant forall j :: i <= j < |output| ==> output[j] == events[j]
      {
        if IsMouseWheel(output[i].key) && output[i].value == 0 {
          output := output[i := output[i].(value := value)];
        }
        i := i + 1;
      }
    }

    /** Translates an input, unless it is a repeat or tells the client about a key. */
    method TranslateInput(input: KeyEvent, device: int) returns (intercepted: bool)
      requires Sound()
      modifies `fed, `sendBuffer, `timer, `lastKeyEvent, `nextKeyInfo, `nextKeyInfoRequested, `keyInfos
      ensures Sound() && intercepted
      ensures old(Repeats(input)) || old(TellsKeyInfo(input)) ==>
        fed == old(fed) && sendBuffer == old(sendBuffer) && timer == old(timer) && lastKeyEvent == old(lastKeyEvent)
      ensures old(Repeats(input)) || !old(TellsKeyInfo(input)) ==>
        nextKeyInfo == old(nextKeyInfo) && nextKeyInfoRequested == old(nextKeyInfoRequested) && keyInfos == old(keyInfos)
      ensures !old(Repeats(input)) && !old(TellsKeyInfo(input)) ==>
        var (calls, after) := Feed(respond, clock, old(timer), |old(fed)|, input, device);
        && fed == old(fed) + calls && timer == after
        && sendBuffer == Spliced(old(sendBuffer), insertAt, Joined(respond, |old(fed)|, calls, insertAt >= 0))
        && lastKeyEvent == if IsKeyboardKey(input.key) then input else old(lastKeyEvent)
      decreases IsWheelUp(input), timer.Waiting?, 3
    {
      hide Processed, TimerAfter, Spliced, Feed, Joined, IsKeyboardKey;
      if input.Same(lastKeyEvent) && (flushScheduled.Some? || timer.Waiting?) {
        return true;
      }
      if nextKeyInfoRequested && IsDeviceKey(input.key) && input.key != BUTTON_LEFT {
        CollectKeyInfo(input);
        return true;
      }
      TranslateAccepted(input, device);
      return true;
    }

    method TranslateAccepted(input: KeyEvent, device: int)
      requires Sound() && !Repeats(input) && !TellsKeyInfo(input)
      modifies `fed, `sendBuffer, `timer, `lastKeyEvent, `nextKeyInfo, `nextKeyInfoRequested, `keyInfos
      ensures Sound()
      ensures nextKeyInfo == old(nextKeyInfo) && nextKeyInfoRequested == old(nextKeyInfoRequested) && keyInfos == old(keyInfos)
      ensures
        var (calls, after) := Feed(respond, clock, old(timer), |old(fed)|, input, device);
        && fed == old(fed) + calls && timer == after
        && sendBuffer == Spliced(old(sendBuffer), insertAt, Joined(respond, |old(fed)|, calls, insertAt >= 0))
        && lastKeyEvent == if IsKeyboardKey(input.key) then input else old(lastKeyEvent)
      decreases IsWheelUp(input), timer.Waiting?, 2
    {
      hide Processed, TimerAfter, Spliced, Joined, Early, DownBefore, Feed, IsKeyboardKey;
      FeedUnfolds(respond, clock, timer, |fed|, input, device);
      ghost var n, buffer := |fed|, sendBuffer;
      ghost var (early, timer1) := Early(respond, clock, timer, n, input, device);
      CancelTimeout(input, device);
      ghost var (down, timer2) := DownBefore(respond, clock, timer1, n + |early|, input, device);
      PrependWheelDown(input, device);
      JoinedSplit(respond, n, early, down, insertAt >= 0);
      SplicedTwice(buffer, insertAt, Joined(respond, n, early, insertAt >= 0), Joined(respond, n + |early|, down, insertAt >= 0));
      if IsKeyboardKey(input.key) {
        lastKeyEvent := input;
      }
      AppendCall(respond, n, buffer, insertAt, early + down, StageCall(input, device));
      assert fed == old(fed) + (early + down);
      UpdateStages(input, device);
    }

    /** A wheel gives no press of its own, so the stages get one in front. */
    method PrependWheelDown(input: KeyEvent, device: int)
      requires Sound() && !TellsKeyInfo(input)
      modifies `fed, `sendBuffer, `timer, `lastKeyEvent, `nextKeyInfo, `nextKeyInfoRequested, `keyInfos
      ensures Sound()
      ensures nextKeyInfo == old(nextKeyInfo) && nextKeyInfoRequested == old(nextKeyInfoRequested) && keyInfos == old(keyInfos)
      ensures lastKeyEvent == old(lastKeyEvent)
      ensures
        var (down, after) := DownBefore(respond, clock, old(timer), |old(fed)|, input, device);
        && fed == old(fed) + down && timer == after
        && sendBuffer == Spliced(old(sendBuffer), insertAt, Joined(respond, |old(fed)|, down, insertAt >= 0))
      decreases IsWheelUp(input), timer.Waiting?, 1
    {
      hide Processed, TimerAfter, Spliced, Feed;
      NothingSpliced(sendBuffer, insertAt);
      if IsWheelUp(input) {
        var _ := TranslateInput(input.(state := Down), device);
      }
    }

    /** Cancels a current timeout and injects an event with the elapsed time. */
    method CancelTimeout(input: KeyEvent, device: int)
      requires Sound()
      modifies `fed, `sendBuffer, `timer, `lastKeyEvent, `nextKeyInfo, `nextKeyInfoRequested, `keyInfos
      ensures Sound()
      ensures nextKeyInfo == old(nextKeyInfo) && nextKeyInfoRequested == old(nextKeyInfoRequested) && keyInfos == old(keyInfos)
      ensures lastKeyEvent == old(lastKeyEvent) && (timer.Waiting? ==> old(timer).Waiting?)
      ensures
        var (early, after) := Early(respond, clock, old(timer), |old(fed)|, input, device);
        && fed == old(fed) + early && timer == after
        && sendBuffer == Spliced(old(sendBuffer), insertAt, Joined(respond, |old(fed)|, early, insertAt >= 0))
      decreases IsWheelUp(input), timer.Waiting?, 0
    {
      hide Processed, TimerAfter, Spliced, Feed;
      NothingSpliced(sendBuffer, insertAt);
      if timer.Waiting? && (input.state == Down || timer.cancelOnUp) {
        timer := Idle;
        var _ := TranslateInput(ElapsedEvent(clock(|fed|)), device);
      }
    }

    /** The stages got this input, and their output is in the buffer. */
    ghost predicate HasTranslated(before: seq<StageCall>, buffer: KeySequence, was: Timer, input: KeyEvent, device: int)
      reads this
    {
      var calls := Feed(respond, clock, was, |before|, input, device).0;
      && fed == before + calls && insertAt <= |buffer|
      && sendBuffer == Spliced(buffer, insertAt, Joined(respond, |before|, calls, insertAt >= 0))
    }

    /** Presses or releases a virtual key, or toggles it with the state Not. */
    method SetVirtualKeyState(key: Key, state: KeyState)
      requires Valid()
      modifies `fed, `sendBuffer, `timer, `lastKeyEvent, `nextKeyInfo, `nextKeyInfoRequested, `keyInfos
      modifies `virtualKeysDown, `notified
      ensures Valid()
      ensures var wasDown := key in old(virtualKeysDown);
        if (if wasDown then state != Down else state != Up) then
          && (forall k :: k in virtualKeysDown <==> if k == key then !wasDown else k in old(virtualKeysDown))
          && notified == old(notified) + (if IsVirtualKey(key) then [VirtualKeyNote(key, !wasDown)] else [])
          && (IsVirtualKey(key) ==>
                HasTranslated(old(fed), old(sendBuffer), old(timer), KeyEvent(key, if wasDown then Up else Down, 0), ANY_DEVICE))
        else
          && virtualKeysDown == old(virtualKeysDown) && notified == old(notified)
          && fed == old(fed) && sendBuffer == old(sendBuffer)
    {
      hide Feed, Joined, Spliced, ClientKnows, Unique, HasTranslated;
      var i := IndexOf(virtualKeysDown, key);
      if i < 0 && state != Up {
        AddedKey(virtualKeysDown, key);
        ChangeVirtualKey(key, virtualKeysDown + [key]);
      } else if i >= 0 && state != Down {
        ErasedKey(virtualKeysDown, i);
        ChangeVirtualKey(key, Erase(virtualKeysDown, i));
      }
    }

    method ChangeVirtualKey(key: Key, keysDown: seq<Key>)
      requires Valid() && Unique(keysDown)
      requires forall k :: k in keysDown <==> if k == key then key !in virtualKeysDown else k in virtualKeysDown
      modifies `fed, `sendBuffer, `timer, `lastKeyEvent, `nextKeyInfo, `nextKeyInfoRequested, `keyInfos
      modifies `virtualKeysDown, `notified
      ensures Valid() && virtualKeysDown == keysDown
      ensures notified == old(notified) + (if IsVirtualKey(key) then [VirtualKeyNote(key, key in keysDown)] else [])
      ensures IsVirtualKey(key) ==>
        HasTranslated(old(fed), old(sendBuffer), old(timer), KeyEvent(key, if key in keysDown then Down else Up, 0), ANY_DEVICE)
    {
      hide Feed, Joined, Spliced, ClientKnows, Unique;
      ghost var before := virtualKeysDown;
      virtualKeysDown := keysDown;
      var _ := TranslateInput(KeyEvent(key, if key in keysDown then Down else Up, 0), ANY_DEVICE);
      if IsVirtualKey(key) {
        ClientTold(notified, before, key, keysDown);
        notified := notified + [VirtualKeyNote(key, key in keysDown)];
      } else {
        OtherKey(notified, before, key, keysDown);
        assert notified + [] == notified;
      }
    }

    method ScheduleFlush(delay: Value)
      modifies `flushScheduled
      ensures flushScheduled == if old(flushScheduled).Some? then old(flushScheduled) else Option.Some(delay)
    {
      if flushScheduled.None? {
        flushScheduled := Option.Some(delay);
      }
    }

    /** Toggles a virtual key while the buffer is flushed up to its event. */
    method ToggleInBuffer(key: Key, at: nat) returns (ghost burst: KeySequence)
      requires Valid() && IsVirtualKey(key) && at <= |sendBuffer|
      modifies `fed, `sendBuffer, `timer, `lastKeyEvent, `nextKeyInfo, `nextKeyInfoRequested, `keyInfos
      modifies `virtualKeysDown, `notified, `insertAt
      ensures Valid() && insertAt == -1
      ensures sendBuffer == old(sendBuffer)[..at] + burst + old(sendBuffer)[at..]
      ensures old(fed) <= fed
      ensures multiset(burst) == OutputsOf(respond, |old(fed)|, fed[|old(fed)|..])
      ensures NotedKeys(notified) == NotedKeys(old(notified)) + [key]
    {
      hide Feed, ClientKnows, Joined;
      insertAt := at;
      SetVirtualKeyState(key, Not);
      insertAt := -1;
      burst := Joined(respond, |old(fed)|, fed[|old(fed)|..], true);
      JoinedIsOutputs(respond, |old(fed)|, fed[|old(fed)|..]);
    }

    ghost function Now(): Snapshot
      reads this
    {
      Snapshot(sendBuffer, sent, triggered, notified, fed)
    }

    /** What passing these events since `start` did. */
    ghost predicate HasPassed(start: Snapshot, passed: KeySequence, bursts: seq<KeySequence>, rest: KeySequence)
      reads `sent, `triggered, `notified, `fed
    {
      && Drains(start.sendBuffer, 0, passed, bursts, rest)
      && sent == start.sent + Sendable(passed) && triggered == start.triggered + Actions(passed)
      && NotedKeys(notified) == NotedKeys(start.notified) + ToggledKeys(passed, 0)
      && start.fed <= fed && Together(bursts) == OutputsOf(respond, |start.fed|, fed[|start.fed|..])
    }

    /** Passes the events of the buffer on, until a delay, an event which the system
        does not take, or the end. What passed is erased; a delay schedules the next
        flush. The loop ends although output is inserted while it runs. */
    method FlushSendBuffer() returns (succeeded: bool, ghost passed: KeySequence, ghost bursts: seq<KeySequence>)
      requires Valid() && insertAt == -1
      modifies this
      ensures Valid() && insertAt == -1 && sendingKey == old(sendingKey)
      ensures old(sendingKey) ==>
        succeeded && passed == [] && sendBuffer == old(sendBuffer) && flushScheduled == old(flushScheduled)
      ensures HasPassed(old(Now()), passed, bursts, sendBuffer)
      ensures DelayAtEnd(passed)
      ensures !old(sendingKey) ==> flushScheduled == if EndsWithDelay(passed) then Option.Some(passed[|passed| - 1].value) else None
      ensures !old(sendingKey) && sendBuffer != [] && !EndsWithDelay(passed) ==> !succeeded && IsSendable(sendBuffer[0])
    {
      hide ClientKnows, Drains, ToggledKeys, Sendable, Actions, Together, OutputsOf, IsSendable, Unique;
      OneMoreEvent([], NO_EVENT);
      if sendingKey {
        HasPassedNothing(Now());
        return true, [], [];
      }
      sendingKey := true;
      flushScheduled := None;
      HasPassedNothing(Now());
      var i;
      i, succeeded, passed, bursts := PassEvents(Now());
      if !flushes(attempts) {
        succeeded := false;
      }
      sendBuffer := sendBuffer[i..];
      sendingKey := false;
    }

    lemma HasPassedNothing(start: Snapshot)
      requires start == Now()
      ensures HasPassed(start, [], [], sendBuffer)
    {
      NothingPassed(sendBuffer, respond, |fed|);
      assert fed[|fed|..] == [] && sent + [] == sent && triggered + [] == triggered;
      assert NotedKeys(notified) + [] == NotedKeys(notified);
    }

    /** The loop over the buffer: it ends because output is inserted only for the
        first nine virtual keys. */
    method PassEvents(ghost start: Snapshot)
      returns (i: nat, succeeded: bool, ghost passed: KeySequence, ghost bursts: seq<KeySequence>)
      requires Valid() && insertAt == -1 && sendingKey && flushScheduled == None
      requires HasPassed(start, [], [], sendBuffer)
      modifies this
      ensures Valid() && insertAt == -1 && sendingKey
      ensures i <= |sendBuffer| && HasPassed(start, passed, bursts, sendBuffer[i..])
      ensures DelayAtEnd(passed)
      ensures flushScheduled == if EndsWithDelay(passed) then Option.Some(passed[|passed| - 1].value) else None
      ensures i < |sendBuffer| && !EndsWithDelay(passed) ==> !succeeded && IsSendable(sendBuffer[i])
    {
      hide HasPassed, CountToggles, Valid, IsSendable, Sound, NoDelay, DelayAtEnd, EndsWithDelay;
      NothingPassed(sendBuffer, respond, |fed|);
      succeeded, passed, bursts := true, [], [];
      var toggled := 0;
      assert NoDelay([]) by { NothingDelayed(); }
      OneMoreEvent(passed, NO_EVENT);
      i := 0;
      assert sendBuffer[0..] == sendBuffer;
      while i < |sendBuffer|
        invariant Valid() && insertAt == -1 && sendingKey && flushScheduled == None && succeeded
        invariant i <= |sendBuffer| && sendBuffer[..i] == passed && toggled == CountToggles(passed)
        invariant HasPassed(start, passed, bursts, sendBuffer[i..])
        invariant NoDelay(passed) && DelayAtEnd(passed) && !EndsWithDelay(passed)
        decreases if toggled < MAX_TOGGLES then MAX_TOGGLES - toggled else 0, |sendBuffer| - i
      {
        var event := sendBuffer[i];
        var taken, count, next, more := PassEvent(i, toggled, start, passed, bursts);
        if !taken {
          succeeded := false;
          break;
        }
        OneMoreEvent(passed, event);
        passed, bursts, toggled, i := next, more, count, i + 1;
        if event.key == TIMEOUT {
          ScheduleFlush(event.value);
          break;
        }
        OneMoreEvent(passed, NO_EVENT);
      }
    }

    /** One event of the loop, at `i`. */
    method PassEvent(i: nat, toggled: nat, ghost start: Snapshot, ghost passed: KeySequence, ghost bursts: seq<KeySequence>)
      returns (taken: bool, count: nat, ghost next: KeySequence, ghost more: seq<KeySequence>)
      requires Valid() && insertAt == -1 && i < |sendBuffer| && sendBuffer[..i] == passed && toggled == CountToggles(passed)
      requires HasPassed(start, passed, bursts, sendBuffer[i..])
      modifies `fed, `sendBuffer, `timer, `lastKeyEvent, `nextKeyInfo, `nextKeyInfoRequested, `keyInfos
      modifies `virtualKeysDown, `notified, `insertAt, `sent, `triggered, `attempts
      ensures Valid() && insertAt == -1
      ensures !taken ==> sendBuffer == old(sendBuffer) && IsSendable(sendBuffer[i]) && HasPassed(start, passed, bursts, sendBuffer[i..])
      ensures taken ==>
        && next == passed + [old(sendBuffer)[i]] && count == CountToggles(next)
        && i + 1 <= |sendBuffer| && sendBuffer[..i + 1] == next && HasPassed(start, next, more, sendBuffer[i + 1..])
        && (if count == toggled then |sendBuffer| == |old(sendBuffer)|
            else count == toggled + 1 && (count >= MAX_TOGGLES ==> |sendBuffer| == |old(sendBuffer)|))
    {
      hide ClientKnows, Drains, ToggledKeys, Sendable, Actions, CountToggles, NotedKeys, OutputsOf, Together, Unique;
      var event := sendBuffer[i];
      ghost var rest := sendBuffer[i..];
      assert rest[0] == event && rest[1..] == sendBuffer[i + 1..];
      assert sendBuffer[..i + 1] == passed + [event];
      PassedOne(passed, event);
      count, next, more := toggled, passed + [event], bursts;
      if IsSendable(event) {
        attempts := attempts + 1;
        if !accepts(attempts - 1) {
          return false, toggled, passed, bursts;
        }
        sent := sent + [event];
      } else if IsActionKey(event.key) && event.state == Down {
        triggered := triggered + [event.key - FIRST_ACTION];
      } else if Toggles(event) {
        count := toggled + 1;
      }
      SentOrNot(event);
      if Toggles(event) && count < MAX_TOGGLES {
        ghost var n, calls := |start.fed|, fed;
        var burst := ToggleInBuffer(event.key, i + 1);
        DrainsStep(start.sendBuffer, 0, passed, bursts, rest, burst);
        more := bursts + [burst];
        MoreOutput(respond, start.fed, calls, fed, bursts, burst);
        assert sendBuffer[..i + 1] == next && sendBuffer[i + 1..] == burst + rest[1..];
      } else {
        DrainsStep(start.sendBuffer, 0, passed, bursts, rest, []);
      }
      return true, count, next, more;
    }
  }

  datatype Snapshot = Snapshot(
    sendBuffer: KeySequence, sent: KeySequence, triggered: seq<int>, notified: seq<VirtualKeyNote>, fed: seq<StageCall>)

  lemma SentOrNot(event: KeyEvent)
    ensures IsSendable(event) ==> !Toggles(event) && !IsActionKey(event.key)
    ensures IsActionKey(event.key) ==> !Toggles(event)
  {
  }

  /** The outputs of more calls are one more burst. */
  lemma MoreOutput(respond: Responses, start: seq<StageCall>, before: seq<StageCall>, after: seq<StageCall>,
                   bursts: seq<KeySequence>, burst: KeySequence)
    requires start <= before <= after
    requires Together(bursts) == OutputsOf(respond, |start|, before[|start|..])
    requires multiset(burst) == OutputsOf(respond, |before|, after[|before|..])
    ensures Together(bursts + [burst]) == OutputsOf(respond, |start|, after[|start|..])
  {
    hide OutputsOf, Together;
    assert after[|start|..] == before[|start|..] + after[|before|..];
    OutputsSplit(respond, |start|, before[|start|..], after[|before|..]);
    TogetherMore(bursts, burst);
  }

  lemma {:induction false} TogetherMore(bursts: seq<KeySequence>, burst: KeySequence)
    ensures Together(bursts + [burst]) == Together(bursts) + multiset(burst)
  {
    if bursts == [] {
      assert bursts + [burst] == [burst] && [burst][1..] == [];
    } else {
      assert (bursts + [burst])[1..] == bursts[1..] + [burst];
      TogetherMore(bursts[1..], burst);
      var first, others, last := multiset(bursts[0]), Together(bursts[1..]), multiset(burst);
      assert first + (others + last) == first + others + last;
    }
  }

  predicate NoDelay(passed: KeySequence) { forall i :: 0 <= i < |passed| ==> passed[i].key != TIMEOUT }

  /** Nothing passes behind a delay. */
  predicate DelayAtEnd(passed: KeySequence) { passed == [] || NoDelay(passed[..|passed| - 1]) }

  lemma NothingDelayed()
    ensures NoDelay([])
  {
  }

  lemma OneMoreEvent(passed: KeySequence, event: KeyEvent)
    requires NoDelay(passed)
    ensures DelayAtEnd(passed) && !EndsWithDelay(passed) && DelayAtEnd(passed + [event])
    ensures EndsWithDelay(passed + [event]) <==> event.key == TIMEOUT
    ensures event.key != TIMEOUT ==> NoDelay(passed + [event])
  {
    assert (passed + [event])[..|passed|] == passed;
  }

  predicate EndsWithDelay(passed: KeySequence) { passed != [] && passed[|passed| - 1].key == TIMEOUT }

  lemma NothingPassed(buffer: KeySequence, respond: Responses, n: nat)
    ensures Sendable([]) == [] && Actions([]) == [] && ToggledKeys([], 0) == [] && CountToggles([]) == 0
    ensures Drains(buffer, 0, [], [], buffer) && Together([]) == OutputsOf(respond, n, [])
  {
  }

  lemma PassedOne(passed: KeySequence, event: KeyEvent)
    ensures Sendable(passed + [event]) == Sendable(passed) + (if IsSendable(event) then [event] else [])
    ensures Actions(passed + [event])
      == Actions(passed) + (if IsActionKey(event.key) && event.state == Down then [event.key - FIRST_ACTION] else [])
    ensures CountToggles(passed + [event]) == CountToggles(passed) + (if Toggles(event) then 1 else 0)
    ensures ToggledKeys(passed + [event], 0)
      == ToggledKeys(passed, 0) + (if Toggles(event) && CountToggles(passed) + 1 < MAX_TOGGLES then [event.key] else [])
  {
    SendableSplit(passed, [event]);
    ActionsSplit(passed, [event]);
    CountSplit(passed, [event]);
    ToggledKeysSplit(passed, [event], 0);
    assert [event][1..] == [];
  }

  /** All that the stages answer to these calls. */
  function OutputsOf(respond: Responses, n: nat, calls: seq<StageCall>): multiset<KeyEvent>
    decreases |calls|
  {
    if calls == [] then multiset{}
    else multiset(Processed(respond(n), calls[0].event)) + OutputsOf(respond, n + 1, calls[1..])
  }

  lemma {:induction false} JoinedIsOutputs(respond: Responses, n: nat, calls: seq<StageCall>)
    ensures multiset(Joined(respond, n, calls, true)) == OutputsOf(respond, n, calls)
    decreases |calls|
  {
    if calls != [] {
      JoinedIsOutputs(respond, n + 1, calls[1..]);
    }
  }

  lemma {:induction false} OutputsSplit(respond: Responses, n: nat, a: seq<StageCall>, b: seq<StageCall>)
    ensures OutputsOf(respond, n, a + b) == OutputsOf(respond, n, a) + OutputsOf(respond, n + |a|, b)
    decreases |a|
  {
    hide Processed;
    if a == [] {
      assert a + b == b;
    } else {
      assert (a + b)[1..] == a[1..] + b;
      OutputsSplit(respond, n + 1, a[1..], b);
      var first, x, y := multiset(Processed(respond(n), a[0].event)), OutputsOf(respond, n + 1, a[1..]), OutputsOf(respond, n + |a|, b);
      hide OutputsOf;
      assert first + (x + y) == first + x + y;
    }
  }

  lemma AddedKey(keys: seq<Key>, key: Key)
    requires Unique(keys) && key !in keys
    ensures Unique(keys + [key])
  {
  }

  lemma AppendCall(respond: Responses, n: nat, buffer: KeySequence, at: int, calls: seq<StageCall>, last: StageCall)
    requires at <= |buffer|
    ensures var once := Spliced(buffer, at, Joined(respond, n, calls, at >= 0));
      && at <= |once|
      && Spliced(once, at, Processed(respond(n + |calls|), last.event))
         == Spliced(buffer, at, Joined(respond, n, calls + [last], at >= 0))
  {
    hide Spliced, Processed;
    JoinedSplit(respond, n, calls, [last], at >= 0);
    JoinedOne(respond, n + |calls|, last, at >= 0);
    SplicedTwice(buffer, at, Joined(respond, n, calls, at >= 0), Joined(respond, n + |calls|, [last], at >= 0));
  }

  lemma NothingSpliced(buffer: KeySequence, at: int)
    requires at <= |buffer|
    ensures Spliced(buffer, at, []) == buffer
  {
  }

  lemma JoinedOne(respond: Responses, n: nat, call: StageCall, inFront: bool)
    ensures Joined(respond, n, [call], inFront) == Processed(respond(n), call.event)
  {
  }
}
