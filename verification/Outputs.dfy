/** The output side of a stage: which keys it holds down and what it emits.
    `src/runtime/Stage.cpp` from `release_triggered` to `update_output`. */
module Outputs {
  import opened Keys

  /** What holds an output down: the matched input, an event, or a key. */
  datatype Trigger = InputTrigger(input: Expression) | EventTrigger(event: KeyEvent) | KeyTrigger(key: Key)

  function LastNonOptional(s: KeySequence): int {
    if s == [] then -1
    else if s[|s| - 1].IsNonOptional() then |s| - 1
    else LastNonOptional(s[..|s| - 1])
  }

  function TriggerEvent(trigger: Trigger): KeyEvent {
    match trigger
    case EventTrigger(event) => event
    case KeyTrigger(key) => Press(key)
    case InputTrigger(input) =>
      var i := LastNonOptional(input);
      if 0 <= i < |input| then input[i] else input[|input| - 1]
  }

  function TriggerKey(trigger: Trigger): Key { TriggerEvent(trigger).key }

  datatype OutputDown = OutputDown(
    key: Key,
    trigger: Trigger,
    suppressed: bool,
    temporarilyReleased: bool,
    pressedTwice: bool,
    contextIndex: int)

  /** The keys which are down, the events not yet handed out, and whether a
      temporarily released key was pressed again since the input event. */
  datatype Ledger = Ledger(down: seq<OutputDown>, buffer: KeySequence, reapplied: bool)
  {
    function Emit(event: KeyEvent): Ledger { this.(buffer := buffer + [event]) }

    function Set(i: nat, entry: OutputDown): Ledger
      requires i < |down|
    {
      this.(down := down[i := entry])
    }
  }

  /** Index of the entry of a key, or -1. */
  function FindDown(down: seq<OutputDown>, k: Key): (r: int)
    ensures -1 <= r < |down|
    ensures r >= 0 ==> down[r].key == k && forall i :: 0 <= i < r ==> down[i].key != k
    ensures r < 0 ==> forall i :: 0 <= i < |down| ==> down[i].key != k
  {
    if down == [] then -1
    else if down[0].key == k then 0
    else
      var r := FindDown(down[1..], k);
      if r < 0 then -1 else r + 1
  }

  // ---------------------------------------------------------------------------
  // update_output

  function UpdateUp(l: Ledger, event: KeyEvent, trigger: Trigger): Ledger {
    var it := FindDown(l.down, event.key);
    if it < 0 then l
    else
      var entry := l.down[it];
      if entry.pressedTwice && IsVirtualKey(event.key) then
        l.Set(it, entry.(pressedTwice := false)).Emit(event)
      else if entry.pressedTwice && !entry.suppressed then
        var it2 := RFindKey(l.buffer, event.key);
        var erased := if it2 >= 0 then l.(buffer := Erase(l.buffer, it2)) else l;
        erased.Set(it, entry.(pressedTwice := false))
      else if TriggerKey(entry.trigger) == TriggerKey(trigger) then
        l.(down := Erase(l.down, it)).Emit(event)
      else
        l.Set(it, entry.(temporarilyReleased := true)).Emit(event)
  }

  function UpdateNot(l: Ledger, k: Key): Ledger {
    var it := FindDown(l.down, k);
    if it < 0 || IsVirtualKey(k) || IsActionKey(k) then l
    else
      var entry := l.down[it];
      var released := if entry.temporarilyReleased then l else l.Emit(Release(k));
      released.Set(it, entry.(temporarilyReleased := true, suppressed := true))
  }

  /** Presses temporarily released keys again, from entry `i` on; true when that
      already did what the press of `k` asked for. */
  function Reapply(l: Ledger, k: Key, i: nat): (Ledger, bool)
    decreases |l.down| - i
  {
    if i >= |l.down| then (l, false)
    else
      var entry := l.down[i];
      var n := |l.buffer|;
      if entry.temporarilyReleased && !entry.suppressed then
        var next := l.Set(i, entry.(temporarilyReleased := false)).Emit(Press(entry.key)).(reapplied := true);
        if entry.key == k then (next, true) else Reapply(next, k, i + 1)
      else if entry.temporarilyReleased && entry.key == k && IsCommonModifier(k)
              && n > 0 && l.buffer[n - 1].Same(Release(k)) then
        (l.(buffer := l.buffer[..n - 1]).Set(i, entry.(temporarilyReleased := false)), true)
      else
        Reapply(l, k, i + 1)
  }

  /** The rest of a press, when nothing had to be undone. */
  function PressKey(l: Ledger, event: KeyEvent, trigger: Trigger, contextIndex: int): Ledger {
    var it := FindDown(l.down, event.key);
    var pressed :=
      if it < 0 then
        if event.key == TIMEOUT then l
        else l.(down := l.down + [OutputDown(event.key, trigger, false, false, false, contextIndex)])
      else if l.reapplied then
        l.Set(it, l.down[it].(temporarilyReleased := false, pressedTwice := false)).Emit(Release(event.key))
      else
        l.Set(it, l.down[it].(temporarilyReleased := false, pressedTwice := true));
    pressed.Emit(event)
  }

  function UpdateDown(l: Ledger, event: KeyEvent, trigger: Trigger, contextIndex: int): Ledger {
    var (reapplied, done) := Reapply(l, event.key, 0);
    if done then reapplied else PressKey(reapplied, event, trigger, contextIndex)
  }

  /** The states an event may have when it is output. */
  predicate IsOutputState(state: KeyState) {
    state in {Up, Down, Not, DownMatched, UpMatched, HistoryTiming}
  }

  function Update(l: Ledger, event: KeyEvent, trigger: Trigger, contextIndex: int): Ledger
    requires IsOutputState(event.state)
  {
    match event.state
    case Up => UpdateUp(l, event, trigger)
    case Not => UpdateNot(l, event.key)
    case Down => UpdateDown(l, event, trigger, contextIndex)
    case _ => l
  }

  // ---------------------------------------------------------------------------
  // release_triggered

  predicate Triggers(entry: OutputDown, k: Key, contextIndex: int) {
    TriggerKey(entry.trigger) == k && (k == CONTEXT_ACTIVE ==> entry.contextIndex == contextIndex)
  }

  function Kept(down: seq<OutputDown>, k: Key, contextIndex: int): seq<OutputDown> {
    if down == [] then []
    else
      (if Triggers(down[0], k, contextIndex) then [] else [down[0]]) + Kept(down[1..], k, contextIndex)
  }

  function Triggered(down: seq<OutputDown>, k: Key, contextIndex: int): seq<OutputDown> {
    if down == [] then []
    else
      (if Triggers(down[0], k, contextIndex) then [down[0]] else []) + Triggered(down[1..], k, contextIndex)
  }

  /** The releases of entries in reverse order of pressing. */
  function Releases(down: seq<OutputDown>): KeySequence {
    if down == [] then []
    else
      Releases(down[1..]) + (if down[0].temporarilyReleased then [] else [Release(down[0].key)])
  }

  function ReleaseTriggered(l: Ledger, k: Key, contextIndex: int): Ledger {
    l.(down := Kept(l.down, k, contextIndex),
       buffer := l.buffer + Releases(Triggered(l.down, k, contextIndex)))
  }

  // ---------------------------------------------------------------------------
  // apply_output

  datatype OnReleaseOutput = OnReleaseOutput(trigger: Key, sequence: KeySequence, contextIndex: int)

  /** What an output is applied to besides the ledger. */
  datatype Environment = Environment(input: KeySequence, anyKeys: seq<Key>, virtualKeysToggle: bool)

  datatype OutputState = OutputState(ledger: Ledger, onRelease: seq<OnReleaseOutput>)

  function CountPresses(s: KeySequence, k: Key): nat {
    if s == [] then 0
    else (if s[0].key == k && s[0].IsPress() then 1 else 0) + CountPresses(s[1..], k)
  }

  function UpdateVirtual(l: Ledger, event: KeyEvent, trigger: Trigger, contextIndex: int, env: Environment): Ledger
    requires IsOutputState(event.state)
  {
    var pressed := (CountPresses(env.input, event.key) + CountPresses(l.buffer, event.key)) % 2 == 1;
    if event.state == Not then
      if pressed then
        Update(Update(l, Press(event.key), trigger, contextIndex), Release(event.key), trigger, contextIndex)
      else l
    else if !pressed || env.virtualKeysToggle then Update(l, event, trigger, contextIndex)
    else l
  }

  /** One event after the other for the given keys. */
  function UpdateAll(l: Ledger, keys: seq<Key>, state: KeyState, trigger: Trigger, contextIndex: int): Ledger
    requires IsOutputState(state)
    decreases |keys|
  {
    if keys == [] then l
    else UpdateAll(Update(l, KeyEvent(keys[0], state, 0), trigger, contextIndex), keys[1..], state, trigger, contextIndex)
  }

  function DownKeys(down: seq<OutputDown>): (r: seq<Key>)
    ensures |r| == |down| && forall i :: 0 <= i < |r| ==> r[i] == down[i].key
  {
    seq(|down|, i requires 0 <= i < |down| => down[i].key)
  }

  /** One event of an output other than `^`. */
  function ApplyEvent(l: Ledger, event: KeyEvent, trigger: Trigger, contextIndex: int, env: Environment): Ledger
    requires IsOutputState(event.state)
  {
    if event.key == ANY then
      UpdateAll(l, if event.state == Not then DownKeys(l.down) else env.anyKeys, event.state, trigger, contextIndex)
    else if IsVirtualKey(event.key) then UpdateVirtual(l, event, trigger, contextIndex, env)
    else Update(l, event, trigger, contextIndex)
  }

  /** Outputs as the configuration contains them. */
  predicate ValidOutput(s: KeySequence) {
    forall i :: 0 <= i < |s| ==> s[i].state in {Up, Down, Not} || (s[i].state == OutputOnRelease && s[i].key == NONE)
  }

  function Apply(o: OutputState, s: KeySequence, trigger: Trigger, contextIndex: int, env: Environment): OutputState
    requires ValidOutput(s)
    decreases |s|
  {
    if s == [] then o
    else if s[0].state == OutputOnRelease then
      if TriggerEvent(trigger).state == Down then
        o.(onRelease := o.onRelease + [OnReleaseOutput(TriggerKey(trigger), s[1..], contextIndex)])
      else Apply(o, s[1..], trigger, contextIndex, env)
    else
      Apply(o.(ledger := ApplyEvent(o.ledger, s[0], trigger, contextIndex, env)), s[1..], trigger, contextIndex, env)
  }

  /** The events of an output which are applied at once. */
  function AppliedPart(s: KeySequence, trigger: Trigger): KeySequence {
    if s == [] || (s[0].state == OutputOnRelease && TriggerEvent(trigger).state == Down) then []
    else [s[0]] + AppliedPart(s[1..], trigger)
  }

  predicate TouchesVirtual(s: KeySequence) {
    exists i :: 0 <= i < |s| && s[i].state != OutputOnRelease && IsVirtualKey(s[i].key)
  }

  function Unsuppressed(down: seq<OutputDown>): (r: seq<OutputDown>)
    ensures |r| == |down|
    ensures forall i :: 0 <= i < |r| ==> r[i] == down[i].(suppressed := r[i].suppressed)
  {
    var modifierHeld := exists i :: 0 <= i < |down| && IsCommonModifier(down[i].key) && !down[i].suppressed;
    seq(|down|, i requires 0 <= i < |down| =>
      if IsCommonModifier(down[i].key) && modifierHeld then down[i] else down[i].(suppressed := false))
  }
}
