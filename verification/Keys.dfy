/** Keys, key events and key sequences: `src/runtime/Key.h` (with the Linux key
    codes) and `src/runtime/KeyEvent.h`. */
module Keys {

  type Byte = b: int | 0 <= b < 0x100

  type Key = k: int | 0 <= k < 0x1_0000

  const NONE: Key := 0
  const ANY: Key := 0xF000
  const TIMEOUT: Key := 0xF001
  const CONTEXT_ACTIVE: Key := 0xF002
  const UNICODE_OUTPUT: Key := 0xF003
  const FIRST_ACTION: Key := 0xF100
  const LAST_ACTION: Key := 0xF4FF
  const FIRST_LOGICAL: Key := 0xF500
  const LAST_LOGICAL: Key := 0xF5FF
  const FIRST_VIRTUAL: Key := 0xF600
  const LAST_VIRTUAL: Key := 0xFAFF
  const LAST_KEYBOARD_KEY: Key := 0xEFFF

  predicate IsActionKey(k: Key) { FIRST_ACTION <= k <= LAST_ACTION }

  predicate IsLogicalKey(k: Key) { FIRST_LOGICAL <= k <= LAST_LOGICAL }

  predicate IsVirtualKey(k: Key) { FIRST_VIRTUAL <= k <= LAST_VIRTUAL }

  predicate IsMouseButton(k: Key) { 0x0110 <= k <= 0x0114 }

  predicate IsMouseWheel(k: Key) { 0x0150 <= k <= 0x0153 }

  predicate IsKeyboardKey(k: Key) {
    NONE < k <= LAST_KEYBOARD_KEY && !IsMouseButton(k) && !IsMouseWheel(k)
  }

  predicate IsDeviceKey(k: Key) { IsKeyboardKey(k) || IsMouseButton(k) || IsMouseWheel(k) }

  /** The keys with events in a history. */
  predicate IsHistoryKey(k: Key) { IsDeviceKey(k) || k == UNICODE_OUTPUT }

  /** Shift, Control, Alt and Meta, left and right. */
  predicate IsCommonModifier(k: Key) {
    k in {0x2A, 0x36, 0x1D, 0x61, 0x38, 0x64, 0x7D, 0x7E}
  }

  /** The states of a key event. In a timeout of an input expression the
      states Up, Down and Not are read as "cancel on up and down", "cancel on
      down" and "not-timeout, cancel on down". */
  datatype KeyState =
    | Up
    | Down
    | Not
    | UpAsync          // `~K` of an input
    | DownAsync        // `*K` of an input
    | NoMightMatch     // `?`
    | OutputOnRelease  // `^`
    | DownMatched      // of the input sequence of a stage
    | UpMatched        // of the input sequence of a stage, for timeouts
    | HistoryTiming    // of the history of a stage, for timeouts
    | NotTimeoutCancelOnUpDown

  /** The 12 bit payload of an event: a duration or a wheel delta. */
  type Value = v: int | 0 <= v < 0x1000

  function SumTimeouts(a: Value, b: Value): Value {
    if a + b < 0x1000 then a + b else 0xFFF
  }

  datatype KeyEvent = KeyEvent(key: Key, state: KeyState, value: Value) {
    /** The source's equality of events, which ignores the value. */
    predicate Same(other: KeyEvent) { key == other.key && state == other.state }

    predicate IsPress() { state == Down || state == DownMatched }

    predicate IsNonOptional() { state == Up || state == Down }
  }

  const NO_EVENT := KeyEvent(NONE, Up, 0)

  type KeySequence = seq<KeyEvent>

  /** Expressions and inputs are never empty. */
  type Expression = s: KeySequence | |s| > 0 witness [NO_EVENT]

  predicate IsNotTimeoutState(state: KeyState) { state == Not || state == NotTimeoutCancelOnUpDown }

  function Press(k: Key): KeyEvent { KeyEvent(k, Down, 0) }

  function Release(k: Key): KeyEvent { KeyEvent(k, Up, 0) }

  predicate HasEvent(s: KeySequence, k: Key, state: KeyState) {
    exists i :: 0 <= i < |s| && s[i].key == k && s[i].state == state
  }

  predicate HasNonOptional(s: KeySequence) {
    exists i :: 0 <= i < |s| && s[i].IsNonOptional()
  }

  /** Index of the first event of a key, or -1. */
  function FindKey(s: KeySequence, k: Key): (r: int)
    ensures -1 <= r < |s|
    ensures r >= 0 ==> s[r].key == k && forall i :: 0 <= i < r ==> s[i].key != k
    ensures r < 0 ==> forall i :: 0 <= i < |s| ==> s[i].key != k
  {
    if s == [] then -1
    else if s[0].key == k then 0
    else
      var r := FindKey(s[1..], k);
      if r < 0 then -1 else r + 1
  }

  /** Index of the last event of a key, or -1. */
  function RFindKey(s: KeySequence, k: Key): (r: int)
    ensures -1 <= r < |s|
    ensures r >= 0 ==> s[r].key == k && forall i :: r < i < |s| ==> s[i].key != k
    ensures r < 0 ==> forall i :: 0 <= i < |s| ==> s[i].key != k
  {
    if s == [] then -1
    else if s[|s| - 1].key == k then |s| - 1
    else RFindKey(s[..|s| - 1], k)
  }

  /** Index of the first event of a key in a given state, or -1. */
  function FindEvent(s: KeySequence, k: Key, state: KeyState): (r: int)
    ensures -1 <= r < |s|
    ensures r >= 0 ==> s[r].key == k && s[r].state == state
    ensures r >= 0 ==> forall i :: 0 <= i < r ==> !(s[i].key == k && s[i].state == state)
    ensures r < 0 <==> !HasEvent(s, k, state)
  {
    if s == [] then -1
    else if s[0].key == k && s[0].state == state then 0
    else
      var r := FindEvent(s[1..], k, state);
      assert r < 0 ==> forall i :: 0 < i < |s| ==> s[i] == s[1..][i - 1];
      if r < 0 then -1 else r + 1
  }

  function Erase<T>(s: seq<T>, i: int): (r: seq<T>)
    requires 0 <= i < |s|
  {
    s[..i] + s[i + 1..]
  }

  lemma SplitAround<T>(s: seq<T>, i: nat)
    requires i < |s|
    ensures s == s[..i] + ([s[i]] + s[i + 1..])
  {
  }

  lemma Associative<T>(a: seq<T>, b: seq<T>, c: seq<T>)
    ensures a + (b + c) == a + b + c
  {
  }

  function Events(keys: seq<Key>, state: KeyState): (r: KeySequence)
    ensures |r| == |keys| && forall i :: 0 <= i < |r| ==> r[i] == KeyEvent(keys[i], state, 0)
  {
    seq(|keys|, i requires 0 <= i < |keys| => KeyEvent(keys[i], state, 0))
  }

  function KeysOf(events: KeySequence): (r: seq<Key>)
    ensures |r| == |events| && forall i :: 0 <= i < |r| ==> r[i] == events[i].key
  {
    seq(|events|, i requires 0 <= i < |events| => events[i].key)
  }

  /** The key is pressed by an event at `from` or later, but before `to`. */
  predicate PressedIn(s: KeySequence, from: nat, to: nat, k: Key) {
    exists j :: from <= j < to && j < |s| && s[j].key == k && s[j].state == Down
  }

  /** Every release in the sequence follows a press of its key. */
  predicate BalancedPart(s: KeySequence) {
    forall i :: 0 <= i < |s| && s[i].state == Up ==> PressedIn(s, 0, i, s[i].key)
  }

  /** Every half around `^` releases only what it pressed itself. */
  predicate BalancedOutput(s: KeySequence) {
    forall i :: 0 <= i < |s| && s[i].state == Up ==>
      exists j :: 0 <= j < i && s[j].key == s[i].key && s[j].state == Down
                  && forall m :: j < m < i ==> s[m].state != OutputOnRelease
  }
}
