/** Virtual keys in outputs: whether one is set is the parity of its presses in the
    input sequence and the output buffer. `apply_output` and `update_output` of
    `src/runtime/Stage.cpp`. */
module VirtualKeys {
  import opened Keys
  import opened Outputs

  predicate Odd(n: nat) { n % 2 == 1 }

  /** The presses of a key which the stage knows of. */
  function Presses(l: Ledger, env: Environment, k: Key): nat {
    CountPresses(env.input, k) + CountPresses(l.buffer, k)
  }

  /** The states of the events of a key. */
  function StatesOf(s: KeySequence, k: Key): seq<KeyState> {
    if s == [] then []
    else (if s[0].key == k then [s[0].state] else []) + StatesOf(s[1..], k)
  }

  lemma {:induction false} PressesSum(a: KeySequence, b: KeySequence, k: Key)
    ensures CountPresses(a + b, k) == CountPresses(a, k) + CountPresses(b, k)
    decreases |a|
  {
    if a == [] {
      assert a + b == b;
    } else {
      assert (a + b)[1..] == a[1..] + b;
      PressesSum(a[1..], b, k);
    }
  }

  lemma {:induction false} StatesSum(a: KeySequence, b: KeySequence, k: Key)
    ensures StatesOf(a + b, k) == StatesOf(a, k) + StatesOf(b, k)
    decreases |a|
  {
    if a == [] {
      assert a + b == b;
    } else {
      assert (a + b)[1..] == a[1..] + b;
      StatesSum(a[1..], b, k);
      Associative(if a[0].key == k then [a[0].state] else [], StatesOf(a[1..], k), StatesOf(b, k));
    }
  }

  /** The entry is pressed again as soon as something is pressed. */
  predicate Waits(entry: OutputDown) { entry.temporarilyReleased && !entry.suppressed }

  predicate AnyWaits(down: seq<OutputDown>) { exists i :: 0 <= i < |down| && Waits(down[i]) }

  predicate KeyWaits(down: seq<OutputDown>, k: Key) { exists i :: 0 <= i < |down| && down[i].key == k && Waits(down[i]) }

  predicate HasEntry(down: seq<OutputDown>, k: Key) { exists i :: 0 <= i < |down| && down[i].key == k }

  /** All of the events but those of the key are presses of waiting entries. */
  predicate OthersWaited(s: KeySequence, down: seq<OutputDown>, k: Key) {
    forall e :: e in s && e.key != k ==> e == Press(e.key) && KeyWaits(down, e.key)
  }

  /** What was emitted from one ledger to another. */
  function Emitted(l: Ledger, next: Ledger): KeySequence
    requires l.buffer <= next.buffer
  {
    next.buffer[|l.buffer|..]
  }

  /** The key is pressed once more although it is down already and not released in
      between, so it is released first: after something was reapplied. */
  predicate IsPressedAnew(l: Ledger, k: Key) {
    HasEntry(l.down, k) && !KeyWaits(l.down, k) && (l.reapplied || AnyWaits(l.down))
  }

  // ---------------------------------------------------------------------------
  // Temporarily released keys

  lemma OneEmitted(buffer: KeySequence, event: KeyEvent, after: KeySequence, k: Key)
    requires buffer + [event] <= after
    ensures buffer <= after && after[|buffer|..] == [event] + after[|buffer| + 1..]
    ensures StatesOf(after[|buffer|..], k) == (if event.key == k then [event.state] else []) + StatesOf(after[|buffer| + 1..], k)
  {
    assert after[|buffer|] == (buffer + [event])[|buffer|] == event;
    assert after[|buffer|..][1..] == after[|buffer| + 1..];
  }

  lemma {:induction false} ReapplyKeepsKeys(l: Ledger, k: Key, i: nat)
    requires IsVirtualKey(k) && i <= |l.down|
    ensures var down := Reapply(l, k, i).0.down; |down| == |l.down| && forall j :: 0 <= j < |down| ==> down[j].key == l.down[j].key
    decreases |l.down| - i
  {
    if i < |l.down| {
      var entry := l.down[i];
      if Waits(entry) && entry.key != k {
        ReapplyKeepsKeys(l.Set(i, entry.(temporarilyReleased := false)).Emit(Press(entry.key)).(reapplied := true), k, i + 1);
      } else if !Waits(entry) {
        ReapplyKeepsKeys(l, k, i + 1);
      }
    }
  }

  /** From entry `i` on: the key is pressed once if one of its entries waits. */
  lemma {:induction false} ReapplyEmits(l: Ledger, k: Key, i: nat)
    requires IsVirtualKey(k) && i <= |l.down|
    ensures var (next, done) := Reapply(l, k, i);
      && l.buffer <= next.buffer && done == KeyWaits(l.down[i..], k)
      && StatesOf(Emitted(l, next), k) == (if done then [Down] else [])
      && (done || (next.reapplied <==> l.reapplied || AnyWaits(l.down[i..])))
    decreases |l.down| - i
  {
    hide StatesOf, KeyWaits, AnyWaits;
    WaitsFrom(l.down, i, k);
    if i < |l.down| {
      var entry := l.down[i];
      if Waits(entry) {
        var next := l.Set(i, entry.(temporarilyReleased := false)).Emit(Press(entry.key)).(reapplied := true);
        if entry.key != k {
          assert next.down[i + 1..] == l.down[i + 1..];
          ReapplyEmits(next, k, i + 1);
        } else {
          NoStates(k);
        }
        OneEmitted(l.buffer, Press(entry.key), Reapply(l, k, i).0.buffer, k);
      } else {
        ReapplyEmits(l, k, i + 1);
      }
    } else {
      assert l.buffer[|l.buffer|..] == [];
      NoStates(k);
    }
  }

  lemma WaitsFrom(down: seq<OutputDown>, i: nat, k: Key)
    requires i <= |down|
    ensures AnyWaits(down[i..]) <==> i < |down| && (Waits(down[i]) || AnyWaits(down[i + 1..]))
    ensures KeyWaits(down[i..], k) <==> i < |down| && ((Waits(down[i]) && down[i].key == k) || KeyWaits(down[i + 1..], k))
  {
    hide Waits;
    if i < |down| {
      assert down[i..][0] == down[i];
      assert forall j {:trigger down[i + 1..][j]} :: 0 <= j < |down| - i - 1 ==> down[i + 1..][j] == down[i..][j + 1];
      assert forall j {:trigger down[i..][j]} :: 0 < j < |down| - i ==> down[i..][j] == down[i + 1..][j - 1];
    }
  }

  lemma {:induction false} ReapplyEmitsWaiting(l: Ledger, k: Key, i: nat)
    requires IsVirtualKey(k) && i <= |l.down|
    ensures var next := Reapply(l, k, i).0;
      l.buffer <= next.buffer && forall e :: e in Emitted(l, next) ==> e == Press(e.key) && KeyWaits(l.down[i..], e.key)
    decreases |l.down| - i
  {
    hide KeyWaits;
    if i < |l.down| {
      var entry, all := l.down[i], Reapply(l, k, i).0;
      forall j: Key ensures KeyWaits(l.down[i + 1..], j) ==> KeyWaits(l.down[i..], j) { WaitsFrom(l.down, i, j); }
      if Waits(entry) {
        var next := l.Set(i, entry.(temporarilyReleased := false)).Emit(Press(entry.key)).(reapplied := true);
        WaitsFrom(l.down, i, entry.key);
        if entry.key != k {
          assert next.down[i + 1..] == l.down[i + 1..];
          ReapplyEmitsWaiting(next, k, i + 1);
        }
        OneEmitted(l.buffer, Press(entry.key), all.buffer, k);
      } else {
        ReapplyEmitsWaiting(l, k, i + 1);
      }
    }
  }

  lemma FoundEntry(down: seq<OutputDown>, k: Key)
    ensures FindDown(down, k) >= 0 <==> HasEntry(down, k)
  {
  }

  lemma SameEntries(a: seq<OutputDown>, b: seq<OutputDown>, k: Key)
    requires |a| == |b| && forall i :: 0 <= i < |a| ==> a[i].key == b[i].key
    ensures HasEntry(a, k) == HasEntry(b, k)
  {
    if HasEntry(b, k) {
      var i :| 0 <= i < |b| && b[i].key == k;
      assert a[i].key == k;
    }
  }

  // ---------------------------------------------------------------------------
  // One event

  lemma PressKeyEmits(l: Ledger, event: KeyEvent, trigger: Trigger, contextIndex: int)
    requires IsVirtualKey(event.key)
    ensures var next := PressKey(l, event, trigger, contextIndex);
      && next.buffer == l.buffer + (if HasEntry(l.down, event.key) && l.reapplied then [Release(event.key), event] else [event])
      && HasEntry(next.down, event.key)
  {
    var k := event.key;
    FoundEntry(l.down, k);
    var next := PressKey(l, event, trigger, contextIndex);
    var it := FindDown(l.down, k);
    if it >= 0 {
      assert next.down[it].key == k;
      Associative(l.buffer, [Release(k)], [event]);
      assert [Release(k)] + [event] == [Release(k), event];
    } else {
      assert next.down[|l.down|].key == k;
    }
  }

  lemma EmittedInTwo(a: KeySequence, b: KeySequence, e: KeySequence, k: Key)
    requires a <= b
    ensures a <= b + e && (b + e)[|a|..] == b[|a|..] + e
    ensures StatesOf((b + e)[|a|..], k) == StatesOf(b[|a|..], k) + StatesOf(e, k)
  {
    assert (b + e)[|a|..] == b[|a|..] + e;
    StatesSum(b[|a|..], e, k);
  }

  lemma StatesOfOne(event: KeyEvent)
    ensures StatesOf([event], event.key) == [event.state]
    ensures StatesOf([Release(event.key), event], event.key) == [Up, event.state]
  {
    assert [event][1..] == [] && [Release(event.key), event][1..] == [event];
  }

  /** A press of a virtual key emits exactly one press of it. */
  lemma DownEmits(l: Ledger, event: KeyEvent, trigger: Trigger, contextIndex: int)
    requires IsVirtualKey(event.key) && event.state == Down
    ensures var next := Update(l, event, trigger, contextIndex);
      && l.buffer <= next.buffer && HasEntry(next.down, event.key)
      && StatesOf(Emitted(l, next), event.key) == (if IsPressedAnew(l, event.key) then [Up, Down] else [Down])
      && OthersWaited(Emitted(l, next), l.down, event.key)
  {
    hide Reapply, PressKey, StatesOf, Waits;
    var k := event.key;
    assert l.down[0..] == l.down;
    ReapplyEmits(l, k, 0);
    ReapplyEmitsWaiting(l, k, 0);
    ReapplyKeepsKeys(l, k, 0);
    var (reapplied, done) := Reapply(l, k, 0);
    SameEntries(l.down, reapplied.down, k);
    if !done {
      PressKeyEmits(reapplied, event, trigger, contextIndex);
      var e := if HasEntry(l.down, k) && reapplied.reapplied then [Release(k), event] else [event];
      EmittedInTwo(l.buffer, reapplied.buffer, e, k);
      StatesOfOne(event);
      assert [] + StatesOf(e, k) == StatesOf(e, k);
    }
  }

  /** A release emits at most itself, and does not take back a press. */
  lemma UpEmits(l: Ledger, event: KeyEvent, trigger: Trigger, contextIndex: int)
    requires IsVirtualKey(event.key) && event.state == Up
    ensures Update(l, event, trigger, contextIndex).buffer == l.buffer + (if HasEntry(l.down, event.key) then [event] else [])
  {
    FoundEntry(l.down, event.key);
  }

  /** What one event of a virtual key emits, for every ledger and all its flags: the
      press and the release that the parity asks for, and nothing if it asks for
      nothing. Nothing that waits in the buffer is taken back. */
  lemma VirtualKeyEmits(l: Ledger, event: KeyEvent, trigger: Trigger, contextIndex: int, env: Environment)
    requires IsVirtualKey(event.key) && event.state in {Up, Down, Not}
    ensures var next := ApplyEvent(l, event, trigger, contextIndex, env);
      var on, k := Odd(Presses(l, env, event.key)), event.key;
      var press := if IsPressedAnew(l, k) then [Up, Down] else [Down];
      && l.buffer <= next.buffer
      && (event.state == Down ==> StatesOf(Emitted(l, next), k) == if on && !env.virtualKeysToggle then [] else press)
      && (event.state == Not ==> StatesOf(Emitted(l, next), k) == if on then press + [Up] else [])
      && (event.state == Up ==>
            StatesOf(Emitted(l, next), k) == if (on && !env.virtualKeysToggle) || !HasEntry(l.down, k) then [] else [Up])
      && OthersWaited(Emitted(l, next), l.down, k)
      && (StatesOf(Emitted(l, next), k) == [] ==> next.buffer == l.buffer)
  {
    hide Update, StatesOf, IsPressedAnew, Waits;
    var k := event.key;
    var next := ApplyEvent(l, event, trigger, contextIndex, env);
    assert StatesOf([], k) == [] by { NoStates(k); }
    match event.state
    case Down =>
      DownEmits(l, event, trigger, contextIndex);
      NotBoth(l, next, k);
    case Up =>
      UpEmits(l, event, trigger, contextIndex);
      EmittedInTwo(l.buffer, l.buffer, [event], k);
      StatesOfOne(event);
      NotBoth(l, next, k);
    case Not =>
      DownEmits(l, Press(k), trigger, contextIndex);
      var down := Update(l, Press(k), trigger, contextIndex);
      UpEmits(down, Release(k), trigger, contextIndex);
      EmittedInTwo(l.buffer, down.buffer, [Release(k)], k);
      StatesOfOne(Release(k));
      NotBoth(l, next, k);
  }

  /** So the output `V` sets the key with one press and nothing else, when nothing
      waits to be pressed again. */
  lemma VirtualKeyIsSet(o: OutputState, k: Key, trigger: Trigger, contextIndex: int, env: Environment)
    requires IsVirtualKey(k) && !AnyWaits(o.ledger.down) && !HasEntry(o.ledger.down, k)
    ensures ValidOutput([Press(k)])
    ensures Apply(o, [Press(k)], trigger, contextIndex, env).ledger.buffer
      == o.ledger.buffer + if Odd(Presses(o.ledger, env, k)) && !env.virtualKeysToggle then [] else [Press(k)]
  {
    hide Reapply, PressKey, StatesOf, Waits;
    var l := o.ledger;
    NothingReapplied(l, k, 0);
    PressKeyEmits(l, Press(k), trigger, contextIndex);
    assert [Press(k)][1..] == [];
    assert l.buffer + [] == l.buffer;
  }

  lemma {:induction false} NothingReapplied(l: Ledger, k: Key, i: nat)
    requires IsVirtualKey(k) && i <= |l.down| && !AnyWaits(l.down)
    ensures Reapply(l, k, i) == (l, false)
    decreases |l.down| - i
  {
    if i < |l.down| {
      assert !Waits(l.down[i]);
      NothingReapplied(l, k, i + 1);
    }
  }

  lemma NoStates(k: Key)
    ensures StatesOf([], k) == []
  {
  }

  lemma NotBoth(l: Ledger, next: Ledger, k: Key)
    ensures next.buffer == l.buffer ==> l.buffer <= next.buffer && Emitted(l, next) == []
  {
  }

  // ---------------------------------------------------------------------------
  // Parity

  function Downs(states: seq<KeyState>): nat {
    if states == [] then 0 else (if states[0] == Down || states[0] == DownMatched then 1 else 0) + Downs(states[1..])
  }

  lemma {:induction false} PressesOfStates(s: KeySequence, k: Key)
    ensures CountPresses(s, k) == Downs(StatesOf(s, k))
    decreases |s|
  {
    if s != [] {
      PressesOfStates(s[1..], k);
      var first := if s[0].key == k then [s[0].state] else [];
      assert (first + StatesOf(s[1..], k))[|first|..] == StatesOf(s[1..], k);
    }
  }

  /** The states of virtual keys. Without toggling a press sets the key, whatever it
      was before; with toggling it changes it. `!V` resets it, and a release leaves it
      as it is. At most one press is added. */
  lemma VirtualKeyParity(l: Ledger, event: KeyEvent, trigger: Trigger, contextIndex: int, env: Environment)
    requires IsVirtualKey(event.key) && event.state in {Up, Down, Not}
    ensures var next := ApplyEvent(l, event, trigger, contextIndex, env);
      var before, after := Presses(l, env, event.key), Presses(next, env, event.key);
      && before <= after <= before + 1
      && (event.state == Down && !env.virtualKeysToggle ==> Odd(after))
      && (event.state == Down && env.virtualKeysToggle ==> Odd(after) != Odd(before))
      && (event.state == Not ==> !Odd(after))
      && (event.state == Up ==> after == before)
  {
    hide ApplyEvent, StatesOf, IsPressedAnew, Waits, CountPresses;
    var k := event.key;
    var next := ApplyEvent(l, event, trigger, contextIndex, env);
    VirtualKeyEmits(l, event, trigger, contextIndex, env);
    var e := Emitted(l, next);
    assert next.buffer == l.buffer + e;
    PressesSum(l.buffer, e, k);
    PressesOfStates(e, k);
    SomeDowns();
  }

  lemma SomeDowns()
    ensures Downs([]) == 0 == Downs([Up]) && Downs([Down]) == 1 == Downs([Up, Down])
    ensures Downs([Down] + [Up]) == 1 == Downs([Up, Down] + [Up])
  {
    assert [Up][1..] == [] == [Down][1..] && [Up, Down][1..] == [Down];
    assert [Down] + [Up] == [Down, Up] && [Down, Up][1..] == [Up];
    assert [Up, Down] + [Up] == [Up, Down, Up] && [Up, Down, Up][1..] == [Down, Up];
  }
}
