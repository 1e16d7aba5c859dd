/** The history in which inputs with `?` are searched. `src/runtime/Stage.cpp`:
    `add_history_event` and `clean_up_history`. */
module History {
  import opened Keys

  /** What a history holds: presses and releases, and the time between them. */
  predicate IsHistory(h: KeySequence) {
    forall i :: 0 <= i < |h| ==>
      (h[i].IsNonOptional() && IsHistoryKey(h[i].key)) || (h[i].key == TIMEOUT && h[i].state == HistoryTiming)
  }

  /** The events of each key alternate: a press of a key that is not in `down`,
      a release of one that is. Only the release of a common modifier may also
      come first, for a key in neither set. */
  predicate Alternating(h: KeySequence, down: set<Key>, up: set<Key>) {
    if h == [] then true
    else
      var k, rest := h[0].key, h[1..];
      if k == TIMEOUT then h[0].state == HistoryTiming && Alternating(rest, down, up)
      else
        IsHistoryKey(k) &&
        match h[0].state
        case Down => k !in down && Alternating(rest, down + {k}, up - {k})
        case Up => (k in down || (IsCommonModifier(k) && k !in up)) && Alternating(rest, down - {k}, up + {k})
        case _ => false
  }

  /** Holds for the history of every reachable stage. */
  predicate HistoryInv(h: KeySequence) { Alternating(h, {}, {}) }

  /** A repeated press, or a release without a press. */
  predicate IsDuplicate(h: KeySequence, event: KeyEvent) {
    var it := RFindKey(h, event.key);
    if event.state == Down then it >= 0 && h[it].state == Down else it < 0 || h[it].state != Down
  }

  function WithTiming(h: KeySequence, timing: KeyEvent): KeySequence {
    var n := |h| - 1;
    if h == [] then h
    else if h[n].state == HistoryTiming then h[n := h[n].(value := SumTimeouts(timing.value, h[n].value))]
    else h + [timing]
  }

  function AddEvent(h: KeySequence, event: KeyEvent, timing: KeyEvent): KeySequence {
    if IsDuplicate(h, event) then h else WithTiming(h, timing) + [event]
  }

  /** Removes from the front what no input with `?` can still use. `blocks` says
      that some such input might still match. */
  function CleanUp(h: KeySequence, blocks: KeySequence -> bool): KeySequence
    decreases |h|
  {
    if h == [] then h
    else if h[0].state == HistoryTiming || h[0].state == Up then CleanUp(h[1..], blocks)
    else if !HasEvent(h, h[0].key, Up) || blocks(h) then h
    else
      var up := FindEvent(h[1..], h[0].key, Up);
      if IsCommonModifier(h[0].key) || up < 0 then CleanUp(h[1..], blocks)
      else CleanUp(Erase(h[1..], up), blocks)
  }

  // ---------------------------------------------------------------------------
  // What the invariant says about each key

  /** The first event of `k` that is not a timing, seen from the sets. */
  lemma {:induction false} FirstEvent(h: KeySequence, down: set<Key>, up: set<Key>, i: nat)
    requires Alternating(h, down, up) && i < |h| && h[i].key != TIMEOUT
    requires forall m :: 0 <= m < i ==> h[m].key != h[i].key
    ensures h[i].state == Down ==> h[i].key !in down
    ensures h[i].state == Up ==> h[i].key in down || (IsCommonModifier(h[i].key) && h[i].key !in up)
    ensures h[i].state in {Down, Up}
    decreases |h|
  {
    if i > 0 {
      var k := h[0].key;
      assert h[1..][i - 1] == h[i];
      assert forall m :: 0 <= m < i - 1 ==> h[1..][m] == h[m + 1];
      if k == TIMEOUT {
        FirstEvent(h[1..], down, up, i - 1);
      } else if h[0].state == Down {
        FirstEvent(h[1..], down + {k}, up - {k}, i - 1);
      } else {
        FirstEvent(h[1..], down - {k}, up + {k}, i - 1);
      }
    }
  }

  /** Two neighbouring events of a key are a press and a release, and only a
      common modifier may begin with a release. */
  lemma {:induction false} EventsAlternate(h: KeySequence, down: set<Key>, up: set<Key>, i: nat, j: nat)
    requires Alternating(h, down, up) && i < j < |h| && h[i].key == h[j].key != TIMEOUT
    requires forall m :: i < m < j ==> h[m].key != h[i].key
    ensures h[i].state in {Down, Up} && h[j].state in {Down, Up} && h[i].state != h[j].state
    decreases |h|
  {
    var k := h[0].key;
    var rest := h[1..];
    assert forall m :: 0 <= m < |rest| ==> rest[m] == h[m + 1];
    var down', up' :=
      if k == TIMEOUT then down else if h[0].state == Down then down + {k} else down - {k},
      if k == TIMEOUT then up else if h[0].state == Down then up - {k} else up + {k};
    if i > 0 {
      EventsAlternate(rest, down', up', i - 1, j - 1);
    } else {
      FirstEvent(rest, down', up', j - 1);
    }
  }

  // ---------------------------------------------------------------------------
  // Adding an event

  lemma {:induction false} AppendKeeps(h: KeySequence, down: set<Key>, up: set<Key>, event: KeyEvent)
    requires Alternating(h, down, up) && event.IsNonOptional() && IsHistoryKey(event.key)
    requires var it := RFindKey(h, event.key);
      if event.state == Down then (if it < 0 then event.key !in down else h[it].state != Down)
      else if it < 0 then event.key in down else h[it].state == Down
    ensures Alternating(h + [event], down, up)
    decreases |h|
  {
    var all := h + [event];
    if h == [] {
      assert all[1..] == [];
    } else {
      var k, rest := h[0].key, h[1..];
      assert all[1..] == rest + [event];
      RFindRest(h, event.key);
      if k == TIMEOUT {
        AppendKeeps(rest, down, up, event);
      } else if h[0].state == Down {
        AppendKeeps(rest, down + {k}, up - {k}, event);
      } else {
        AppendKeeps(rest, down - {k}, up + {k}, event);
      }
    }
  }

  lemma RFindRest(h: KeySequence, k: Key)
    requires h != []
    ensures var it, it' := RFindKey(h, k), RFindKey(h[1..], k);
      if it' >= 0 then it == it' + 1 else it == if h[0].key == k then 0 else -1
  {
    var it, it' := RFindKey(h, k), RFindKey(h[1..], k);
    assert forall j :: 0 < j < |h| ==> h[j] == h[1..][j - 1];
  }

  lemma {:induction false} TimingKeeps(h: KeySequence, down: set<Key>, up: set<Key>, timing: KeyEvent)
    requires Alternating(h, down, up) && timing.key == TIMEOUT && timing.state == HistoryTiming
    ensures Alternating(h + [timing], down, up)
    decreases |h|
  {
    var all := h + [timing];
    if h == [] {
      assert all[1..] == [];
    } else {
      var k := h[0].key;
      assert all[1..] == h[1..] + [timing];
      if k == TIMEOUT {
        TimingKeeps(h[1..], down, up, timing);
      } else if h[0].state == Down {
        TimingKeeps(h[1..], down + {k}, up - {k}, timing);
      } else {
        TimingKeeps(h[1..], down - {k}, up + {k}, timing);
      }
    }
  }

  lemma {:induction false} ValueKeeps(h: KeySequence, down: set<Key>, up: set<Key>, n: nat, value: Value)
    requires Alternating(h, down, up) && n < |h|
    ensures Alternating(h[n := h[n].(value := value)], down, up)
    decreases |h|
  {
    var all := h[n := h[n].(value := value)];
    var k := h[0].key;
    if n == 0 {
      assert all[1..] == h[1..];
    } else {
      assert all[1..] == h[1..][n - 1 := h[n].(value := value)];
      if k == TIMEOUT {
        ValueKeeps(h[1..], down, up, n - 1, value);
      } else if h[0].state == Down {
        ValueKeeps(h[1..], down + {k}, up - {k}, n - 1, value);
      } else {
        ValueKeeps(h[1..], down - {k}, up + {k}, n - 1, value);
      }
    }
  }

  lemma TimedLast(h: KeySequence, timing: KeyEvent, k: Key)
    requires timing.key == TIMEOUT && k != TIMEOUT
    ensures var t := WithTiming(h, timing);
      RFindKey(t, k) == RFindKey(h, k) && (RFindKey(h, k) >= 0 ==> t[RFindKey(h, k)].state == h[RFindKey(h, k)].state)
  {
    var t := WithTiming(h, timing);
    var it := RFindKey(h, k);
    assert forall j :: 0 <= j < |h| ==> t[j].key == h[j].key && t[j].state == h[j].state;
    assert forall j :: |h| <= j < |t| ==> t[j].key != k;
    var it' := RFindKey(t, k);
    assert it >= 0 ==> t[it].key == k;
  }

  /** Adding an event keeps the invariant: duplicates are dropped. */
  lemma AddKeeps(h: KeySequence, event: KeyEvent, timing: KeyEvent)
    requires HistoryInv(h) && event.IsNonOptional() && IsHistoryKey(event.key)
    requires timing.key == TIMEOUT && timing.state == HistoryTiming
    ensures HistoryInv(AddEvent(h, event, timing))
  {
    if !IsDuplicate(h, event) {
      var n := |h| - 1;
      if n >= 0 && h[n].state == HistoryTiming {
        ValueKeeps(h, {}, {}, n, SumTimeouts(timing.value, h[n].value));
      } else if n >= 0 {
        TimingKeeps(h, {}, {}, timing);
      }
      TimedLast(h, timing, event.key);
      AppendKeeps(WithTiming(h, timing), {}, {}, event);
    }
  }

  // ---------------------------------------------------------------------------
  // Cleaning up

  /** Fewer keys known as released allow more. */
  lemma {:induction false} ForgetReleased(h: KeySequence, down: set<Key>, up: set<Key>, k: Key)
    requires Alternating(h, down, up)
    ensures Alternating(h, down, up - {k})
    decreases |h|
  {
    if h != [] {
      var j, rest := h[0].key, h[1..];
      if j == TIMEOUT {
        ForgetReleased(rest, down, up, k);
      } else if h[0].state == Down {
        assert up - {j} - {k} == up - {k} - {j};
        ForgetReleased(rest, down + {j}, up - {j}, k);
      } else if j == k {
        assert up - {k} + {k} == up + {k};
      } else {
        assert up + {j} - {k} == up - {k} + {j};
        ForgetReleased(rest, down - {j}, up + {j}, k);
      }
    }
  }

  /** The press of a common modifier may go, its release may stay. */
  lemma {:induction false} ForgetModifier(h: KeySequence, down: set<Key>, up: set<Key>, k: Key)
    requires Alternating(h, down + {k}, up) && k !in down && k !in up && IsCommonModifier(k)
    ensures Alternating(h, down, up)
    decreases |h|
  {
    if h != [] {
      var j, rest := h[0].key, h[1..];
      if j == TIMEOUT {
        ForgetModifier(rest, down, up, k);
      } else if h[0].state == Down {
        assert down + {k} + {j} == down + {j} + {k};
        ForgetModifier(rest, down + {j}, up - {j}, k);
      } else if j == k {
        assert down + {k} - {k} == down - {k};
      } else {
        assert down + {k} - {j} == down - {j} + {k};
        ForgetModifier(rest, down - {j}, up + {j}, k);
      }
    }
  }

  /** The press of another key goes together with its release. */
  lemma {:induction false} ForgetPressAndRelease(h: KeySequence, down: set<Key>, up: set<Key>, k: Key)
    requires Alternating(h, down + {k}, up) && k !in down && k != TIMEOUT
    requires FindEvent(h, k, Up) >= 0
    ensures Alternating(Erase(h, FindEvent(h, k, Up)), down, up - {k})
    decreases |h|
  {
    var n := FindEvent(h, k, Up);
    var j, rest := h[0].key, h[1..];
    if n == 0 {
      assert Erase(h, 0) == rest;
      assert down + {k} - {k} == down;
      ForgetReleased(rest, down, up + {k}, k);
      assert up + {k} - {k} == up - {k};
    } else {
      var m := FindEvent(rest, k, Up);
      assert n == m + 1;
      var erased := Erase(h, n);
      assert erased[0] == h[0] && erased[1..] == Erase(rest, m);
      if j == TIMEOUT {
        ForgetPressAndRelease(rest, down, up, k);
      } else if h[0].state == Down {
        assert down + {k} + {j} == down + {j} + {k};
        assert up - {j} - {k} == up - {k} - {j};
        ForgetPressAndRelease(rest, down + {j}, up - {j}, k);
      } else {
        assert down + {k} - {j} == down - {j} + {k};
        assert up + {j} - {k} == up - {k} + {j};
        ForgetPressAndRelease(rest, down - {j}, up + {j}, k);
      }
    }
  }

  /** Cleaning up keeps the invariant, and what is left is empty or begins with
      a press: an input with `?` never begins to match at a release. */
  lemma {:induction false} CleanUpKeeps(h: KeySequence, blocks: KeySequence -> bool)
    requires HistoryInv(h)
    ensures HistoryInv(CleanUp(h, blocks))
    ensures var r := CleanUp(h, blocks); r == [] || r[0].state == Down
    decreases |h|
  {
    if h != [] {
      var k, rest := h[0].key, h[1..];
      if h[0].state == HistoryTiming {
        CleanUpKeeps(rest, blocks);
      } else if h[0].state == Up {
        ReleaseGone(rest, k);
        CleanUpKeeps(rest, blocks);
      } else if HasEvent(h, k, Up) && !blocks(h) {
        PressGone(h);
        if IsCommonModifier(k) {
          CleanUpKeeps(rest, blocks);
        } else {
          CleanUpKeeps(Erase(rest, FindEvent(rest, k, Up)), blocks);
        }
      }
    }
  }

  lemma ReleaseGone(rest: KeySequence, k: Key)
    requires Alternating(rest, {} - {k}, {} + {k})
    ensures HistoryInv(rest)
  {
    var none: set<Key> := {};
    assert none - {k} == none;
    ForgetReleased(rest, none, none + {k}, k);
    assert none + {k} - {k} == none;
  }

  /** The press at the front can go: alone for a common modifier, and together
      with its release, which is there, for another key. */
  lemma PressGone(h: KeySequence)
    requires HistoryInv(h) && h != [] && h[0].state == Down && HasEvent(h, h[0].key, Up)
    ensures FindEvent(h[1..], h[0].key, Up) >= 0
    ensures if IsCommonModifier(h[0].key) then HistoryInv(h[1..])
            else HistoryInv(Erase(h[1..], FindEvent(h[1..], h[0].key, Up)))
  {
    var k, rest := h[0].key, h[1..];
    var none: set<Key> := {};
    assert none - {k} == none;
    var i :| 0 <= i < |h| && h[i].key == k && h[i].state == Up;
    assert rest[i - 1] == h[i];
    assert HasEvent(rest, k, Up);
    if IsCommonModifier(k) {
      ForgetModifier(rest, none, none, k);
    } else {
      ForgetPressAndRelease(rest, none, none, k);
    }
  }
}
