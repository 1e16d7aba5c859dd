/** The input a stage holds: pressed keys, matched or not, and their releases.
    `src/runtime/Stage.cpp`: what `apply_input`, `finish_sequence`,
    `forward_from_sequence` and `validate_state` do to `m_sequence`. */
module InputSequence {
  import opened Keys

  /** Between two presses of a key there is a release. */
  predicate Released(s: KeySequence, i: nat, j: nat) {
    j < |s| && exists m :: i < m < j && s[m].key == s[j].key && s[m].state == Up
  }

  /** Holds for the input sequence of every reachable stage. */
  predicate SeqInv(s: KeySequence) {
    && (forall i :: 0 <= i < |s| ==> s[i].state in {Down, DownMatched, Up, UpMatched})
    && (forall i :: 0 <= i < |s| ==> s[i].key != NONE && (s[i].state == UpMatched ==> s[i].key == TIMEOUT))
    && (forall i, j :: 0 <= i < j < |s| && s[i].key == s[j].key && s[i].IsPress() && s[j].IsPress() ==> Released(s, i, j))
    && (forall i, j :: 0 <= i < j < |s| && s[i].key == s[j].key && s[i].IsPress() ==> s[j].state != UpMatched)
  }

  predicate UpFollows(s: KeySequence, i: nat)
    requires i < |s|
  {
    exists m :: i <= m < |s| && s[m].key == s[i].key && s[m].state == Up
  }

  /** A matched event whose key was not released since. */
  predicate Settled(s: KeySequence, i: nat)
    requires i < |s|
  {
    s[i].state == UpMatched || (s[i].state == DownMatched && !UpFollows(s, i))
  }

  predicate SettledUpTo(s: KeySequence, i: nat) {
    i <= |s| && forall j :: 0 <= j < i ==> Settled(s, j)
  }

  // ---------------------------------------------------------------------------
  // finish_sequence

  /** From event `i` on: of the first `length` events, presses which were
      released and all releases are erased, the others become matched. */
  function Finish(s: KeySequence, i: nat, length: nat): KeySequence
    requires i <= length <= |s|
    decreases length - i
  {
    if i == length then s
    else if s[i].IsPress() then
      if UpFollows(s, i) then Finish(Erase(s, i), i, length - 1)
      else Finish(s[i := s[i].(state := DownMatched)], i + 1, length)
    else if s[i].key == TIMEOUT then Finish(s[i := s[i].(state := UpMatched)], i + 1, length)
    else Finish(Erase(s, i), i, length - 1)
  }

  // ---------------------------------------------------------------------------
  // forward_from_sequence

  /** The first event that is not settled, or the end. */
  function FirstUnsettled(s: KeySequence, i: nat): (r: nat)
    requires i <= |s|
    ensures i <= r <= |s|
    ensures forall j :: i <= j < r ==> s[j].state == DownMatched && !UpFollows(s, j)
    ensures r < |s| ==> !(s[r].state == DownMatched && !UpFollows(s, r))
    decreases |s| - i
  {
    if i < |s| && s[i].state == DownMatched && !UpFollows(s, i) then FirstUnsettled(s, i + 1) else i
  }

  function Forwarded(s: KeySequence): KeySequence {
    var i := FirstUnsettled(s, 0);
    if i == |s| then s
    else if s[i].IsPress() && !UpFollows(s, i) then s[i := s[i].(state := DownMatched)]
    else Erase(s, i)
  }

  // ---------------------------------------------------------------------------
  // apply_input and validate_state

  predicate IsRepeat(s: KeySequence, k: Key) {
    RFindKey(s, k) >= 0 && s[RFindKey(s, k)].state != Up
  }

  function Merged(s: KeySequence, event: KeyEvent): KeySequence {
    if event.state == Down && IsRepeat(s, event.key) then Erase(s, RFindKey(s, event.key)) else s
  }

  function AllMatched(s: KeySequence): (r: KeySequence)
    ensures |r| == |s|
    ensures forall i :: 0 <= i < |s| ==> r[i] == if s[i].state == Down then s[i].(state := DownMatched) else s[i]
  {
    seq(|s|, i requires 0 <= i < |s| => if s[i].state == Down then s[i].(state := DownMatched) else s[i])
  }

  function WithoutMatchedPress(s: KeySequence, k: Key): KeySequence {
    var i := FindKey(s, k);
    if i >= 0 && s[i].state == DownMatched then Erase(s, i) else s
  }

  /** Removes the events of device keys that are not down, from event `i` on. */
  function Validated(s: KeySequence, i: nat, isDown: Key -> bool): KeySequence
    requires i <= |s|
    decreases |s| - i
  {
    if i == |s| then s
    else if IsDeviceKey(s[i].key) && !isDown(s[i].key) then Validated(Erase(s, i), i, isDown)
    else Validated(s, i + 1, isDown)
  }

  function WithoutMatchedTimeouts(s: KeySequence): KeySequence {
    if s != [] && s[0].state == UpMatched then WithoutMatchedTimeouts(s[1..]) else s
  }

  /** Exactly the matched timeouts in front are removed. */
  lemma {:induction false} MatchedTimeoutsGone(s: KeySequence)
    ensures var r := WithoutMatchedTimeouts(s);
      var n := |s| - |r|;
      && 0 <= n && r == s[n..] && (forall i :: 0 <= i < n ==> s[i].state == UpMatched)
      && (r != [] ==> r[0].state != UpMatched)
    decreases |s|
  {
    if s != [] && s[0].state == UpMatched {
      MatchedTimeoutsGone(s[1..]);
    }
  }

  // ---------------------------------------------------------------------------
  // All of them keep the invariant

  /** Event `i` is erased: a press, or a release with no press of its key before. */
  lemma EraseKeeps(s: KeySequence, i: nat)
    requires SeqInv(s) && i < |s|
    requires s[i].state == Up ==> forall j :: 0 <= j < i && s[j].key == s[i].key ==> !s[j].IsPress()
    ensures SeqInv(Erase(s, i))
  {
    var r := Erase(s, i);
    assert forall j :: 0 <= j < |r| ==> r[j] == s[if j < i then j else j + 1];
    forall a, b | 0 <= a < b < |r| && r[a].key == r[b].key && r[a].IsPress() && r[b].IsPress()
      ensures Released(r, a, b)
    {
      var a', b' := if a < i then a else a + 1, if b < i then b else b + 1;
      assert Released(s, a', b');
      var m :| a' < m < b' && s[m].key == s[b'].key && s[m].state == Up;
      assert r[if m < i then m else m - 1] == s[m];
    }
  }

  /** A press becomes a matched press. */
  lemma MatchKeeps(s: KeySequence, i: nat)
    requires SeqInv(s) && i < |s| && s[i].IsPress()
    ensures SeqInv(s[i := s[i].(state := DownMatched)])
  {
    var r := s[i := s[i].(state := DownMatched)];
    forall a, b | 0 <= a < b < |r| && r[a].key == r[b].key && r[a].IsPress() && r[b].IsPress()
      ensures Released(r, a, b)
    {
      assert Released(s, a, b);
      var m :| a < m < b && s[m].key == s[b].key && s[m].state == Up;
      assert r[m] == s[m];
    }
  }

  /** A timeout becomes a matched timeout: no press of the timeout key before. */
  lemma TimeoutKeeps(s: KeySequence, i: nat)
    requires SeqInv(s) && i < |s| && s[i].key == TIMEOUT
    requires forall j :: 0 <= j <= i && s[j].key == TIMEOUT ==> !s[j].IsPress()
    ensures SeqInv(s[i := s[i].(state := UpMatched)])
  {
    var r := s[i := s[i].(state := UpMatched)];
    forall a, b | 0 <= a < b < |r| && r[a].key == r[b].key && r[a].IsPress() && r[b].IsPress()
      ensures Released(r, a, b)
    {
      assert Released(s, a, b);
      var m :| a < m < b && s[m].key == s[b].key && s[m].state == Up;
      assert r[m] == s[m];
    }
  }

  lemma SettledBefore(s: KeySequence, i: nat)
    requires SettledUpTo(s, i) && i < |s| && s[i].state in {Up, UpMatched} && SeqInv(s)
    ensures forall j :: 0 <= j < i && s[j].key == s[i].key ==> !s[j].IsPress()
  {
    forall j | 0 <= j < i && s[j].key == s[i].key && s[i].state == Up ensures !s[j].IsPress() {
      assert Settled(s, j) && UpFollows(s, j);
    }
  }

  lemma SettledErase(s: KeySequence, i: nat)
    requires SettledUpTo(s, i) && i < |s|
    ensures SettledUpTo(Erase(s, i), i)
  {
    var r := Erase(s, i);
    assert forall j :: 0 <= j < |r| ==> r[j] == s[if j < i then j else j + 1];
    forall j | 0 <= j < i ensures Settled(r, j) {
      assert Settled(s, j);
      forall m | j <= m < |r| && r[m].key == s[j].key && s[j].state == DownMatched ensures r[m].state != Up {
        assert s[if m < i then m else m + 1] == r[m];
      }
    }
  }

  lemma SettledUpdate(s: KeySequence, i: nat, state: KeyState)
    requires SettledUpTo(s, i) && i < |s|
    requires state == UpMatched || (state == DownMatched && !UpFollows(s, i))
    ensures SettledUpTo(s[i := s[i].(state := state)], i + 1)
  {
    var r := s[i := s[i].(state := state)];
    forall j | 0 <= j < i + 1 ensures Settled(r, j) {
      if j < i {
        assert Settled(s, j);
      }
      forall m | j <= m < |r| && r[m].key == s[j].key && r[j].state == DownMatched ensures r[m].state != Up {
        assert m != i ==> s[m] == r[m];
      }
    }
  }

  lemma {:induction false} FinishKeeps(s: KeySequence, i: nat, length: nat)
    requires SeqInv(s) && i <= length <= |s| && SettledUpTo(s, i)
    ensures SeqInv(Finish(s, i, length))
    decreases length - i
  {
    hide SeqInv, SettledUpTo, UpFollows;
    if i < length {
      SeqInvStates(s, i);
      if s[i].IsPress() && !UpFollows(s, i) {
        MatchKeeps(s, i);
        SettledUpdate(s, i, DownMatched);
        FinishKeeps(s[i := s[i].(state := DownMatched)], i + 1, length);
      } else if !s[i].IsPress() && s[i].key == TIMEOUT {
        SettledBefore(s, i);
        TimeoutKeeps(s, i);
        SettledUpdate(s, i, UpMatched);
        FinishKeeps(s[i := s[i].(state := UpMatched)], i + 1, length);
      } else {
        if s[i].state == Up {
          SettledBefore(s, i);
        }
        EraseKeeps(s, i);
        SettledErase(s, i);
        FinishKeeps(Erase(s, i), i, length - 1);
      }
    }
  }

  lemma SeqInvStates(s: KeySequence, i: nat)
    requires SeqInv(s) && i < |s|
    ensures s[i].state in {Down, DownMatched, Up, UpMatched}
    ensures s[i].key != NONE
  {
  }

  lemma ForwardKeeps(s: KeySequence)
    requires SeqInv(s)
    ensures SeqInv(Forwarded(s))
  {
    var i := FirstUnsettled(s, 0);
    if i < |s| {
      assert SettledUpTo(s, i);
      if s[i].IsPress() && !UpFollows(s, i) {
        MatchKeeps(s, i);
      } else {
        if s[i].state == Up {
          SettledBefore(s, i);
        }
        EraseKeeps(s, i);
      }
    }
  }

  /** An event is added: a release, or a press of a key that is not pressed. */
  lemma AppendKeeps(s: KeySequence, event: KeyEvent)
    requires SeqInv(s) && event.IsNonOptional() && event.key != NONE
    requires event.state == Down ==> forall i :: 0 <= i < |s| && s[i].key == event.key && s[i].IsPress() ==>
      exists m :: i < m < |s| && s[m].key == event.key && s[m].state == Up
    ensures SeqInv(s + [event])
  {
    var r := s + [event];
    forall a, b | 0 <= a < b < |r| && r[a].key == r[b].key && r[a].IsPress() && r[b].IsPress()
      ensures Released(r, a, b)
    {
      if b < |s| {
        assert Released(s, a, b);
        var m :| a < m < b && s[m].key == s[b].key && s[m].state == Up;
        assert r[m] == s[m];
      } else {
        assert s[a] == r[a];
        var m :| a < m < |s| && s[m].key == event.key && s[m].state == Up;
        assert r[m] == s[m];
      }
    }
  }

  /** A repeated press replaces the last one. */
  lemma RepeatKeeps(s: KeySequence, event: KeyEvent)
    requires SeqInv(s) && event.state == Down && event.key != NONE && IsRepeat(s, event.key)
    ensures SeqInv(Merged(s, event)) && SeqInv(Merged(s, event) + [event])
  {
    var k, r := event.key, RFindKey(s, event.key);
    EraseKeeps(s, r);
    var t := Erase(s, r);
    assert forall j :: 0 <= j < |t| ==> t[j] == s[if j < r then j else j + 1];
    forall i | 0 <= i < |t| && t[i].key == k && t[i].IsPress()
      ensures exists m :: i < m < |t| && t[m].key == k && t[m].state == Up
    {
      assert i < r && s[i] == t[i];
      LastIsReleased(s, i, r);
      var m :| i < m < r && s[m].key == k && s[m].state == Up;
      assert t[m] == s[m];
    }
    hide SeqInv;
    AppendKeeps(t, event);
  }

  lemma LastIsReleased(s: KeySequence, i: nat, r: nat)
    requires SeqInv(s) && i < r < |s| && s[i].key == s[r].key && s[i].IsPress() && s[r].state != Up
    ensures exists m :: i < m < r && s[m].key == s[r].key && s[m].state == Up
  {
    assert Released(s, i, r);
  }

  lemma InputKeeps(s: KeySequence, event: KeyEvent)
    requires SeqInv(s) && event.IsNonOptional() && event.key != NONE
    ensures SeqInv(Merged(s, event)) && SeqInv(Merged(s, event) + [event])
  {
    var r := RFindKey(s, event.key);
    if event.state == Down && IsRepeat(s, event.key) {
      RepeatKeeps(s, event);
    } else {
      hide SeqInv;
      forall i | event.state == Down && 0 <= i < |s| && s[i].key == event.key && s[i].IsPress()
        ensures exists m :: i < m < |s| && s[m].key == event.key && s[m].state == Up
      {
        assert s[r].state == Up && i < r;
      }
      AppendKeeps(s, event);
    }
  }

  lemma AllMatchedKeeps(s: KeySequence)
    requires SeqInv(s)
    ensures SeqInv(AllMatched(s))
  {
    var r := AllMatched(s);
    forall a, b | 0 <= a < b < |r| && r[a].key == r[b].key && r[a].IsPress() && r[b].IsPress()
      ensures Released(r, a, b)
    {
      assert Released(s, a, b);
      var m :| a < m < b && s[m].key == s[b].key && s[m].state == Up;
      assert r[m] == s[m];
    }
  }

  lemma WithoutMatchedPressKeeps(s: KeySequence, k: Key)
    requires SeqInv(s)
    ensures SeqInv(WithoutMatchedPress(s, k))
  {
    var i := FindKey(s, k);
    if i >= 0 && s[i].state == DownMatched {
      EraseKeeps(s, i);
    }
  }

  lemma {:induction false} ValidatedKeeps(s: KeySequence, i: nat, isDown: Key -> bool)
    requires SeqInv(s) && i <= |s|
    requires forall j :: 0 <= j < i ==> !(IsDeviceKey(s[j].key) && !isDown(s[j].key))
    ensures SeqInv(Validated(s, i, isDown))
    ensures forall j :: 0 <= j < |Validated(s, i, isDown)| ==>
      var k := Validated(s, i, isDown)[j].key; IsDeviceKey(k) ==> isDown(k)
    decreases |s| - i
  {
    hide SeqInv;
    if i < |s| {
      if IsDeviceKey(s[i].key) && !isDown(s[i].key) {
        EraseKeeps(s, i);
        ValidatedKeeps(Erase(s, i), i, isDown);
      } else {
        ValidatedKeeps(s, i + 1, isDown);
      }
    }
  }

  lemma {:induction false} WithoutMatchedTimeoutsKeeps(s: KeySequence)
    requires SeqInv(s)
    ensures SeqInv(WithoutMatchedTimeouts(s))
    decreases |s|
  {
    if s != [] && s[0].state == UpMatched {
      EraseKeeps(s, 0);
      assert Erase(s, 0) == s[1..];
      WithoutMatchedTimeoutsKeeps(s[1..]);
    }
  }

  // ---------------------------------------------------------------------------
  // All input is processed: the measure of the loop in apply_input

  function EventWeight(event: KeyEvent): nat { if event.IsNonOptional() then 2 else 1 }

  /** The number of events plus the number of Up and Down events. */
  function Weight(s: KeySequence): nat {
    if s == [] then 0 else EventWeight(s[0]) + Weight(s[1..])
  }

  lemma {:induction false} WeightSplit(s: KeySequence, i: nat)
    requires i < |s|
    ensures Weight(s) == Weight(s[..i]) + EventWeight(s[i]) + Weight(s[i + 1..])
  {
    if i == 0 {
      assert s[..0] == [];
    } else {
      WeightSplit(s[1..], i - 1);
      assert s[1..][..i - 1] == s[..i][1..];
      assert s[1..][i..] == s[i + 1..];
    }
  }

  lemma {:induction false} WeightSum(a: KeySequence, b: KeySequence)
    ensures Weight(a + b) == Weight(a) + Weight(b)
  {
    if a == [] {
      assert a + b == b;
    } else {
      assert (a + b)[1..] == a[1..] + b;
      WeightSum(a[1..], b);
    }
  }

  lemma WeightErase(s: KeySequence, i: nat)
    requires i < |s|
    ensures Weight(Erase(s, i)) == Weight(s) - EventWeight(s[i])
  {
    WeightSplit(s, i);
    WeightSum(s[..i], s[i + 1..]);
  }

  lemma WeightUpdate(s: KeySequence, i: nat, event: KeyEvent)
    requires i < |s|
    ensures Weight(s[i := event]) == Weight(s) - EventWeight(s[i]) + EventWeight(event)
  {
    var r := s[i := event];
    WeightSplit(s, i);
    WeightSplit(r, i);
    assert r[..i] == s[..i] && r[i + 1..] == s[i + 1..];
  }

  /** Finishing a prefix which holds an Up or Down event makes progress. */
  lemma {:induction false} FinishProgress(s: KeySequence, i: nat, length: nat)
    requires SeqInv(s) && i <= length <= |s| && SettledUpTo(s, i)
    ensures Weight(Finish(s, i, length)) <= Weight(s)
    ensures (exists j :: i <= j < length && s[j].IsNonOptional()) ==> Weight(Finish(s, i, length)) < Weight(s)
    decreases length - i
  {
    hide SeqInv, SettledUpTo, UpFollows, Weight;
    if i < length {
      SeqInvStates(s, i);
      if s[i].IsPress() && !UpFollows(s, i) {
        MatchKeeps(s, i);
        SettledUpdate(s, i, DownMatched);
        var r := s[i := s[i].(state := DownMatched)];
        WeightUpdate(s, i, s[i].(state := DownMatched));
        FinishProgress(r, i + 1, length);
        if j :| i < j < length && s[j].IsNonOptional() {
          assert r[j] == s[j];
        }
      } else if !s[i].IsPress() && s[i].key == TIMEOUT {
        SettledBefore(s, i);
        TimeoutKeeps(s, i);
        SettledUpdate(s, i, UpMatched);
        var r := s[i := s[i].(state := UpMatched)];
        WeightUpdate(s, i, s[i].(state := UpMatched));
        FinishProgress(r, i + 1, length);
        if j :| i < j < length && s[j].IsNonOptional() {
          assert r[j] == s[j];
        }
      } else {
        if s[i].state == Up {
          SettledBefore(s, i);
        }
        EraseKeeps(s, i);
        SettledErase(s, i);
        WeightErase(s, i);
        FinishProgress(Erase(s, i), i, length - 1);
      }
    }
  }

  /** Forwarding always makes progress when there is an Up or Down event. */
  lemma ForwardProgress(s: KeySequence)
    requires SeqInv(s) && HasNonOptional(s)
    ensures Weight(Forwarded(s)) < Weight(s)
  {
    hide Weight;
    var i := FirstUnsettled(s, 0);
    var j :| 0 <= j < |s| && s[j].IsNonOptional();
    assert i <= j;
    if s[i].IsPress() && !UpFollows(s, i) {
      WeightUpdate(s, i, s[i].(state := DownMatched));
    } else {
      WeightErase(s, i);
    }
  }

  /** Finishing a whole sequence leaves nothing to process. */
  lemma {:induction false} FinishedAll(s: KeySequence, i: nat, length: nat)
    requires i <= length <= |s|
    requires forall j :: 0 <= j < i ==> !s[j].IsNonOptional()
    requires forall j :: length <= j < |s| ==> !s[j].IsNonOptional()
    ensures !HasNonOptional(Finish(s, i, length))
    decreases length - i
  {
    if i < length {
      if s[i].IsPress() && !UpFollows(s, i) {
        FinishedAll(s[i := s[i].(state := DownMatched)], i + 1, length);
      } else if !s[i].IsPress() && s[i].key == TIMEOUT {
        FinishedAll(s[i := s[i].(state := UpMatched)], i + 1, length);
      } else {
        var r := Erase(s, i);
        assert forall j :: 0 <= j < |r| ==> r[j] == s[if j < i then j else j + 1];
        FinishedAll(r, i, length - 1);
      }
    }
  }
}
