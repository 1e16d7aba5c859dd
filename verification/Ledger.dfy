/** Over every run of a stage no key gets stuck: a key whose last emitted event
    is a press is held by exactly one entry of the ledger, which releases it. */
module LedgerTheorems {
  import opened Keys
  import opened Outputs

  /** The key's last event is a press. */
  predicate IsDown(events: KeySequence, k: Key) {
    var i := RFindKey(events, k);
    i >= 0 && events[i].state == Down
  }

  predicate Unique(down: seq<OutputDown>) {
    forall i, j :: 0 <= i < j < |down| ==> down[i].key != down[j].key
  }

  predicate Holds(down: seq<OutputDown>, k: Key) {
    exists i :: 0 <= i < |down| && down[i].key == k && !down[i].temporarilyReleased
  }

  predicate Tracked(down: seq<OutputDown>, events: KeySequence, k: Key) {
    k == TIMEOUT || (IsDown(events, k) ==> Holds(down, k))
  }

  /** `sent` are the events which were handed out before. */
  ghost predicate Inv(l: Ledger, sent: KeySequence) {
    && Unique(l.down)
    && forall k: Key :: Tracked(l.down, sent + l.buffer, k)
  }

  /** A release of `k` cannot erase a release that was emitted before. */
  predicate UpSafe(l: Ledger, k: Key) {
    var it := FindDown(l.down, k);
    it >= 0 && k != TIMEOUT ==>
      var entry := l.down[it];
      !entry.temporarilyReleased || entry.suppressed || !entry.pressedTwice || IsVirtualKey(k)
  }

  // ---------------------------------------------------------------------------
  // Last events

  lemma RFindUnique(s: KeySequence, k: Key, i: int)
    requires -1 <= i < |s| && (i >= 0 ==> s[i].key == k)
    requires forall j :: i < j < |s| ==> s[j].key != k
    ensures RFindKey(s, k) == i
  {
  }

  lemma IsDownEmit(s: KeySequence, buffer: KeySequence, event: KeyEvent, k: Key)
    ensures IsDown(s + (buffer + [event]), k) == if event.key == k then event.state == Down else IsDown(s + buffer, k)
  {
    var before, after := s + buffer, s + (buffer + [event]);
    assert after == before + [event];
    if event.key == k {
      RFindUnique(after, k, |before|);
    } else {
      RFindUnique(after, k, RFindKey(before, k));
    }
  }

  lemma IsDownErase(s: KeySequence, buffer: KeySequence, i: nat, k: Key)
    requires i < |buffer| && buffer[i].key != k
    ensures IsDown(s + Erase(buffer, i), k) == IsDown(s + buffer, k)
  {
    var before, after, n := s + buffer, s + Erase(buffer, i), |s| + i;
    assert forall j :: 0 <= j < |after| ==> after[j] == before[if j < n then j else j + 1];
    var r := RFindKey(before, k);
    RFindUnique(after, k, if r < n then r else r - 1);
  }

  lemma IsDownPop(s: KeySequence, buffer: KeySequence, k: Key)
    requires buffer != [] && buffer[|buffer| - 1].key != k
    ensures IsDown(s + buffer[..|buffer| - 1], k) == IsDown(s + buffer, k)
  {
    IsDownErase(s, buffer, |buffer| - 1, k);
    assert Erase(buffer, |buffer| - 1) == buffer[..|buffer| - 1];
  }

  // ---------------------------------------------------------------------------
  // Changing one entry

  lemma FindUnique(down: seq<OutputDown>, i: nat)
    requires Unique(down) && i < |down|
    ensures FindDown(down, down[i].key) == i
  {
  }

  /** Entry `i` changes, and so do only events of its key. */
  lemma SetKeeps(l: Ledger, i: nat, entry: OutputDown, buffer: KeySequence, sent: KeySequence)
    requires Inv(l, sent) && i < |l.down| && entry.key == l.down[i].key
    requires forall k: Key :: k != entry.key ==> IsDown(sent + buffer, k) == IsDown(sent + l.buffer, k)
    requires entry.key == TIMEOUT || !IsDown(sent + buffer, entry.key) || !entry.temporarilyReleased
    ensures Inv(l.(down := l.down[i := entry], buffer := buffer), sent)
  {
    var down := l.down[i := entry];
    forall k: Key ensures Tracked(down, sent + buffer, k) {
      assert Tracked(l.down, sent + l.buffer, k);
      if k == entry.key {
        assert !entry.temporarilyReleased ==> down[i].key == k && !down[i].temporarilyReleased;
      } else if Holds(l.down, k) {
        var j :| 0 <= j < |l.down| && l.down[j].key == k && !l.down[j].temporarilyReleased;
        assert down[j] == l.down[j];
      }
    }
  }

  lemma EmitForEntry(l: Ledger, i: nat, entry: OutputDown, event: KeyEvent, sent: KeySequence)
    requires Inv(l, sent) && i < |l.down| && entry.key == l.down[i].key == event.key
    requires event.state == Down ==> !entry.temporarilyReleased
    ensures Inv(l.Set(i, entry).Emit(event), sent)
  {
    forall k: Key ensures IsDown(sent + (l.buffer + [event]), k)
      == if event.key == k then event.state == Down else IsDown(sent + l.buffer, k)
    {
      IsDownEmit(sent, l.buffer, event, k);
    }
    SetKeeps(l, i, entry, l.buffer + [event], sent);
  }

  /** The last event of the entry's key is erased; the entry is not released. */
  lemma EraseForEntry(l: Ledger, i: nat, entry: OutputDown, n: nat, sent: KeySequence)
    requires Inv(l, sent) && i < |l.down| && entry.key == l.down[i].key
    requires n < |l.buffer| && l.buffer[n].key == entry.key
    requires entry.key == TIMEOUT || !entry.temporarilyReleased
    ensures Inv(l.(buffer := Erase(l.buffer, n)).Set(i, entry), sent)
  {
    forall k: Key | k != entry.key ensures IsDown(sent + Erase(l.buffer, n), k) == IsDown(sent + l.buffer, k) {
      IsDownErase(sent, l.buffer, n, k);
    }
    SetKeeps(l, i, entry, Erase(l.buffer, n), sent);
  }

  /** An entry is removed and its key released. */
  lemma RemoveEntry(l: Ledger, i: nat, event: KeyEvent, sent: KeySequence)
    requires Inv(l, sent) && i < |l.down| && event.key == l.down[i].key && event.state != Down
    ensures Inv(l.(down := Erase(l.down, i)).Emit(event), sent)
  {
    var down := Erase(l.down, i);
    forall k: Key ensures Tracked(down, sent + (l.buffer + [event]), k) {
      IsDownEmit(sent, l.buffer, event, k);
      assert Tracked(l.down, sent + l.buffer, k);
      if k != event.key && Holds(l.down, k) {
        var j :| 0 <= j < |l.down| && l.down[j].key == k && !l.down[j].temporarilyReleased;
        assert down[if j < i then j else j - 1] == l.down[j];
      }
    }
    assert forall j :: 0 <= j < |down| ==> down[j] == l.down[if j < i then j else j + 1];
  }

  // ---------------------------------------------------------------------------
  // Updates keep the invariant

  /** A release may be processed: it is safe, or there is nothing to erase. */
  predicate MayRelease(l: Ledger, k: Key) { UpSafe(l, k) || RFindKey(l.buffer, k) < 0 }

  lemma UpKeeps(l: Ledger, sent: KeySequence, event: KeyEvent, trigger: Trigger)
    requires Inv(l, sent) && event.state == Up && MayRelease(l, event.key)
    ensures Inv(UpdateUp(l, event, trigger), sent)
  {
    var it := FindDown(l.down, event.key);
    if it >= 0 {
      var entry := l.down[it];
      if entry.pressedTwice && IsVirtualKey(event.key) {
        EmitForEntry(l, it, entry.(pressedTwice := false), event, sent);
      } else if entry.pressedTwice && !entry.suppressed {
        var it2 := RFindKey(l.buffer, event.key);
        if it2 >= 0 {
          EraseForEntry(l, it, entry.(pressedTwice := false), it2, sent);
        } else {
          FlagKeeps(l, it, entry.(pressedTwice := false), sent);
        }
      } else if TriggerKey(entry.trigger) == TriggerKey(trigger) {
        RemoveEntry(l, it, event, sent);
      } else {
        EmitForEntry(l, it, entry.(temporarilyReleased := true), event, sent);
      }
    }
  }

  /** A change of the flags other than "temporarily released". */
  lemma FlagKeeps(l: Ledger, i: nat, entry: OutputDown, sent: KeySequence)
    requires Inv(l, sent) && i < |l.down| && entry.key == l.down[i].key
    requires entry.temporarilyReleased == l.down[i].temporarilyReleased
    ensures Inv(l.Set(i, entry), sent)
  {
    assert Tracked(l.down, sent + l.buffer, entry.key);
    if Holds(l.down, entry.key) {
      assert !l.down[i].temporarilyReleased;
    }
    SetKeeps(l, i, entry, l.buffer, sent);
  }

  lemma NotKeeps(l: Ledger, sent: KeySequence, k: Key)
    requires Inv(l, sent)
    ensures Inv(UpdateNot(l, k), sent)
  {
    var it := FindDown(l.down, k);
    if it >= 0 {
      var entry := l.down[it].(temporarilyReleased := true, suppressed := true);
      if l.down[it].temporarilyReleased {
        FlagKeeps(l, it, entry, sent);
      } else {
        EmitForEntry(l, it, entry, Release(k), sent);
        assert l.Emit(Release(k)).Set(it, entry) == l.Set(it, entry).Emit(Release(k));
      }
    }
  }

  lemma {:induction false} ReapplyKeeps(l: Ledger, sent: KeySequence, k: Key, i: nat)
    requires Inv(l, sent)
    ensures Inv(Reapply(l, k, i).0, sent)
    decreases |l.down| - i
  {
    if i < |l.down| {
      var entry := l.down[i];
      var n := |l.buffer|;
      if entry.temporarilyReleased && !entry.suppressed {
        EmitForEntry(l, i, entry.(temporarilyReleased := false), Press(entry.key), sent);
        var next := l.Set(i, entry.(temporarilyReleased := false)).Emit(Press(entry.key)).(reapplied := true);
        assert Inv(next, sent);
        if entry.key != k {
          ReapplyKeeps(next, sent, k, i + 1);
        }
      } else if entry.temporarilyReleased && entry.key == k && IsCommonModifier(k)
                && n > 0 && l.buffer[n - 1].Same(Release(k)) {
        EraseForEntry(l, i, entry.(temporarilyReleased := false), n - 1, sent);
        assert Erase(l.buffer, n - 1) == l.buffer[..n - 1];
      } else {
        ReapplyKeeps(l, sent, k, i + 1);
      }
    }
  }

  lemma PressKeeps(l: Ledger, sent: KeySequence, event: KeyEvent, trigger: Trigger, contextIndex: int)
    requires Inv(l, sent) && event.state == Down
    ensures Inv(PressKey(l, event, trigger, contextIndex), sent)
  {
    var it := FindDown(l.down, event.key);
    if it < 0 {
      NewEntryKeeps(l, sent, event, trigger, contextIndex);
    } else {
      var entry := l.down[it].(temporarilyReleased := false, pressedTwice := !l.reapplied);
      if l.reapplied {
        EmitForEntry(l, it, entry, Release(event.key), sent);
        var released := l.Set(it, entry).Emit(Release(event.key));
        EmitForEntry(released, it, entry, event, sent);
        assert released.Set(it, entry) == released;
      } else {
        EmitForEntry(l, it, entry, event, sent);
      }
    }
  }

  lemma NewEntryKeeps(l: Ledger, sent: KeySequence, event: KeyEvent, trigger: Trigger, contextIndex: int)
    requires Inv(l, sent) && event.state == Down && FindDown(l.down, event.key) < 0
    ensures Inv(PressKey(l, event, trigger, contextIndex), sent)
  {
    var next := PressKey(l, event, trigger, contextIndex);
    forall k: Key ensures Tracked(next.down, sent + next.buffer, k) {
      IsDownEmit(sent, l.buffer, event, k);
      assert Tracked(l.down, sent + l.buffer, k);
      if k == event.key && k != TIMEOUT {
        assert next.down[|l.down|].key == k;
      } else if Holds(l.down, k) {
        var j :| 0 <= j < |l.down| && l.down[j].key == k && !l.down[j].temporarilyReleased;
        assert next.down[j] == l.down[j];
      }
    }
  }

  lemma UpdateKeeps(l: Ledger, sent: KeySequence, event: KeyEvent, trigger: Trigger, contextIndex: int)
    requires IsOutputState(event.state) && Inv(l, sent)
    requires event.state == Up ==> MayRelease(l, event.key)
    ensures Inv(Update(l, event, trigger, contextIndex), sent)
  {
    hide Inv, UpdateUp, UpdateNot, Reapply, PressKey;
    match event.state
    case Up => UpKeeps(l, sent, event, trigger);
    case Not => NotKeeps(l, sent, event.key);
    case Down =>
      ReapplyKeeps(l, sent, event.key, 0);
      PressKeeps(Reapply(l, event.key, 0).0, sent, event, trigger, contextIndex);
    case _ =>
  }

  // ---------------------------------------------------------------------------
  // Which releases may be processed

  lemma FindAfterSet(down: seq<OutputDown>, i: nat, entry: OutputDown, k: Key)
    requires i < |down| && entry.key == down[i].key
    ensures FindDown(down[i := entry], k) == FindDown(down, k)
  {
    var after := down[i := entry];
    var r, q := FindDown(down, k), FindDown(after, k);
    assert forall j :: 0 <= j < |down| ==> after[j].key == down[j].key;
    assert r >= 0 ==> after[r].key == k;
    assert q >= 0 ==> down[q].key == k;
  }

  lemma FindAfterErase(down: seq<OutputDown>, i: nat, k: Key)
    requires Unique(down) && i < |down|
    ensures Unique(Erase(down, i))
    ensures k == down[i].key ==> FindDown(Erase(down, i), k) < 0
    ensures k != down[i].key ==>
      var r := FindDown(Erase(down, i), k);
      && (r < 0 <==> FindDown(down, k) < 0)
      && (r >= 0 ==> Erase(down, i)[r] == down[FindDown(down, k)])
  {
    var after := Erase(down, i);
    assert forall j :: 0 <= j < |after| ==> after[j] == down[if j < i then j else j + 1];
    var r := FindDown(down, k);
    if r >= 0 && k != down[i].key {
      assert after[if r < i then r else r - 1] == down[r];
    }
  }

  lemma EmitsOther(buffer: KeySequence, event: KeyEvent, k: Key)
    requires event.key != k
    ensures RFindKey(buffer + [event], k) == RFindKey(buffer, k)
  {
    RFindUnique(buffer + [event], k, RFindKey(buffer, k));
  }

  lemma ErasedFewer(buffer: KeySequence, i: nat, k: Key)
    requires i < |buffer|
    ensures RFindKey(buffer, k) < 0 ==> RFindKey(Erase(buffer, i), k) < 0
  {
    var after := Erase(buffer, i);
    assert forall j :: 0 <= j < |after| ==> after[j] == buffer[if j < i then j else j + 1];
  }

  predicate SafeEntry(entry: OutputDown) {
    || entry.key == TIMEOUT || !entry.temporarilyReleased || entry.suppressed || !entry.pressedTwice
    || IsVirtualKey(entry.key)
  }

  /** Entry `i` and the buffer change. */
  lemma SetMayRelease(l: Ledger, i: nat, entry: OutputDown, buffer: KeySequence, k: Key)
    requires Unique(l.down) && MayRelease(l, k) && i < |l.down| && entry.key == l.down[i].key
    requires k == entry.key ==> SafeEntry(entry)
    requires k != entry.key && RFindKey(l.buffer, k) < 0 ==> RFindKey(buffer, k) < 0
    ensures var next := l.(down := l.down[i := entry], buffer := buffer);
      Unique(next.down) && MayRelease(next, k) && FindDown(next.down, entry.key) == i
  {
    FindUnique(l.down, i);
    FindAfterSet(l.down, i, entry, k);
    FindAfterSet(l.down, i, entry, entry.key);
  }

  lemma UpKeepsMayRelease(l: Ledger, event: KeyEvent, trigger: Trigger, k: Key)
    requires Unique(l.down) && MayRelease(l, k) && event.state == Up
    ensures Unique(UpdateUp(l, event, trigger).down) && MayRelease(UpdateUp(l, event, trigger), k)
  {
    hide MayRelease, TriggerKey, Unique;
    var it := FindDown(l.down, event.key);
    if it >= 0 {
      var entry := l.down[it];
      if event.key != k {
        EmitsOther(l.buffer, event, k);
      }
      if entry.pressedTwice && IsVirtualKey(event.key) {
        SetMayRelease(l, it, entry.(pressedTwice := false), l.buffer + [event], k);
      } else if entry.pressedTwice && !entry.suppressed {
        UndoMayRelease(l, it, k);
      } else if TriggerKey(entry.trigger) == TriggerKey(trigger) {
        EraseMayRelease(l, it, event, k);
      } else {
        SetMayRelease(l, it, entry.(temporarilyReleased := true), l.buffer + [event], k);
      }
    }
  }

  /** The last press of an entry is undone. */
  lemma UndoMayRelease(l: Ledger, i: nat, k: Key)
    requires Unique(l.down) && MayRelease(l, k) && i < |l.down|
    ensures var it := RFindKey(l.buffer, l.down[i].key);
      var erased := if it >= 0 then l.(buffer := Erase(l.buffer, it)) else l;
      var next := erased.Set(i, l.down[i].(pressedTwice := false));
      Unique(next.down) && MayRelease(next, k)
  {
    hide MayRelease, Unique, Erase;
    var it := RFindKey(l.buffer, l.down[i].key);
    if it >= 0 {
      ErasedFewer(l.buffer, it, k);
    }
    SetMayRelease(l, i, l.down[i].(pressedTwice := false), if it >= 0 then Erase(l.buffer, it) else l.buffer, k);
  }

  lemma EraseMayRelease(l: Ledger, i: nat, event: KeyEvent, k: Key)
    requires Unique(l.down) && MayRelease(l, k) && i < |l.down| && event.key == l.down[i].key
    ensures var next := l.(down := Erase(l.down, i)).Emit(event);
      Unique(next.down) && MayRelease(next, k)
  {
    FindUnique(l.down, i);
    FindAfterErase(l.down, i, k);
    if event.key != k {
      EmitsOther(l.buffer, event, k);
    }
  }

  lemma NotKeepsMayRelease(l: Ledger, j: Key, k: Key)
    requires Unique(l.down) && MayRelease(l, k)
    ensures Unique(UpdateNot(l, j).down) && MayRelease(UpdateNot(l, j), k)
  {
    hide MayRelease;
    var it := FindDown(l.down, j);
    if it >= 0 {
      if j != k {
        EmitsOther(l.buffer, Release(j), k);
      }
      var entry := l.down[it].(temporarilyReleased := true, suppressed := true);
      SetMayRelease(l, it, entry, if l.down[it].temporarilyReleased then l.buffer else l.buffer + [Release(j)], k);
    }
  }

  lemma OneReapplied(l: Ledger, i: nat, k: Key)
    requires Unique(l.down) && MayRelease(l, k) && i < |l.down|
    ensures var entry := l.down[i].(temporarilyReleased := false);
      var next := l.Set(i, entry).Emit(Press(entry.key)).(reapplied := true);
      Unique(next.down) && MayRelease(next, k) && FindDown(next.down, entry.key) == i
  {
    hide MayRelease;
    var entry := l.down[i].(temporarilyReleased := false);
    if entry.key != k {
      EmitsOther(l.buffer, Press(entry.key), k);
    }
    SetMayRelease(l, i, entry, l.buffer + [Press(entry.key)], k);
    FlagMayRelease(l.Set(i, entry).Emit(Press(entry.key)), k);
    FindUnique(l.Set(i, entry).down, i);
  }

  lemma {:induction false} ReapplyKeepsMayRelease(l: Ledger, j: Key, i: nat, k: Key)
    requires Unique(l.down) && MayRelease(l, k)
    ensures var (next, done) := Reapply(l, j, i);
      && Unique(next.down) && MayRelease(next, k)
      && (done ==> FindDown(next.down, j) >= 0 && !next.down[FindDown(next.down, j)].temporarilyReleased)
    decreases |l.down| - i
  {
    hide MayRelease;
    if i < |l.down| {
      var entry := l.down[i];
      var n := |l.buffer|;
      var reset := entry.(temporarilyReleased := false);
      if entry.temporarilyReleased && !entry.suppressed {
        OneReapplied(l, i, k);
        if entry.key != j {
          ReapplyKeepsMayRelease(l.Set(i, reset).Emit(Press(entry.key)).(reapplied := true), j, i + 1, k);
        }
      } else if entry.temporarilyReleased && entry.key == j && IsCommonModifier(j)
                && n > 0 && l.buffer[n - 1].Same(Release(j)) {
        ErasedFewer(l.buffer, n - 1, k);
        assert Erase(l.buffer, n - 1) == l.buffer[..n - 1];
        SetMayRelease(l, i, reset, l.buffer[..n - 1], k);
      } else {
        ReapplyKeepsMayRelease(l, j, i + 1, k);
      }
    }
  }

  lemma FlagMayRelease(l: Ledger, k: Key)
    requires MayRelease(l, k)
    ensures MayRelease(l.(reapplied := true), k)
  {
  }

  lemma PressKeepsMayRelease(l: Ledger, event: KeyEvent, trigger: Trigger, contextIndex: int, k: Key)
    requires Unique(l.down) && MayRelease(l, k) && event.state == Down
    ensures Unique(PressKey(l, event, trigger, contextIndex).down)
    ensures MayRelease(PressKey(l, event, trigger, contextIndex), k)
    ensures UpSafe(PressKey(l, event, trigger, contextIndex), event.key)
  {
    hide MayRelease;
    var it := FindDown(l.down, event.key);
    if event.key != k {
      EmitsOther(l.buffer, event, k);
      EmitsOther(l.buffer, Release(event.key), k);
      EmitsOther(l.buffer + [Release(event.key)], event, k);
    }
    if it >= 0 {
      var entry := l.down[it].(temporarilyReleased := false, pressedTwice := !l.reapplied);
      SetMayRelease(l, it, entry, if l.reapplied then l.buffer + [Release(event.key)] + [event] else l.buffer + [event], k);
    } else {
      NewEntryMayRelease(l, event, trigger, contextIndex, k);
    }
  }

  lemma NewEntryMayRelease(l: Ledger, event: KeyEvent, trigger: Trigger, contextIndex: int, k: Key)
    requires Unique(l.down) && MayRelease(l, k) && event.state == Down && FindDown(l.down, event.key) < 0
    ensures var next := PressKey(l, event, trigger, contextIndex);
      Unique(next.down) && MayRelease(next, k) && UpSafe(next, event.key)
  {
    var entry := OutputDown(event.key, trigger, false, false, false, contextIndex);
    var next := PressKey(l, event, trigger, contextIndex);
    FindAfterAppend(l.down, entry, k);
    FindAfterAppend(l.down, entry, event.key);
    UniqueAppend(l.down, entry);
    if event.key != k {
      EmitsOther(l.buffer, event, k);
    }
    hide Unique, FindDown, RFindKey, IsVirtualKey;
    assert next.down == (if event.key == TIMEOUT then l.down else l.down + [entry]);
  }

  lemma UniqueAppend(down: seq<OutputDown>, entry: OutputDown)
    requires Unique(down) && FindDown(down, entry.key) < 0
    ensures Unique(down + [entry])
  {
  }

  lemma FindAfterAppend(down: seq<OutputDown>, entry: OutputDown, k: Key)
    requires FindDown(down, entry.key) < 0
    ensures FindDown(down + [entry], k) == if k == entry.key then |down| else FindDown(down, k)
  {
    var after := down + [entry];
    var r := FindDown(down, k);
    assert forall j :: 0 <= j < |down| ==> after[j] == down[j];
    assert after[|down|] == entry;
  }

  /** Processing any event keeps the releases that may follow, and a press
      makes the release of its key one of them. */
  lemma UpdateKeepsMayRelease(l: Ledger, event: KeyEvent, trigger: Trigger, contextIndex: int, k: Key)
    requires IsOutputState(event.state) && Unique(l.down) && MayRelease(l, k)
    ensures var next := Update(l, event, trigger, contextIndex);
      && Unique(next.down) && MayRelease(next, k)
  {
    hide UpdateUp, UpdateNot, Reapply, PressKey, MayRelease;
    match event.state
    case Up => UpKeepsMayRelease(l, event, trigger, k);
    case Not => NotKeepsMayRelease(l, event.key, k);
    case Down =>
      ReapplyKeepsMayRelease(l, event.key, 0, k);
      PressKeepsMayRelease(Reapply(l, event.key, 0).0, event, trigger, contextIndex, k);
    case _ =>
  }

  lemma PressIsSafe(l: Ledger, event: KeyEvent, trigger: Trigger, contextIndex: int)
    requires Unique(l.down) && event.state == Down
    ensures UpSafe(Update(l, event, trigger, contextIndex), event.key)
  {
    hide Reapply, PressKey;
    var other: Key := FIRST_VIRTUAL;
    ReapplyKeepsMayRelease(l, event.key, 0, other);
    PressKeepsMayRelease(Reapply(l, event.key, 0).0, event, trigger, contextIndex, other);
  }

  // ---------------------------------------------------------------------------
  // Outputs keep the invariant

  /** The keys a release in an output is about. */
  function Addressed(event: KeyEvent, env: Environment): seq<Key> {
    if event.key == ANY then env.anyKeys else [event.key]
  }

  /** Every release in the rest of an output may be processed when its turn
      comes: its key was pressed in the output, or it may be processed now. */
  ghost predicate Releasable(l: Ledger, s: KeySequence, env: Environment) {
    forall i, k: Key :: 0 <= i < |s| && s[i].state == Up && k in Addressed(s[i], env) ==>
      PressedIn(s, 0, i, s[i].key) || MayRelease(l, k)
  }

  lemma {:induction false} AllKeeps(l: Ledger, sent: KeySequence, keys: seq<Key>, state: KeyState,
                                    trigger: Trigger, contextIndex: int)
    requires IsOutputState(state) && Inv(l, sent)
    requires state == Up ==> forall k :: k in keys ==> MayRelease(l, k)
    ensures Inv(UpdateAll(l, keys, state, trigger, contextIndex), sent)
    decreases |keys|
  {
    hide Update, Inv, MayRelease;
    if keys != [] {
      var event := KeyEvent(keys[0], state, 0);
      UpdateKeeps(l, sent, event, trigger, contextIndex);
      InvUnique(l, sent);
      forall k: Key | MayRelease(l, k) ensures MayRelease(Update(l, event, trigger, contextIndex), k) {
        UpdateKeepsMayRelease(l, event, trigger, contextIndex, k);
      }
      AllKeeps(Update(l, event, trigger, contextIndex), sent, keys[1..], state, trigger, contextIndex);
    }
  }

  lemma InvUnique(l: Ledger, sent: KeySequence)
    requires Inv(l, sent)
    ensures Unique(l.down)
  {
  }

  lemma {:induction false} AllKeepsMayRelease(l: Ledger, keys: seq<Key>, state: KeyState,
                                              trigger: Trigger, contextIndex: int, k: Key)
    requires IsOutputState(state) && Unique(l.down)
    requires MayRelease(l, k) || (state == Down && k in keys)
    ensures var next := UpdateAll(l, keys, state, trigger, contextIndex);
      Unique(next.down) && MayRelease(next, k)
    decreases |keys|
  {
    hide Update, MayRelease;
    if keys != [] {
      var event := KeyEvent(keys[0], state, 0);
      var next := Update(l, event, trigger, contextIndex);
      UpdateKeepsUnique(l, event, trigger, contextIndex);
      if MayRelease(l, k) {
        UpdateKeepsMayRelease(l, event, trigger, contextIndex, k);
      } else if keys[0] == k {
        PressIsSafe(l, event, trigger, contextIndex);
        SafeMayRelease(next, k);
      }
      AllKeepsMayRelease(next, keys[1..], state, trigger, contextIndex, k);
    }
  }

  lemma SafeMayRelease(l: Ledger, k: Key)
    requires UpSafe(l, k)
    ensures MayRelease(l, k)
  {
  }

  lemma VirtualMayRelease(l: Ledger, k: Key)
    requires IsVirtualKey(k)
    ensures MayRelease(l, k)
  {
  }

  lemma UpdateKeepsUnique(l: Ledger, event: KeyEvent, trigger: Trigger, contextIndex: int)
    requires IsOutputState(event.state) && Unique(l.down)
    ensures Unique(Update(l, event, trigger, contextIndex).down)
  {
    UpdateKeepsMayRelease(l, event, trigger, contextIndex, FIRST_VIRTUAL);
  }

  lemma VirtualKeeps(l: Ledger, sent: KeySequence, event: KeyEvent, trigger: Trigger, contextIndex: int, env: Environment)
    requires IsOutputState(event.state) && Inv(l, sent) && IsVirtualKey(event.key)
    ensures Inv(UpdateVirtual(l, event, trigger, contextIndex, env), sent)
  {
    hide Update, Inv, MayRelease;
    VirtualMayRelease(l, event.key);
    UpdateKeeps(l, sent, event, trigger, contextIndex);
    UpdateKeeps(l, sent, Press(event.key), trigger, contextIndex);
    var pressed := Update(l, Press(event.key), trigger, contextIndex);
    VirtualMayRelease(pressed, event.key);
    UpdateKeeps(pressed, sent, Release(event.key), trigger, contextIndex);
  }

  lemma VirtualKeepsMayRelease(l: Ledger, event: KeyEvent, trigger: Trigger, contextIndex: int, env: Environment, k: Key)
    requires IsOutputState(event.state) && Unique(l.down) && MayRelease(l, k)
    ensures var next := UpdateVirtual(l, event, trigger, contextIndex, env);
      Unique(next.down) && MayRelease(next, k)
  {
    hide Update, MayRelease;
    UpdateKeepsMayRelease(l, event, trigger, contextIndex, k);
    UpdateKeepsMayRelease(l, Press(event.key), trigger, contextIndex, k);
    UpdateKeepsMayRelease(Update(l, Press(event.key), trigger, contextIndex), Release(event.key), trigger, contextIndex, k);
  }

  lemma EventKeeps(l: Ledger, sent: KeySequence, event: KeyEvent, trigger: Trigger, contextIndex: int, env: Environment)
    requires IsOutputState(event.state) && Inv(l, sent)
    requires event.state == Up ==> forall k :: k in Addressed(event, env) ==> MayRelease(l, k)
    ensures Inv(ApplyEvent(l, event, trigger, contextIndex, env), sent)
  {
    hide Update, UpdateAll, UpdateVirtual, Inv, MayRelease;
    if event.key == ANY {
      AllKeeps(l, sent, if event.state == Not then DownKeys(l.down) else env.anyKeys, event.state, trigger, contextIndex);
    } else if IsVirtualKey(event.key) {
      VirtualKeeps(l, sent, event, trigger, contextIndex, env);
    } else {
      assert event.state == Up ==> event.key in Addressed(event, env);
      UpdateKeeps(l, sent, event, trigger, contextIndex);
    }
  }

  lemma EventKeepsMayRelease(l: Ledger, event: KeyEvent, trigger: Trigger, contextIndex: int, env: Environment, k: Key)
    requires IsOutputState(event.state) && Unique(l.down)
    requires MayRelease(l, k) || (event.state == Down && k in Addressed(event, env))
    ensures var next := ApplyEvent(l, event, trigger, contextIndex, env);
      Unique(next.down) && MayRelease(next, k)
  {
    hide Update, UpdateAll, UpdateVirtual, MayRelease;
    if event.key == ANY {
      AllKeepsMayRelease(l, if event.state == Not then DownKeys(l.down) else env.anyKeys, event.state, trigger, contextIndex, k);
    } else if IsVirtualKey(event.key) {
      if !MayRelease(l, k) {
        VirtualMayRelease(l, k);
      }
      VirtualKeepsMayRelease(l, event, trigger, contextIndex, env, k);
    } else {
      UpdateKeepsUnique(l, event, trigger, contextIndex);
      if MayRelease(l, k) {
        UpdateKeepsMayRelease(l, event, trigger, contextIndex, k);
      } else {
        PressIsSafe(l, event, trigger, contextIndex);
        SafeMayRelease(Update(l, event, trigger, contextIndex), k);
      }
    }
  }

  lemma ReleasableStep(l: Ledger, s: KeySequence, trigger: Trigger, contextIndex: int, env: Environment)
    requires s != [] && IsOutputState(s[0].state) && Unique(l.down) && Releasable(l, s, env)
    ensures Releasable(ApplyEvent(l, s[0], trigger, contextIndex, env), s[1..], env)
    ensures s[0].state == Up ==> forall k :: k in Addressed(s[0], env) ==> MayRelease(l, k)
  {
    hide ApplyEvent, MayRelease;
    var rest, next := s[1..], ApplyEvent(l, s[0], trigger, contextIndex, env);
    forall i, k: Key | 0 <= i < |rest| && rest[i].state == Up && k in Addressed(rest[i], env)
      ensures PressedIn(rest, 0, i, rest[i].key) || MayRelease(next, k)
    {
      assert s[i + 1] == rest[i];
      if MayRelease(l, k) || (s[0].state == Down && s[0].key == rest[i].key) {
        EventKeepsMayRelease(l, s[0], trigger, contextIndex, env, k);
      } else {
        assert PressedIn(s, 0, i + 1, s[i + 1].key);
        var j :| 0 <= j < i + 1 && s[j].key == s[i + 1].key && s[j].state == Down;
        assert rest[j - 1] == s[j];
      }
    }
    forall k | s[0].state == Up && k in Addressed(s[0], env) ensures MayRelease(l, k) {
      assert !PressedIn(s, 0, 0, s[0].key);
    }
  }

  /** Applying an output keeps the invariant. */
  lemma {:induction false} ApplyKeeps(o: OutputState, sent: KeySequence, s: KeySequence, trigger: Trigger,
                                      contextIndex: int, env: Environment)
    requires ValidOutput(s) && Inv(o.ledger, sent) && Releasable(o.ledger, s, env)
    ensures Inv(Apply(o, s, trigger, contextIndex, env).ledger, sent)
    decreases |s|
  {
    hide ApplyEvent, Inv, MayRelease;
    if s != [] {
      if s[0].state == OutputOnRelease {
        ReleasableRest(o.ledger, s, env);
        ApplyKeeps(o, sent, s[1..], trigger, contextIndex, env);
      } else {
        InvUnique(o.ledger, sent);
        ReleasableStep(o.ledger, s, trigger, contextIndex, env);
        EventKeeps(o.ledger, sent, s[0], trigger, contextIndex, env);
        ApplyKeeps(o.(ledger := ApplyEvent(o.ledger, s[0], trigger, contextIndex, env)), sent, s[1..], trigger, contextIndex, env);
      }
    }
  }

  lemma ReleasableRest(l: Ledger, s: KeySequence, env: Environment)
    requires s != [] && s[0].state == OutputOnRelease && Releasable(l, s, env)
    ensures Releasable(l, s[1..], env)
  {
    hide MayRelease;
    var rest := s[1..];
    forall i, k: Key | 0 <= i < |rest| && rest[i].state == Up && k in Addressed(rest[i], env)
      ensures PressedIn(rest, 0, i, rest[i].key) || MayRelease(l, k)
    {
      assert s[i + 1] == rest[i];
      if PressedIn(s, 0, i + 1, s[i + 1].key) {
        var j :| 0 <= j < i + 1 && s[j].key == s[i + 1].key && s[j].state == Down;
        assert rest[j - 1] == s[j];
      }
    }
  }

  /** In a balanced part every release follows the press of its key. */
  lemma BalancedIsReleasable(l: Ledger, s: KeySequence, env: Environment)
    requires BalancedPart(s)
    ensures Releasable(l, s, env)
  {
  }

  // ---------------------------------------------------------------------------
  // Releasing what an input held

  lemma {:induction false} KeptEntries(down: seq<OutputDown>, k: Key, contextIndex: int)
    ensures forall entry :: entry in Kept(down, k, contextIndex) <==> entry in down && !Triggers(entry, k, contextIndex)
    ensures Unique(down) ==> Unique(Kept(down, k, contextIndex))
    decreases |down|
  {
    if down != [] {
      KeptEntries(down[1..], k, contextIndex);
      var rest := Kept(down[1..], k, contextIndex);
      if Unique(down) {
        assert forall i, j :: 0 <= i < j < |down[1..]| ==> down[1..][i] == down[i + 1] && down[1..][j] == down[j + 1];
        assert Unique(down[1..]);
        forall entry | entry in rest ensures entry.key != down[0].key {
          var i :| 0 <= i < |down[1..]| && down[1..][i] == entry;
          assert down[i + 1] == entry;
        }
      }
    }
  }

  lemma {:induction false} TriggeredEntries(down: seq<OutputDown>, k: Key, contextIndex: int)
    ensures forall entry :: entry in Triggered(down, k, contextIndex) <==> entry in down && Triggers(entry, k, contextIndex)
    decreases |down|
  {
    if down != [] {
      TriggeredEntries(down[1..], k, contextIndex);
    }
  }

  lemma {:induction false} ReleasesUp(s: KeySequence, down: seq<OutputDown>, k: Key)
    ensures IsDown(s + Releases(down), k) ==>
      IsDown(s, k) && forall i :: 0 <= i < |down| && down[i].key == k ==> down[i].temporarilyReleased
    decreases |down|
  {
    if down == [] {
      assert s + Releases(down) == s;
    } else {
      ReleasesUp(s, down[1..], k);
      var rest := Releases(down[1..]);
      if down[0].temporarilyReleased {
        assert Releases(down) == rest;
      } else {
        IsDownEmit(s, rest, Release(down[0].key), k);
      }
      assert forall i :: 0 < i < |down| ==> down[i] == down[1..][i - 1];
    }
  }

  lemma ReleaseKeeps(l: Ledger, sent: KeySequence, k: Key, contextIndex: int)
    requires Inv(l, sent)
    ensures Inv(ReleaseTriggered(l, k, contextIndex), sent)
  {
    var next := ReleaseTriggered(l, k, contextIndex);
    var triggered := Triggered(l.down, k, contextIndex);
    KeptEntries(l.down, k, contextIndex);
    TriggeredEntries(l.down, k, contextIndex);
    forall j: Key ensures Tracked(next.down, sent + next.buffer, j) {
      assert sent + next.buffer == sent + l.buffer + Releases(triggered);
      ReleasesUp(sent + l.buffer, triggered, j);
      assert Tracked(l.down, sent + l.buffer, j);
      if j != TIMEOUT && IsDown(sent + next.buffer, j) {
        var i :| 0 <= i < |l.down| && l.down[i].key == j && !l.down[i].temporarilyReleased;
        assert forall n :: 0 <= n < |triggered| ==> triggered[n] != l.down[i];
        assert l.down[i] !in triggered;
        assert l.down[i] in next.down;
      }
    }
  }

  /** After the release of an input no entry is held by it, and what it held is
      released in reverse order of pressing. */
  lemma {:induction false} ReleasedInReverseOrder(l: Ledger, k: Key, contextIndex: int)
    requires k != CONTEXT_ACTIVE
    ensures var next := ReleaseTriggered(l, k, contextIndex);
      && (forall entry :: entry in next.down <==> entry in l.down && TriggerKey(entry.trigger) != k)
      && next.buffer[..|l.buffer|] == l.buffer
      && IsReverseOf(next.buffer[|l.buffer|..], l.down, k)
  {
    KeptEntries(l.down, k, contextIndex);
    ReverseReleases(l.down, k, contextIndex);
    var next := ReleaseTriggered(l, k, contextIndex);
    assert next.buffer[|l.buffer|..] == Releases(Triggered(l.down, k, contextIndex));
  }

  /** The releases are those of the entries held by `k`, last entry first. */
  predicate IsReverseOf(releases: KeySequence, down: seq<OutputDown>, k: Key) {
    if down == [] then releases == []
    else if TriggerKey(down[0].trigger) == k && !down[0].temporarilyReleased then
      releases != [] && releases[|releases| - 1] == Release(down[0].key)
      && IsReverseOf(releases[..|releases| - 1], down[1..], k)
    else IsReverseOf(releases, down[1..], k)
  }

  lemma {:induction false} ReverseReleases(down: seq<OutputDown>, k: Key, contextIndex: int)
    requires k != CONTEXT_ACTIVE
    ensures IsReverseOf(Releases(Triggered(down, k, contextIndex)), down, k)
    decreases |down|
  {
    if down != [] {
      ReverseReleases(down[1..], k, contextIndex);
      var rest := Triggered(down[1..], k, contextIndex);
      if TriggerKey(down[0].trigger) == k {
        assert Triggered(down, k, contextIndex) == [down[0]] + rest;
        assert ([down[0]] + rest)[1..] == rest;
        if down[0].temporarilyReleased {
          assert Releases(rest) + [] == Releases(rest);
        }
      } else {
        assert [] + rest == rest;
      }
    }
  }
}
