/** What outputs do: what holds them, what a press and a release emit, what `^` and
    ContextActive defer. `src/runtime/Stage.cpp`, from `apply_input` to
    `update_output`. */
module OutputTheorems {
  import opened Keys
  import opened Outputs
  import opened Contexts
  import opened Mappings
  import opened LedgerTheorems
  import opened StageModel

  // ---------------------------------------------------------------------------
  // What holds an output

  /** The last event of the key is not a release. */
  predicate LastIsDown(s: KeySequence, k: Key) {
    exists i :: 0 <= i < |s| && s[i].key == k && s[i].state != Up && forall j :: i < j < |s| ==> s[j].key != k
  }

  lemma LastIsPressed(s: KeySequence, k: Key)
    ensures IsPhysicallyPressed(s, k) <==> LastIsDown(s, k)
  {
    if LastIsDown(s, k) {
      var i :| 0 <= i < |s| && s[i].key == k && s[i].state != Up && forall j :: i < j < |s| ==> s[j].key != k;
      RFindUnique(s, k, i);
    }
  }

  /** The key by which an output wants to be held: that of the last event of its input;
      but that of the current event for an Any and for outputs with `^`, and the last
      pressed key when a timeout matched. */
  function WantedKey(input: Expression, output: KeySequence, event: KeyEvent, timeout: Option<CurrentTimeout>): Key {
    var own := TriggerKey(InputTrigger(input));
    var key := if own == ANY || event.key == TIMEOUT || (exists i :: 0 <= i < |output| && output[i].state == OutputOnRelease)
               then event.key else own;
    if key == TIMEOUT && timeout.Some? then timeout.value.trigger else key
  }

  /** An output is held by that key whenever it is down, and otherwise by the current
      event. The exception is an output of one event, the one that would hold it, whose
      release still waits in the sequence. */
  lemma OutputIsHeldBy(input: Expression, output: KeySequence, event: KeyEvent, s: KeySequence, timeout: Option<CurrentTimeout>)
    ensures var t := ChooseTrigger(input, output, event, s, timeout);
      var wanted := WantedKey(input, output, event, timeout);
      && (LastIsDown(s, wanted) ==> TriggerKey(t) == wanted)
      && (LastIsDown(s, TriggerKey(t)) || t == EventTrigger(event)
          || (|output| == 1 && output[0].Same(TriggerEvent(t)) && HasEvent(s, wanted, Up) && TriggerKey(t) == wanted))
      && (t.InputTrigger? ==> t.input == input)
  {
    hide IsPhysicallyPressed, TriggerEvent, LastIsDown;
    forall k: Key ensures IsPhysicallyPressed(s, k) <==> LastIsDown(s, k) {
      LastIsPressed(s, k);
    }
    KeyOf(event);
    KeyOfKey(if timeout.Some? then timeout.value.trigger else NONE);
  }

  lemma KeyOf(event: KeyEvent)
    ensures TriggerEvent(EventTrigger(event)) == event
  {
  }

  lemma KeyOfKey(k: Key)
    ensures TriggerEvent(KeyTrigger(k)) == Press(k)
  {
  }

  // ---------------------------------------------------------------------------
  // Presses and releases

  /** Undoing the release of a common modifier is the only press that emits nothing. */
  predicate UndoesRelease(l: Ledger, next: Ledger, k: Key) {
    var n := |l.buffer|;
    IsCommonModifier(k) && n > 0 && l.buffer[n - 1].Same(Release(k)) && next.buffer == l.buffer[..n - 1]
  }

  predicate EndsWithPress(s: KeySequence, k: Key) { s != [] && s[|s| - 1].key == k && s[|s| - 1].state == Down }

  lemma {:induction false} ReapplyEnds(l: Ledger, k: Key, i: nat)
    ensures var (next, done) := Reapply(l, k, i);
      && (done ==> Holds(next.down, k) && (EndsWithPress(next.buffer, k) || UndoesRelease(l, next, k)))
      && (!done ==> next.buffer == l.buffer || (next.buffer != [] && next.buffer[|next.buffer| - 1].state == Down))
    decreases |l.down| - i
  {
    if i < |l.down| {
      var entry, n := l.down[i], |l.buffer|;
      if entry.temporarilyReleased && !entry.suppressed {
        var next := l.Set(i, entry.(temporarilyReleased := false)).Emit(Press(entry.key)).(reapplied := true);
        assert next.down[i].key == entry.key && !next.down[i].temporarilyReleased;
        if entry.key != k {
          ReapplyEnds(next, k, i + 1);
        }
      } else if entry.temporarilyReleased && entry.key == k && IsCommonModifier(k) && n > 0 && l.buffer[n - 1].Same(Release(k)) {
        var next := l.(buffer := l.buffer[..n - 1]).Set(i, entry.(temporarilyReleased := false));
        assert next.down[i].key == k && !next.down[i].temporarilyReleased;
      } else {
        ReapplyEnds(l, k, i + 1);
      }
    }
  }

  lemma EndIsDown(sent: KeySequence, buffer: KeySequence, k: Key)
    requires EndsWithPress(buffer, k)
    ensures IsDown(sent + buffer, k)
  {
    RFindUnique(sent + buffer, k, |sent| + |buffer| - 1);
  }

  /** After the press of an output key it is down, and held by an entry. Only a common
      modifier whose release has not been handed out yet is not pressed again: the
      release is taken back. */
  lemma PressIsDown(l: Ledger, sent: KeySequence, event: KeyEvent, trigger: Trigger, contextIndex: int)
    requires event.state == Down && event.key != TIMEOUT
    ensures var next := Update(l, event, trigger, contextIndex);
      && Holds(next.down, event.key)
      && (IsDown(sent + next.buffer, event.key) || UndoesRelease(l, next, event.key))
  {
    hide Reapply, IsDown;
    var k := event.key;
    ReapplyEnds(l, k, 0);
    var (reapplied, done) := Reapply(l, k, 0);
    var next := Update(l, event, trigger, contextIndex);
    if !done {
      var it := FindDown(reapplied.down, k);
      var at := if it < 0 then |reapplied.down| else it;
      assert next.down[at].key == k && !next.down[at].temporarilyReleased;
      assert EndsWithPress(next.buffer, k);
    }
    if EndsWithPress(next.buffer, k) {
      EndIsDown(sent, next.buffer, k);
    }
  }

  /** After the release of an output key it is up, unless it was pressed twice: then
      one of the presses is taken back. Only the trigger that holds it removes its
      entry. */
  lemma ReleaseIsUp(l: Ledger, sent: KeySequence, event: KeyEvent, trigger: Trigger, contextIndex: int)
    requires event.state == Up && Inv(l, sent) && event.key != TIMEOUT
    ensures var next, it := Update(l, event, trigger, contextIndex), FindDown(l.down, event.key);
      if it < 0 then next == l && !IsDown(sent + next.buffer, event.key)
      else if l.down[it].pressedTwice && !IsVirtualKey(event.key) && !l.down[it].suppressed then
        |next.down| == |l.down| && |next.buffer| <= |l.buffer|
      else
        && !IsDown(sent + next.buffer, event.key)
        && (!l.down[it].pressedTwice && TriggerKey(l.down[it].trigger) == TriggerKey(trigger) ==> !HoldsEntry(next.down, event.key))
  {
    hide IsDown;
    assert Tracked(l.down, sent + l.buffer, event.key);
    IsDownEmit(sent, l.buffer, event, event.key);
    var it := FindDown(l.down, event.key);
    if it >= 0 {
      EntryErased(l.down, it);
    }
  }

  predicate HoldsEntry(down: seq<OutputDown>, k: Key) { exists i :: 0 <= i < |down| && down[i].key == k }

  lemma EntryErased(down: seq<OutputDown>, i: nat)
    requires Unique(down) && i < |down|
    ensures !HoldsEntry(Erase(down, i), down[i].key)
  {
    assert forall j :: 0 <= j < |down| - 1 ==> Erase(down, i)[j] == down[if j < i then j else j + 1];
  }

  // ---------------------------------------------------------------------------
  // What waits behind `^`

  predicate WithoutRelease(s: KeySequence) { forall i :: 0 <= i < |s| ==> s[i].state in {Up, Down, Not} }

  const ON_RELEASE := KeyEvent(NONE, OutputOnRelease, 0)

  lemma {:induction false} AppliedUpTo(o: OutputState, a: KeySequence, b: KeySequence, trigger: Trigger, contextIndex: int, env: Environment)
    requires WithoutRelease(a) && ValidOutput(b)
    ensures ValidOutput(a + b) && ValidOutput(a)
    ensures Apply(o, a, trigger, contextIndex, env).onRelease == o.onRelease
    ensures Apply(o, a + b, trigger, contextIndex, env) == Apply(Apply(o, a, trigger, contextIndex, env), b, trigger, contextIndex, env)
    decreases |a|
  {
    hide ApplyEvent;
    if a == [] {
      assert a + b == b;
    } else {
      assert (a + b)[1..] == a[1..] + b;
      AppliedUpTo(o.(ledger := ApplyEvent(o.ledger, a[0], trigger, contextIndex, env)), a[1..], b, trigger, contextIndex, env);
    }
  }

  lemma {:induction false} AppliedAlone(l: Ledger, waiting: seq<OnReleaseOutput>, s: KeySequence, trigger: Trigger,
                                        contextIndex: int, env: Environment)
    requires WithoutRelease(s)
    ensures ValidOutput(s)
    ensures Apply(OutputState(l, waiting), s, trigger, contextIndex, env)
      == OutputState(Apply(OutputState(l, []), s, trigger, contextIndex, env).ledger, waiting)
    decreases |s|
  {
    hide ApplyEvent;
    if s != [] {
      AppliedAlone(ApplyEvent(l, s[0], trigger, contextIndex, env), waiting, s[1..], trigger, contextIndex, env);
    }
  }

  /** An output `a ^ b` which a press triggers: a is output at once, b when that key is
      released, and by no other release; after that nothing waits. */
  lemma RestIsOutputOnRelease(side: Side, a: KeySequence, b: KeySequence, trigger: Trigger, contextIndex: int,
                              env: Environment, later: Environment, other: Key)
    requires WithoutRelease(a) && WithoutRelease(b) && side.onRelease == []
    requires TriggerEvent(trigger).state == Down && TriggerKey(trigger) != CONTEXT_ACTIVE && other != TriggerKey(trigger)
    ensures ValidOutput(a) && ValidOutput(b) && ValidOutput(a + ([ON_RELEASE] + b))
    ensures var k, applied := TriggerKey(trigger), ApplySide(side, a + ([ON_RELEASE] + b), trigger, contextIndex, env);
      && GoodOnRelease(applied.onRelease, false)
      && applied.ledger == Apply(OutputState(side.ledger, []), a, trigger, contextIndex, env).ledger
      && ContinueSide(applied, Release(other), -1, later) == applied
      && var released := ContinueSide(applied, Release(k), -1, later);
         released.onRelease == [] &&
         released.ledger == Apply(OutputState(applied.ledger, []), b, EventTrigger(Release(k)), contextIndex, later).ledger
  {
    hide ApplyEvent, TouchesVirtual, AppliedPart, TriggerEvent;
    var rest := [ON_RELEASE] + b;
    assert rest[0] == ON_RELEASE && rest[1..] == b;
    AppliedUpTo(side.Outputs(), a, rest, trigger, contextIndex, env);
    AppliedUpTo(OutputState(side.ledger, []), a, rest, trigger, contextIndex, env);
    AppliedUpTo(side.Outputs(), b, [], trigger, contextIndex, env);
    var o := OnReleaseOutput(TriggerKey(trigger), b, contextIndex);
    assert [] + [o] == [o];
    var applied := ApplySide(side, a + rest, trigger, contextIndex, env);
    assert applied.onRelease == [o];
    OneWaits(applied, o, Release(other), later);
    OneWaits(applied, o, Release(o.trigger), later);
  }

  lemma OneWaits(side: Side, o: OnReleaseOutput, event: KeyEvent, env: Environment)
    requires side.onRelease == [o] && WithoutRelease(o.sequence) && o.trigger != CONTEXT_ACTIVE
    ensures ValidOutput(o.sequence) && GoodOnRelease([o], false)
    ensures var r := ContinueSide(side, event, -1, env);
      if event.key != o.trigger then r == side
      else r.onRelease == [] && r.ledger == Apply(OutputState(side.ledger, []), o.sequence, EventTrigger(event), o.contextIndex, env).ledger
  {
    hide Apply, TouchesVirtual, AppliedPart;
    assert [o][1..] == [];
    var fx := Effects(side.ledger, side.timeout);
    var next := if event.key == o.trigger then ContinueOne(fx, o, event, env) else fx;
    assert Continued(fx, [o], event, -1, env) == Continued(next, [], event, -1, env) == next;
    assert Waiting([o], event.key, -1) == (if event.key == o.trigger then [] else [o]) + [];
  }

  // ---------------------------------------------------------------------------
  // ContextActive

  /** When a context gets inactive, nothing is held by its ContextActive any more, and
      nothing waits for it; what other keys and contexts hold is not touched, apart from
      what is output behind `^`. */
  lemma InactiveContextHoldsNothing(contexts: seq<Context>, active: seq<int>, side: Side, c: nat, env: Environment)
    requires ValidConfig(contexts) && ValidIndices(contexts, active) && c < |contexts| && GoodOnRelease(side.onRelease, false)
    requires ContextActiveInput(contexts[c].inputs) >= 0
    ensures var r := Noted(contexts, active, side, Notification(c, false), env);
      && (forall e :: e in r.ledger.down ==> !(TriggerKey(e.trigger) == CONTEXT_ACTIVE && e.contextIndex == c))
      && (forall o :: o in r.onRelease <==> o in side.onRelease && !(o.trigger == CONTEXT_ACTIVE && o.contextIndex == c))
      && (side.onRelease == [] ==>
            (forall e :: e in r.ledger.down <==> e in side.ledger.down && !(TriggerKey(e.trigger) == CONTEXT_ACTIVE && e.contextIndex == c))
            && r.ledger.buffer == side.ledger.buffer + Releases(Triggered(side.ledger.down, CONTEXT_ACTIVE, c)))
  {
    hide TriggerEvent, Apply, ValidConfig, GoodOnRelease, Continued;
    var continued := ContinueSide(side, Release(CONTEXT_ACTIVE), c, env);
    forall e ensures e in Kept(continued.ledger.down, CONTEXT_ACTIVE, c)
      <==> e in continued.ledger.down && !(TriggerKey(e.trigger) == CONTEXT_ACTIVE && e.contextIndex == c) {
      KeptIff(continued.ledger.down, CONTEXT_ACTIVE, c, e);
    }
    forall o ensures o in Waiting(side.onRelease, CONTEXT_ACTIVE, c)
      <==> o in side.onRelease && !(o.trigger == CONTEXT_ACTIVE && o.contextIndex == c) {
      WaitingIff(side.onRelease, CONTEXT_ACTIVE, c, o);
    }
    if side.onRelease == [] {
      NothingWaits(Effects(side.ledger, side.timeout), Release(CONTEXT_ACTIVE), c, env);
    }
  }

  lemma NothingWaits(fx: Effects, event: KeyEvent, contextIndex: int, env: Environment)
    ensures GoodOnRelease([], false) && Continued(fx, [], event, contextIndex, env) == fx
  {
  }

  lemma {:induction false} KeptIff(down: seq<OutputDown>, k: Key, contextIndex: int, e: OutputDown)
    ensures e in Kept(down, k, contextIndex) <==> e in down && !Triggers(e, k, contextIndex)
    decreases |down|
  {
    hide Triggers;
    if down != [] {
      KeptIff(down[1..], k, contextIndex, e);
      assert e in down <==> e == down[0] || e in down[1..];
    }
  }

  lemma {:induction false} WaitingIff(outputs: seq<OnReleaseOutput>, k: Key, contextIndex: int, o: OnReleaseOutput)
    ensures o in Waiting(outputs, k, contextIndex) <==> o in outputs && !WaitsFor(o, k, contextIndex)
    decreases |outputs|
  {
    hide WaitsFor;
    if outputs != [] {
      WaitingIff(outputs[1..], k, contextIndex, o);
      assert o in outputs <==> o == outputs[0] || o in outputs[1..];
    }
  }

  /** A context is active itself, or an active context falls through to it. */
  predicate InActiveChain(contexts: seq<Context>, active: seq<int>, c: int)
    requires ValidIndices(contexts, active)
  {
    exists i :: 0 <= i < |active| && ReachesContext(contexts, active[i], c)
  }

  predicate ReachesContext(contexts: seq<Context>, a: int, c: int)
    requires 0 <= a < |contexts|
  {
    || a == c
    || (a <= c < |contexts| && !contexts[c].fallsThrough && forall j :: a <= j < c ==> contexts[j].fallsThrough)
  }

  lemma ReachesIff(contexts: seq<Context>, a: nat, c: int)
    requires ChainsEnd(contexts) && a < |contexts|
    ensures ReachesContext(contexts, a, c) <==> a == c || Fallthrough(contexts, a) == c
  {
    var r := Fallthrough(contexts, a);
    if a != c && ReachesContext(contexts, a, c) {
      assert !(c < r) && !(r < c);
    }
  }

  /** When the client sets other contexts active, exactly what waits behind `^` in
      contexts which are active then goes on waiting. */
  lemma {:induction false} WaitsOnIff(contexts: seq<Context>, active: seq<int>, outputs: seq<OnReleaseOutput>, o: OnReleaseOutput)
    requires ChainsEnd(contexts) && ValidIndices(contexts, active)
    ensures o in OfActiveContexts(contexts, active, outputs) <==> o in outputs && InActiveChain(contexts, active, o.contextIndex)
    decreases |outputs|
  {
    hide ReachesContext;
    if outputs != [] {
      WaitsOnIff(contexts, active, outputs[1..], o);
      assert o in outputs <==> o == outputs[0] || o in outputs[1..];
      forall i | 0 <= i < |active|
        ensures ReachesContext(contexts, active[i], o.contextIndex)
          <==> active[i] == o.contextIndex || Fallthrough(contexts, active[i]) == o.contextIndex
      {
        ReachesIff(contexts, active[i], o.contextIndex);
      }
    }
  }

  // ---------------------------------------------------------------------------
  // The end of suppression

  predicate OutputsModifier(down: seq<OutputDown>) {
    exists i :: 0 <= i < |down| && IsCommonModifier(down[i].key) && !down[i].suppressed
  }

  /** With every input, what `!K` suppressed may be pressed again; but common modifiers
      stay suppressed as long as another one is output. Nothing else changes. */
  lemma SuppressionEnds(down: seq<OutputDown>, i: nat)
    requires i < |down|
    ensures var e, next := down[i], Unsuppressed(down)[i];
      && next == e.(suppressed := next.suppressed)
      && (next.suppressed <==> e.suppressed && IsCommonModifier(e.key) && OutputsModifier(down))
  {
    hide IsCommonModifier;
  }
}
