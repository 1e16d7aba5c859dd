/** The stage state machine: the class of `src/runtime/Stage.cpp`. */
module StageMachine {
  import opened Keys
  import opened Matcher
  import opened Outputs
  import opened LedgerTheorems
  import opened LedgerRuns
  import opened InputSequence
  import opened Contexts
  import opened Mappings
  import opened StageModel
  import H = History

  class Stage {
    const contexts: seq<Context>
    const matcher: MatchKeySequence
    var virtualKeysToggle: bool
    var activeClientContexts: seq<int>
    var activeContexts: seq<int>
    var prevActiveContexts: seq<int>

    // see InputSequence.SeqInv
    var sequence: KeySequence
    var sequenceMightMatch: bool
    var lastPressedDevice: int
    var lastRepeatDevice: int

    // see History.HistoryInv
    var history: KeySequence

    var onRelease: seq<OnReleaseOutput>
    // with `buffer` and `temporaryReapplied` the ledger, see Now()
    var down: seq<OutputDown>
    var currentTimeout: Option<CurrentTimeout>

    var buffer: KeySequence
    var temporaryReapplied: bool
    var anyKeys: seq<Key>

    // the past of the stage: what it handed out, was fed and notified, which
    // contexts were active, and what they were activated for
    ghost var sent: KeySequence
    ghost var fed: seq<KeyEvent>
    ghost var activeRun: seq<seq<int>>
    ghost var activations: seq<Activation>
    ghost var notified: seq<Notification>

    ghost function Now(): Ledger
      reads `down, `buffer, `temporaryReapplied
    {
      Ledger(down, buffer, temporaryReapplied)
    }

    ghost function Env(): Environment
      reads `sequence, `anyKeys, `virtualKeysToggle
    {
      Environment(sequence, anyKeys, virtualKeysToggle)
    }

    ghost function Out(): Side
      reads `down, `buffer, `temporaryReapplied, `onRelease, `currentTimeout
    {
      Side(Now(), onRelease, currentTimeout)
    }

    /** The whole state as a value. */
    ghost function Snap(): Machine
      reads `activeClientContexts, `activeContexts, `sequence, `sequenceMightMatch, `lastPressedDevice, `lastRepeatDevice
      reads `history, `down, `buffer, `temporaryReapplied, `onRelease, `currentTimeout, `anyKeys, `virtualKeysToggle
    {
      Machine(activeClientContexts, activeContexts, sequence, sequenceMightMatch, lastPressedDevice, lastRepeatDevice,
              history, Out(), anyKeys, virtualKeysToggle)
    }

    /** The output side: what waits for a release is good, and no key gets stuck
        when outputs release only what they pressed. */
    ghost predicate OutputsValid()
      reads `down, `buffer, `temporaryReapplied, `sent, `onRelease
    {
      GoodOnRelease(onRelease, false) && (BalancedOutputs(contexts) ==> Inv(Now(), sent) && GoodOnRelease(onRelease, true))
    }

    ghost predicate ContextsValid()
      reads `activeContexts, `prevActiveContexts, `activeClientContexts
    {
      && ValidConfig(contexts)
      && ValidIndices(contexts, activeContexts)
      && ValidIndices(contexts, activeClientContexts)
      && Ascending(activeClientContexts)
    }

    /** The notifications are those of the contexts that were active one after
        the other, and these are what the client contexts were activated to. */
    ghost predicate NotificationsValid()
      reads `activeContexts, `activeRun, `activations, `notified
    {
      && activeRun != [] && activeRun[0] == [] && activeRun[|activeRun| - 1] == activeContexts
      && (forall i :: 0 <= i < |activeRun| ==> Below(activeRun[i]))
      && notified == RunNotifications(activeRun)
      && ActivatedBy(contexts, activeRun, activations)
    }

    /** Holds in every reachable state. */
    ghost predicate Valid()
      reads this
    {
      && ContextsValid()
      && OutputsValid()
      && NotificationsValid()
      && SeqInv(sequence)
      && H.HistoryInv(history)
      && (history == [] || history[0].state == Down)
    }

    constructor (config: seq<Context>)
      requires GoodConfig(config)
      ensures Valid() && fresh(this) && fresh(matcher)
      ensures contexts == SortCommandOutputs(config)
      ensures Snap() == FRESH && sent == [] && notified == []
    {
      contexts := SortCommandOutputs(config);
      matcher := new MatchKeySequence();
      virtualKeysToggle := true;
      activeClientContexts, activeContexts, prevActiveContexts := [], [], [];
      sequence, sequenceMightMatch, lastPressedDevice, lastRepeatDevice := [], false, NO_DEVICE, NO_DEVICE;
      history, onRelease, down, currentTimeout := [], [], [], None;
      buffer, temporaryReapplied, anyKeys := [], false, [];
      sent, fed, notified, activeRun, activations := [], [], [], [[]], [];
      SortingIsValid(config);
    }

    // -------------------------------------------------------------------------
    // Output

    method UpdateOutput(event: KeyEvent, trigger: Trigger, contextIndex: int)
      requires IsOutputState(event.state)
      modifies `down, `buffer, `temporaryReapplied
      ensures Now() == Outputs.Update(old(Now()), event, trigger, contextIndex)
    {
      match event.state
      case Up => ReleaseOutput(event, trigger);
      case Not => SuppressOutput(event.key);
      case Down => PressOutput(event, trigger, contextIndex);
      case _ =>
    }

    method ReleaseOutput(event: KeyEvent, trigger: Trigger)
      modifies `down, `buffer
      ensures Now() == UpdateUp(old(Now()), event, trigger)
    {
      var it := FindDown(down, event.key);
      if it >= 0 {
        var entry := down[it];
        if entry.pressedTwice && IsVirtualKey(event.key) {
          down := down[it := entry.(pressedTwice := false)];
          buffer := buffer + [event];
        } else if entry.pressedTwice && !entry.suppressed {
          var it2 := RFindKey(buffer, event.key);
          if it2 >= 0 {
            buffer := Erase(buffer, it2);
          }
          down := down[it := entry.(pressedTwice := false)];
        } else {
          if TriggerKey(entry.trigger) == TriggerKey(trigger) {
            down := Erase(down, it);
          } else {
            down := down[it := entry.(temporarilyReleased := true)];
          }
          buffer := buffer + [event];
        }
      }
    }

    method SuppressOutput(key: Key)
      modifies `down, `buffer
      ensures Now() == UpdateNot(old(Now()), key)
    {
      var it := FindDown(down, key);
      if it >= 0 && !IsVirtualKey(key) && !IsActionKey(key) {
        var entry := down[it];
        if !entry.temporarilyReleased {
          buffer := buffer + [Release(key)];
        }
        down := down[it := entry.(temporarilyReleased := true, suppressed := true)];
      }
    }

    method PressOutput(event: KeyEvent, trigger: Trigger, contextIndex: int)
      requires event.state == Down
      modifies `down, `buffer, `temporaryReapplied
      ensures Now() == UpdateDown(old(Now()), event, trigger, contextIndex)
    {
      var done := ReapplyTemporarilyReleased(event.key);
      if done {
        return;
      }
      var it := FindDown(down, event.key);
      if it < 0 {
        if event.key != TIMEOUT {
          down := down + [OutputDown(event.key, trigger, false, false, false, contextIndex)];
        }
      } else {
        down := down[it := down[it].(temporarilyReleased := false, pressedTwice := !temporaryReapplied)];
        if temporaryReapplied {
          buffer := buffer + [Release(event.key)];
        }
      }
      buffer := buffer + [event];
    }

    method ReapplyTemporarilyReleased(key: Key) returns (done: bool)
      modifies `down, `buffer, `temporaryReapplied
      ensures (Now(), done) == Reapply(old(Now()), key, 0)
    {
      var i := 0;
      while i < |down|
        invariant i <= |down|
        invariant Reapply(Now(), key, i) == Reapply(old(Now()), key, 0)
        decreases |down| - i
      {
        var entry := down[i];
        if entry.temporarilyReleased && !entry.suppressed {
          down := down[i := entry.(temporarilyReleased := false)];
          buffer := buffer + [Press(entry.key)];
          temporaryReapplied := true;
          if entry.key == key {
            return true;
          }
        } else if entry.temporarilyReleased && entry.key == key {
          if IsCommonModifier(key) && buffer != [] && buffer[|buffer| - 1].Same(Release(key)) {
            buffer := buffer[..|buffer| - 1];
            down := down[i := entry.(temporarilyReleased := false)];
            return true;
          }
        }
        i := i + 1;
      }
      done := false;
    }

    method UpdateVirtualKey(event: KeyEvent, trigger: Trigger, contextIndex: int)
      requires IsOutputState(event.state)
      modifies `down, `buffer, `temporaryReapplied, `currentTimeout
      ensures Now() == UpdateVirtual(old(Now()), event, trigger, contextIndex, Env())
      ensures currentTimeout == VirtualKeysChanged(old(currentTimeout), true)
    {
      var pressed := (CountPresses(sequence, event.key) + CountPresses(buffer, event.key)) % 2 == 1;
      if event.state == Not {
        if pressed {
          UpdateOutput(Press(event.key), trigger, contextIndex);
          UpdateOutput(Release(event.key), trigger, contextIndex);
        }
      } else if !pressed || virtualKeysToggle {
        UpdateOutput(event, trigger, contextIndex);
      }
      if currentTimeout.Some? {
        currentTimeout := Option.Some(currentTimeout.value.(virtualKeysChanged := true));
      }
    }

    method UpdateAllOutputs(keys: seq<Key>, state: KeyState, trigger: Trigger, contextIndex: int)
      requires IsOutputState(state)
      modifies `down, `buffer, `temporaryReapplied
      ensures Now() == UpdateAll(old(Now()), keys, state, trigger, contextIndex)
    {
      var i := 0;
      while i < |keys|
        invariant i <= |keys|
        invariant UpdateAll(Now(), keys[i..], state, trigger, contextIndex)
          == UpdateAll(old(Now()), keys, state, trigger, contextIndex)
      {
        assert keys[i..][1..] == keys[i + 1..];
        UpdateOutput(KeyEvent(keys[i], state, 0), trigger, contextIndex);
        i := i + 1;
      }
    }

    method ApplyOutput(s: KeySequence, trigger: Trigger, contextIndex: int)
      requires ValidOutput(s)
      modifies `down, `buffer, `temporaryReapplied, `currentTimeout, `onRelease
      ensures OutputState(Now(), onRelease)
        == Apply(OutputState(old(Now()), old(onRelease)), s, trigger, contextIndex, Env())
      ensures currentTimeout == VirtualKeysChanged(old(currentTimeout), TouchesVirtual(AppliedPart(s, trigger)))
    {
      hide Outputs.ApplyEvent, Stage.Now, AppliedPart, TouchesVirtual;
      ghost var env := Env();
      var i := 0;
      assert s[0..] == s;
      while i < |s|
        invariant i <= |s| && ValidOutput(s[i..]) && Env() == env
        invariant Apply(OutputState(Now(), onRelease), s[i..], trigger, contextIndex, env)
          == Apply(OutputState(old(Now()), old(onRelease)), s, trigger, contextIndex, env)
        invariant VirtualKeysChanged(currentTimeout, TouchesVirtual(AppliedPart(s[i..], trigger)))
          == VirtualKeysChanged(old(currentTimeout), TouchesVirtual(AppliedPart(s, trigger)))
      {
        var event := s[i];
        assert s[i..][0] == event && s[i..][1..] == s[i + 1..];
        TouchesFirst(s[i..], trigger);
        if event.state == OutputOnRelease {
          var triggerEvent := TriggerEvent(trigger);
          if triggerEvent.state == Down {
            onRelease := onRelease + [OnReleaseOutput(triggerEvent.key, s[i + 1..], contextIndex)];
            return;
          }
        } else {
          ApplyEvent(event, trigger, contextIndex);
        }
        i := i + 1;
      }
      NothingTouched(trigger);
      assert s[i..] == [];
    }

    /** One event of an output, other than `^`. */
    method ApplyEvent(event: KeyEvent, trigger: Trigger, contextIndex: int)
      requires IsOutputState(event.state)
      modifies `down, `buffer, `temporaryReapplied, `currentTimeout
      ensures Now() == Outputs.ApplyEvent(old(Now()), event, trigger, contextIndex, Env())
      ensures currentTimeout == VirtualKeysChanged(old(currentTimeout), IsVirtualKey(event.key))
    {
      hide Outputs.Update, UpdateAll, UpdateVirtual;
      if event.key == ANY {
        UpdateAllOutputs(if event.state == Not then DownKeys(down) else anyKeys, event.state, trigger, contextIndex);
      } else if IsVirtualKey(event.key) {
        UpdateVirtualKey(event, trigger, contextIndex);
      } else {
        UpdateOutput(event, trigger, contextIndex);
      }
    }

    /** Applies an output of the configuration, or the rest of one. */
    method ApplyGoodOutput(s: KeySequence, trigger: Trigger, contextIndex: int)
      requires OutputsValid() && GoodOutput(s, BalancedOutputs(contexts))
      modifies `down, `buffer, `temporaryReapplied, `currentTimeout, `onRelease
      ensures OutputsValid()
      ensures Out() == ApplySide(old(Out()), s, trigger, contextIndex, Env())
    {
      hide Inv, Apply, BalancedPart, BalancedOutputs;
      ghost var o := OutputState(Now(), onRelease);
      ghost var env := Env();
      assert s[0..] == s;
      ApplyKeepsGoodOnRelease(o, s, 0, trigger, contextIndex, env, false);
      if BalancedOutputs(contexts) {
        BalancedIsReleasable(Now(), s, env);
        ApplyKeeps(o, sent, s, trigger, contextIndex, env);
        ApplyKeepsGoodOnRelease(o, s, 0, trigger, contextIndex, env, true);
      }
      ApplyOutput(s, trigger, contextIndex);
    }

    method ReleaseTriggered(key: Key, contextIndex: int)
      modifies `down, `buffer, `currentTimeout
      ensures Now() == Outputs.ReleaseTriggered(old(Now()), key, contextIndex)
      ensures currentTimeout == WithoutTimeoutOf(old(currentTimeout), key)
    {
      var kept, triggered := Kept(down, key, contextIndex), Triggered(down, key, contextIndex);
      ghost var all := buffer + Releases(triggered);
      var i := |triggered|;
      assert triggered[..i] == triggered;
      while i > 0
        invariant 0 <= i <= |triggered|
        invariant buffer + Releases(triggered[..i]) == all && currentTimeout == old(currentTimeout)
      {
        i := i - 1;
        LastReleased(triggered[..i + 1]);
        assert triggered[..i + 1][..i] == triggered[..i];
        if !triggered[i].temporarilyReleased {
          assert buffer + ([Release(triggered[i].key)] + Releases(triggered[..i]))
              == buffer + [Release(triggered[i].key)] + Releases(triggered[..i]);
          buffer := buffer + [Release(triggered[i].key)];
        }
      }
      assert triggered[..0] == [] && buffer + [] == buffer;
      down := kept;
      if currentTimeout.Some? && currentTimeout.value.trigger == key {
        currentTimeout := None;
      }
    }

    /** Releases what an input held, which leaves nothing stuck. */
    method ReleaseHeld(key: Key, contextIndex: int)
      requires OutputsValid()
      modifies `down, `buffer, `currentTimeout
      ensures OutputsValid()
      ensures Out() == ReleaseSide(old(Out()), key, contextIndex)
      ensures forall k :: (k == key && k != CONTEXT_ACTIVE) || NotHolding(old(down), k) ==> NotHolding(down, k)
    {
      hide Inv, NotHolding, BalancedOutputs;
      forall k: Key | (k == key && k != CONTEXT_ACTIVE) || NotHolding(down, k)
        ensures NotHolding(Outputs.ReleaseTriggered(Now(), key, contextIndex).down, k)
      {
        ReleasedNotHolding(Now(), key, contextIndex, k);
      }
      if BalancedOutputs(contexts) {
        ReleaseKeeps(Now(), sent, key, contextIndex);
      }
      ReleaseTriggered(key, contextIndex);
    }

    /** Outputs what waits for the release of the key; false for a key repeat. */
    method ContinueOutputOnRelease(event: KeyEvent, contextIndex: int) returns (proceed: bool)
      requires OutputsValid() && event.IsNonOptional()
      modifies `down, `buffer, `temporaryReapplied, `currentTimeout, `onRelease
      ensures OutputsValid()
      ensures forall k :: k != event.key && NotHolding(old(down), k) ==> NotHolding(down, k)
      ensures event.state == Up ==>
        && proceed && GoodOnRelease(old(onRelease), false)
        && Out() == ContinueSide(old(Out()), event, contextIndex, Env())
      ensures event.state == Down ==>
        Out() == old(Out()) && (proceed <==> FindOnRelease(onRelease, event.key, contextIndex) < 0)
    {
      hide Inv, Apply, NotHolding, GoodOutput, Continued, Waiting, BalancedOutputs;
      while true
        invariant OutputsValid()
        invariant event.state == Up ==>
          && Continued(Effects(Now(), currentTimeout), onRelease, event, contextIndex, Env())
             == Continued(Effects(old(Now()), old(currentTimeout)), old(onRelease), event, contextIndex, Env())
          && Waiting(onRelease, event.key, contextIndex) == Waiting(old(onRelease), event.key, contextIndex)
        invariant forall k :: k != event.key && NotHolding(old(down), k) ==> NotHolding(down, k)
        invariant event.state == Down ==>
          Now() == old(Now()) && onRelease == old(onRelease) && currentTimeout == old(currentTimeout)
        decreases |onRelease|
      {
        var it := FindOnRelease(onRelease, event.key, contextIndex);
        WaitingNext(onRelease, event.key, contextIndex);
        if it < 0 {
          NothingContinued(Effects(Now(), currentTimeout), onRelease, event, contextIndex, Env());
          return true;
        }
        if event.state == Down {
          return false;
        }
        var output := onRelease[it];
        ContinuedNext(Effects(Now(), currentTimeout), onRelease, event, contextIndex, Env(), it);
        ghost var before := onRelease;
        ghost var o := OutputState(Now(), onRelease);
        ghost var env := Env();
        assert GoodOutput(output.sequence, false) && (BalancedOutputs(contexts) ==> GoodOutput(output.sequence, true));
        WaitingOutput(output, BalancedOutputs(contexts));
        AppliedLedger(o, [], output.sequence, EventTrigger(event), output.contextIndex, env);
        NothingSplitAtRelease(o, output.sequence, EventTrigger(event), output.contextIndex, env);
        forall k | k != event.key && NotHolding(down, k)
          ensures NotHolding(Apply(o, output.sequence, EventTrigger(event), output.contextIndex, env).ledger.down, k)
        {
          ApplyKeepsTriggers(o, output.sequence, EventTrigger(event), output.contextIndex, env, k);
        }
        ApplyGoodOutput(output.sequence, EventTrigger(event), output.contextIndex);
        assert onRelease == before;
        onRelease := onRelease[..it] + onRelease[it + 1..];
      }
    }

    // -------------------------------------------------------------------------
    // The input sequence

    method FinishSequence(length: nat)
      requires length <= |sequence|
      modifies `sequence
      ensures sequence == Finish(old(sequence), 0, length)
    {
      var i, n := 0, length;
      while i < n
        invariant 0 <= i <= n <= |sequence|
        invariant Finish(sequence, i, n) == Finish(old(sequence), 0, length)
        decreases n - i
      {
        var event := sequence[i];
        if event.state == Down || event.state == DownMatched {
          var released := exists m :: i <= m < |sequence| && sequence[m].key == event.key && sequence[m].state == Up;
          assert released == UpFollows(sequence, i);
          if !released {
            sequence := sequence[i := event.(state := DownMatched)];
            i := i + 1;
            continue;
          }
        } else if event.key == TIMEOUT {
          sequence := sequence[i := event.(state := UpMatched)];
          i := i + 1;
          continue;
        }
        sequence := Erase(sequence, i);
        n := n - 1;
      }
    }

    lemma ForwardingKeeps(event: KeyEvent)
      requires event.IsPress() && OutputsValid()
      ensures BalancedOutputs(contexts) ==> Inv(Outputs.Update(Now(), event, KeyTrigger(event.key), -1), sent)
    {
      hide Inv;
      if BalancedOutputs(contexts) {
        UpdateKeeps(Now(), sent, event, KeyTrigger(event.key), -1);
      }
    }

    method ForwardFromSequence()
      requires OutputsValid() && SeqInv(sequence)
      modifies `sequence, `down, `buffer, `temporaryReapplied, `currentTimeout
      ensures OutputsValid()
      ensures sequence == Forwarded(old(sequence))
      ensures Now() == ForwardedOutput(old(Now()), old(sequence), TimeoutMatched(old(currentTimeout)))
      ensures var i := FirstUnsettled(old(sequence), 0);
        currentTimeout == if i < |old(sequence)| && !old(sequence)[i].IsPress()
                          then WithoutTimeoutOf(old(currentTimeout), old(sequence)[i].key) else old(currentTimeout)
    {
      hide Inv, SeqInv, Outputs.UpdateUp, Outputs.UpdateDown, Outputs.UpdateNot, BalancedOutputs;
      var i := 0;
      while i < |sequence|
        invariant i <= |sequence| && sequence == old(sequence)
        invariant FirstUnsettled(sequence, i) == FirstUnsettled(sequence, 0)
        invariant Now() == old(Now()) && OutputsValid() && currentTimeout == old(currentTimeout)
      {
        var event := sequence[i];
        SeqInvStates(sequence, i);
        if event.IsPress() {
          var released := exists m :: i <= m < |sequence| && sequence[m].key == event.key && sequence[m].state == Up;
          assert released == UpFollows(sequence, i);
          if released {
            ForwardingKeeps(event);
            UpdateOutput(event, KeyTrigger(event.key), -1);
            sequence := Erase(sequence, i);
            return;
          } else if event.state == Down {
            if !TimeoutMatched(currentTimeout) {
              ForwardingKeeps(event);
              UpdateOutput(event, KeyTrigger(event.key), -1);
            }
            sequence := sequence[i := event.(state := DownMatched)];
            return;
          }
        } else {
          ReleaseHeld(event.key, -1);
          sequence := Erase(sequence, i);
          return;
        }
        i := i + 1;
      }
    }

    // -------------------------------------------------------------------------
    // Contexts

    method FallthroughContext(contextIndex: nat) returns (index: nat)
      requires ChainsEnd(contexts) && contextIndex < |contexts|
      ensures index == Fallthrough(contexts, contextIndex)
    {
      index := contextIndex;
      while contexts[index].fallsThrough
        invariant index < |contexts|
        invariant Fallthrough(contexts, index) == Fallthrough(contexts, contextIndex)
        decreases |contexts| - index
      {
        index := index + 1;
      }
    }

    method MatchContextModifierFilter(modifiers: KeySequence) returns (matches: bool)
      ensures matches == MatchesModifiers(sequence, modifiers)
    {
      var i := 0;
      while i < |modifiers|
        invariant i <= |modifiers|
        invariant forall j :: 0 <= j < i ==> (FindKey(sequence, modifiers[j].key) >= 0) == (modifiers[j].state != Not)
      {
        var pressed := FindKey(sequence, modifiers[i].key) >= 0;
        var shouldBePressed := modifiers[i].state != Not;
        if pressed != shouldBePressed {
          return false;
        }
        i := i + 1;
      }
      matches := true;
    }

    /** Computes the active contexts anew. */
    method EvaluateContexts()
      requires ContextsValid()
      modifies `activeContexts
      ensures ContextsValid()
      ensures activeContexts == Activate(contexts, activeClientContexts, sequence, [])
    {
      hide GoodConfig, MatchesModifiers;
      ConfigHasChains(contexts);
      activeContexts := [];
      var i := 0;
      assert activeClientContexts[0..] == activeClientContexts;
      while i < |activeClientContexts|
        invariant i <= |activeClientContexts| && ContextsValid()
        invariant ValidIndices(contexts, activeClientContexts[i..])
        invariant Activate(contexts, activeClientContexts[i..], sequence, activeContexts)
          == Activate(contexts, activeClientContexts, sequence, [])
      {
        var index := activeClientContexts[i];
        var context := contexts[index];
        assert activeClientContexts[i..][0] == index && activeClientContexts[i..][1..] == activeClientContexts[i + 1..];
        var matches := MatchContextModifierFilter(context.modifierFilter);
        if matches != context.invertModifierFilter
           && (!context.hasDeviceFilter || context.devices.AllDevices? || context.devices.indices != {})
        {
          if !context.hasDeviceFilter {
            index := FallthroughContext(index);
          }
          if activeContexts == [] || activeContexts[|activeContexts| - 1] != index {
            activeContexts := activeContexts + [index];
          }
        }
        i := i + 1;
      }
    }

    method OnContextActiveEvent(activated: bool, contextIndex: int)
      requires OutputsValid() && ContextsValid() && 0 <= contextIndex < |contexts|
      modifies `down, `buffer, `temporaryReapplied, `currentTimeout, `onRelease, `notified
      ensures OutputsValid()
      ensures forall k :: k != CONTEXT_ACTIVE && NotHolding(old(down), k) ==> NotHolding(down, k)
      ensures notified == old(notified) + [Notification(contextIndex, activated)]
      ensures GoodOnRelease(old(onRelease), false)
      ensures Out() == Noted(contexts, activeContexts, old(Out()), Notification(contextIndex, activated), Env())
    {
      hide Inv, Apply, GoodOutput, NotHolding, BalancedOutputs, ContinueSide, ReleaseSide;
      notified := notified + [Notification(contextIndex, activated)];
      var context := contexts[contextIndex];
      var it := ContextActiveInput(context.inputs);
      if it >= 0 {
        if activated {
          var output := FindOutputOf(contextIndex, context.inputs[it].outputIndex);
          if output.Some? {
            OutputIsGood(contexts, output.value);
            GoodIsValid(OutputAt(contexts, output.value), BalancedOutputs(contexts));
            forall k | k != CONTEXT_ACTIVE && NotHolding(down, k)
              ensures NotHolding(Apply(OutputState(Now(), onRelease), OutputAt(contexts, output.value),
                                       EventTrigger(Press(CONTEXT_ACTIVE)), contextIndex, Env()).ledger.down, k)
            {
              ApplyKeepsTriggers(OutputState(Now(), onRelease), OutputAt(contexts, output.value),
                                 EventTrigger(Press(CONTEXT_ACTIVE)), contextIndex, Env(), k);
            }
            ApplyGoodOutput(OutputAt(contexts, output.value), EventTrigger(Press(CONTEXT_ACTIVE)), contextIndex);
          }
        } else {
          var _ := ContinueOutputOnRelease(Release(CONTEXT_ACTIVE), contextIndex);
          ReleaseHeld(CONTEXT_ACTIVE, contextIndex);
        }
      }
    }

    /** One pass over the previous and the current active contexts. */
    method NotifyToggled(activated: bool)
      requires OutputsValid() && ContextsValid() && ValidIndices(contexts, prevActiveContexts)
      modifies `down, `buffer, `temporaryReapplied, `currentTimeout, `onRelease, `notified
      ensures OutputsValid()
      ensures forall k :: k != CONTEXT_ACTIVE && NotHolding(old(down), k) ==> NotHolding(down, k)
      ensures Below(prevActiveContexts) && Below(activeContexts)
      ensures notified == old(notified) + Notes(Toggled(prevActiveContexts, activeContexts, 0, 0, activated), activated)
      ensures var notes := Notes(Toggled(prevActiveContexts, activeContexts, 0, 0, activated), activated);
        && GoodOnRelease(old(onRelease), false) && NotesInRange(contexts, notes)
        && Out() == NotedAll(contexts, activeContexts, old(Out()), notes, Env())
    {
      hide Inv, Notes, NotHolding, BalancedOutputs, GoodOnRelease, NotesInRange, NotedAll, Stage.LeadsTo, ValidConfig;
      var prev, curr := prevActiveContexts, activeContexts;
      ConfigHasChains(contexts);
      ToggledInRange(contexts, prev, curr, activated);
      ghost var notes := Notes(Toggled(prev, curr, 0, 0, activated), activated);
      ghost var all, end := notified + notes, NotedAll(contexts, curr, Out(), notes, Env());
      assert LeadsTo(notes, all, end) by { ItLeadsTo(notes); }
      var i, j := 0, 0;
      while i < |prev| || j < |curr|
        invariant i <= |prev| && j <= |curr| && OutputsValid()
        invariant forall k :: k != CONTEXT_ACTIVE && NotHolding(old(down), k) ==> NotHolding(down, k)
        invariant LeadsTo(Notes(Toggled(prev, curr, i, j, activated), activated), all, end)
        decreases |prev| - i + |curr| - j
      {
        var p := if i < |prev| then prev[i] else MAX_INT;
        var c := if j < |curr| then curr[j] else MAX_INT;
        NextToggled(prev, curr, i, j, activated);
        if p < c {
          if !activated {
            NotifyOne(p, false, Notes(Toggled(prev, curr, i + 1, j, activated), activated), all, end);
          }
          i := i + 1;
        } else if c < p {
          if activated {
            NotifyOne(c, true, Notes(Toggled(prev, curr, i, j + 1, activated), activated), all, end);
          }
          j := j + 1;
        } else {
          i, j := i + 1, j + 1;
        }
      }
      NothingToggled(prev, curr, i, j, activated);
      assert notified == all && Out() == end by { ItLed(all, end); }
    }

    /** These notifications, one after the other, complete the given ones and lead
        to the given output. */
    ghost predicate LeadsTo(notes: seq<Notification>, all: seq<Notification>, end: Side)
      reads `notified, `down, `buffer, `temporaryReapplied, `onRelease, `currentTimeout
      reads `activeContexts, `sequence, `anyKeys, `virtualKeysToggle
    {
      && ValidConfig(contexts) && ValidIndices(contexts, activeContexts) && NotesInRange(contexts, notes)
      && GoodOnRelease(onRelease, false)
      && notified + notes == all
      && NotedAll(contexts, activeContexts, Out(), notes, Env()) == end
    }

    lemma ItLeadsTo(notes: seq<Notification>)
      requires ValidConfig(contexts) && ValidIndices(contexts, activeContexts) && NotesInRange(contexts, notes)
      requires GoodOnRelease(onRelease, false)
      ensures LeadsTo(notes, notified + notes, NotedAll(contexts, activeContexts, Out(), notes, Env()))
    {
    }

    lemma ItLed(all: seq<Notification>, end: Side)
      requires LeadsTo([], all, end)
      ensures notified == all && Out() == end
    {
      assert notified + [] == notified;
    }

    method NotifyOne(context: int, activated: bool, ghost later: seq<Notification>, ghost all: seq<Notification>, ghost end: Side)
      requires OutputsValid() && ContextsValid() && LeadsTo([Notification(context, activated)] + later, all, end)
      modifies `down, `buffer, `temporaryReapplied, `currentTimeout, `onRelease, `notified
      ensures OutputsValid() && LeadsTo(later, all, end)
      ensures forall k :: k != CONTEXT_ACTIVE && NotHolding(old(down), k) ==> NotHolding(down, k)
    {
      hide Inv, NotHolding, ValidConfig, Noted, BalancedOutputs, GoodOnRelease;
      ghost var notes := [Notification(context, activated)] + later;
      assert notes[0] == Notification(context, activated) && notes[1..] == later;
      Associative(notified, [Notification(context, activated)], later);
      OnContextActiveEvent(activated, context);
    }

    /** What the change from these active contexts to the current ones outputs. */
    ghost predicate AreNotified(prev: seq<int>, side: Side, next: Side)
      reads `activeContexts, `sequence, `anyKeys, `virtualKeysToggle
    {
      && ValidConfig(contexts) && ValidIndices(contexts, activeContexts) && Below(prev) && Below(activeContexts)
      && GoodOnRelease(side.onRelease, false)
      && var notes := Notifications(prev, activeContexts);
         NotesInRange(contexts, notes) && next == NotedAll(contexts, activeContexts, side, notes, Env())
    }

    method UpdateActiveContexts()
      requires OutputsValid() && ContextsValid() && NotificationsValid()
      modifies `activeContexts, `prevActiveContexts, `down, `buffer, `temporaryReapplied, `currentTimeout, `onRelease
      modifies `activeRun, `activations, `notified
      ensures OutputsValid() && ContextsValid() && NotificationsValid()
      ensures activeRun == old(activeRun) + [activeContexts]
      ensures activations == old(activations) + [Activation(activeClientContexts, sequence)]
      ensures forall k :: k != CONTEXT_ACTIVE && NotHolding(old(down), k) ==> NotHolding(down, k)
      ensures prevActiveContexts == old(activeContexts)
      ensures activeContexts == Activate(contexts, activeClientContexts, sequence, [])
      ensures Below(old(activeContexts)) && Below(activeContexts)
      ensures notified == old(notified) + Notifications(old(activeContexts), activeContexts)
      ensures AreNotified(old(activeContexts), old(Out()), Out())
    {
      hide Inv, Notifications, NotHolding, ValidConfig, GoodOnRelease, BalancedOutputs, Stage.AreNotified, Stage.OutputsValid, Activate;
      prevActiveContexts := activeContexts;
      EvaluateContexts();
      NotifyChanges();
      RecordActivation(prevActiveContexts);
    }

    /** Both passes: first the contexts that are not active any more, then the new ones. */
    method NotifyChanges()
      requires OutputsValid() && ContextsValid() && ValidIndices(contexts, prevActiveContexts)
      modifies `down, `buffer, `temporaryReapplied, `currentTimeout, `onRelease, `notified
      ensures OutputsValid()
      ensures forall k :: k != CONTEXT_ACTIVE && NotHolding(old(down), k) ==> NotHolding(down, k)
      ensures Below(prevActiveContexts) && Below(activeContexts)
      ensures notified == old(notified) + Notifications(prevActiveContexts, activeContexts)
      ensures AreNotified(prevActiveContexts, old(Out()), Out())
    {
      hide Inv, Toggled, Notes, NotHolding, ValidConfig, GoodOnRelease, Noted, NotedAll, BalancedOutputs;
      ghost var o, env := Out(), Env();
      assert GoodOnRelease(onRelease, false);
      NotifyToggled(false);
      NotifyToggled(true);
      ConfigHasChains(contexts);
      NotedSplit(contexts, activeContexts, o, Notes(Toggled(prevActiveContexts, activeContexts, 0, 0, false), false),
                 Notes(Toggled(prevActiveContexts, activeContexts, 0, 0, true), true), env);
    }

    /** The same, for the state as a value. */
    method RefreshActiveContexts()
      requires OutputsValid() && ContextsValid() && NotificationsValid() && SeqInv(sequence) && H.HistoryInv(history)
      modifies `activeContexts, `prevActiveContexts, `down, `buffer, `temporaryReapplied, `currentTimeout, `onRelease
      modifies `activeRun, `activations, `notified
      ensures OutputsValid() && ContextsValid() && NotificationsValid()
      ensures forall k :: k != CONTEXT_ACTIVE && NotHolding(old(down), k) ==> NotHolding(down, k)
      ensures Sound(contexts, old(Snap())) && Snap() == WithContexts(contexts, old(Snap()))
    {
      hide Inv, NotHolding, Stage.OutputsValid, Stage.ContextsValid, Stage.NotificationsValid;
      hide SeqInv, H.HistoryInv, GoodOnRelease, Activate, NotedAll, Notifications, NotesInRange, Below, ValidConfig;
      StateIsSound();
      UpdateActiveContexts();
    }

    /** Records for the specification which contexts are active now. */
    ghost method RecordActivation(prev: seq<int>)
      requires ContextsValid() && Below(prev) && Below(activeContexts)
      requires activeRun != [] && activeRun[0] == [] && activeRun[|activeRun| - 1] == prev
      requires forall i :: 0 <= i < |activeRun| ==> Below(activeRun[i])
      requires notified == RunNotifications(activeRun) + Notifications(prev, activeContexts)
      requires ActivatedBy(contexts, activeRun, activations)
      requires activeContexts == Activate(contexts, activeClientContexts, sequence, [])
      modifies `activeRun, `activations
      ensures NotificationsValid() && activeRun == old(activeRun) + [activeContexts]
      ensures activations == old(activations) + [Activation(activeClientContexts, sequence)]
    {
      hide Notifications, Activate, ValidConfig, Below;
      RunExtended(activeRun, activeContexts);
      activeRun := activeRun + [activeContexts];
      activations := activations + [Activation(activeClientContexts, sequence)];
    }

    method CancelInactiveOutputOnRelease()
      requires OutputsValid() && ContextsValid()
      modifies `onRelease
      ensures OutputsValid()
      ensures onRelease == OfActiveContexts(contexts, activeContexts, old(onRelease))
    {
      hide Inv, GoodOnRelease, BalancedOutputs, IsContextActive, OfActiveContexts, ValidConfig;
      ConfigHasChains(contexts);
      var outputs := onRelease;
      var kept: seq<OnReleaseOutput> := [];
      var i := 0;
      ghost var all := OfActiveContexts(contexts, activeContexts, outputs);
      assert outputs[0..] == outputs && [] + all == all;
      while i < |outputs|
        invariant i <= |outputs| && onRelease == outputs && OutputsValid()
        invariant kept + OfActiveContexts(contexts, activeContexts, outputs[i..]) == all
      {
        FirstOfActive(contexts, activeContexts, kept, outputs, i);
        if IsContextActive(contexts, activeContexts, outputs[i].contextIndex) {
          kept := kept + [outputs[i]];
        }
        i := i + 1;
      }
      assert OfActiveContexts(contexts, activeContexts, []) == [] by { NoneOfActive(); }
      assert outputs[i..] == [] && kept + [] == kept;
      OfActiveIsGood(contexts, activeContexts, outputs, false);
      if BalancedOutputs(contexts) {
        OfActiveIsGood(contexts, activeContexts, outputs, true);
      }
      onRelease := kept;
    }

    lemma NoneOfActive()
      requires ContextsValid()
      ensures ChainsEnd(contexts) && OfActiveContexts(contexts, activeContexts, []) == []
    {
    }

    // -------------------------------------------------------------------------
    // Mappings

    method FindOutputOf(context: nat, outputIndex: int) returns (output: Option<OutputRef>)
      requires ContextsValid() && context < |contexts| && outputIndex < |contexts[context].outputs|
      ensures output == FindOutput(contexts, activeContexts, context, outputIndex)
      ensures output.Some? ==> ValidRef(contexts, output.value)
    {
      if outputIndex >= 0 {
        return Option.Some(Direct(context, outputIndex));
      }
      var i := |activeContexts|;
      while i > 0
        invariant 0 <= i <= |activeContexts|
        invariant FindCommand(contexts, activeContexts, i, outputIndex)
          == FindCommand(contexts, activeContexts, |activeContexts|, outputIndex)
      {
        i := i - 1;
        var index := FallthroughContext(activeContexts[i]);
        var commands := contexts[index].commandOutputs;
        var n := LowerBound(commands, outputIndex);
        BoundIsCommand(commands, outputIndex, n);
        if n < |commands| && commands[|commands| - 1 - n].index == outputIndex {
          return Option.Some(Command(index, |commands| - 1 - n));
        }
      }
      output := None;
    }

    ghost function SearchFor(first: bool, matchedAreOptional: bool, n: nat, device: int): Search
      requires SeqInv(sequence) && H.HistoryInv(history) && n <= |sequence|
      reads this
    {
      HistoryIsReal(history, {}, {});
      Search(contexts, activeContexts, history, sequence[..n], first, matchedAreOptional, device)
    }

    /** The first mapping that matches the first `n` events, or might match. */
    method MatchInput(first: bool, matchedAreOptional: bool, n: nat, device: int) returns (selection: Selection)
      requires ContextsValid() && SeqInv(sequence) && H.HistoryInv(history) && 0 < n <= |sequence|
      modifies `anyKeys, matcher
      ensures selection == SearchFor(first, matchedAreOptional, n, device).Select()
      ensures selection.result != MightMatch ==> selection.timeout == NO_EVENT
      ensures selection.result == MatchResult.Match ==>
        && selection.trigger.Some? && selection.output.Some? && ValidRef(contexts, selection.output.value)
        && anyKeys == KeysOfAny(SearchFor(first, matchedAreOptional, n, device), selection)
      ensures anyKeys == SearchFor(first, matchedAreOptional, n, device).KeysFrom(0, old(anyKeys))
    {
      hide Search.Try, Search.KeysTried, Search.KeysInContext, SeqInv;
      ghost var search := SearchFor(first, matchedAreOptional, n, device);
      var a := 0;
      while a < |activeContexts|
        invariant a <= |activeContexts|
        invariant search.From(a) == search.Select()
        invariant search.KeysFrom(a, anyKeys) == search.KeysFrom(0, old(anyKeys))
      {
        var index := activeContexts[a];
        if MatchesDevice(contexts[index], device) {
          index := FallthroughContext(index);
          var found;
          found, selection := MatchInContext(first, matchedAreOptional, n, device, index);
          if found {
            return;
          }
        }
        a := a + 1;
      }
      selection := NOTHING;
    }

    method MatchInContext(first: bool, matchedAreOptional: bool, n: nat, device: int, index: nat)
      returns (found: bool, selection: Selection)
      requires ContextsValid() && SeqInv(sequence) && H.HistoryInv(history) && 0 < n <= |sequence|
      requires index < |contexts|
      modifies `anyKeys, matcher
      ensures SearchFor(first, matchedAreOptional, n, device).InContext(index, 0)
        == if found then Option.Some(selection) else None
      ensures selection.result != MightMatch ==> selection.timeout == NO_EVENT
      ensures found && selection.result == MatchResult.Match ==>
        && selection.trigger.Some? && selection.output.Some? && ValidRef(contexts, selection.output.value)
        && anyKeys == KeysOfAny(SearchFor(first, matchedAreOptional, n, device), selection)
      ensures anyKeys == SearchFor(first, matchedAreOptional, n, device).KeysInContext(index, 0, old(anyKeys))
    {
      hide Search.Try, Search.KeysTried, SeqInv;
      ghost var search := SearchFor(first, matchedAreOptional, n, device);
      var inputs := contexts[index].inputs;
      var i := 0;
      while i < |inputs|
        invariant i <= |inputs|
        invariant search.InContext(index, i) == search.InContext(index, 0)
        invariant search.KeysInContext(index, i, anyKeys) == search.KeysInContext(index, 0, old(anyKeys))
      {
        found, selection := TryInput(first, matchedAreOptional, n, device, index, inputs[i]);
        if found {
          return;
        }
        i := i + 1;
      }
      found, selection := false, NOTHING;
    }

    method TryInput(first: bool, matchedAreOptional: bool, n: nat, device: int, index: nat, contextInput: Input)
      returns (found: bool, selection: Selection)
      requires ContextsValid() && SeqInv(sequence) && H.HistoryInv(history) && 0 < n <= |sequence|
      requires index < |contexts| && contextInput.outputIndex < |contexts[index].outputs|
      modifies `anyKeys, matcher
      ensures SearchFor(first, matchedAreOptional, n, device).Try(index, contextInput)
        == if found then Option.Some(selection) else None
      ensures selection.result != MightMatch ==> selection.timeout == NO_EVENT
      ensures found && selection.result == MatchResult.Match ==>
        && selection.trigger.Some? && selection.output.Some? && ValidRef(contexts, selection.output.value)
        && anyKeys == KeysOfAny(SearchFor(first, matchedAreOptional, n, device), selection)
      ensures anyKeys == SearchFor(first, matchedAreOptional, n, device).KeysTried(contextInput.input, old(anyKeys))
    {
      hide Matching, SeqInv;
      found, selection := false, NOTHING;
      HistoryIsReal(history, {}, {});
      RealSequence(sequence);
      var input := contextInput.input;
      var noMightMatchMapping := IsNoMightMatchInput(input);
      if noMightMatchMapping && (!first || history == []) {
        return;
      }
      if noMightMatchMapping && device == ANY_DEVICE {
        return;
      }
      var acceptMightMatch := first && !noMightMatchMapping;
      var result, keys, timeout := matcher.Match(input, if noMightMatchMapping then history else sequence[..n], matchedAreOptional);
      anyKeys := keys;
      if acceptMightMatch && result == MightMatch {
        return true, Selection(MightMatch, None, Option.Some(input), index, timeout);
      }
      if result == MatchResult.Match {
        var output := FindOutputOf(index, contextInput.outputIndex);
        if output.Some? {
          return true, Selection(MatchResult.Match, output, Option.Some(input), index, NO_EVENT);
        }
      }
    }

    /** When a held back sequence can no longer match: the longest prefix that
        does, and the mapping it matches. */
    method FindLongestPrefix(device: int) returns (n: nat, selection: Selection)
      requires ContextsValid() && SeqInv(sequence) && H.HistoryInv(history)
      modifies `anyKeys, matcher
      ensures n == LongestPrefix(SearchFor(true, true, |sequence|, device), |sequence|)
      ensures n < |sequence| || n == 0
      ensures n > 0 ==>
        && HasNonOptional(sequence[..n]) && selection.result == MatchResult.Match && selection.timeout == NO_EVENT
        && selection == SearchFor(false, true, n, device).Select()
        && selection.trigger.Some? && selection.output.Some? && ValidRef(contexts, selection.output.value)
        && anyKeys == KeysOfAny(SearchFor(false, true, n, device), selection)
      ensures n == 0 ==> anyKeys == KeysOfPrefixes(SearchFor(true, true, |sequence|, device), |sequence|, old(anyKeys))
    {
      hide Search.Select, SeqInv;
      ghost var search := SearchFor(true, true, |sequence|, device);
      assert sequence[..|sequence|] == sequence;
      n := |sequence|;
      while n > 1
        invariant n <= |sequence|
        invariant LongestPrefix(search, n) == LongestPrefix(search, |sequence|)
        invariant KeysOfPrefixes(search, n, anyKeys) == KeysOfPrefixes(search, |sequence|, old(anyKeys))
      {
        n := n - 1;
        assert InPrefix(search, n) == SearchFor(false, true, n, device);
        if !HasNonOptional(sequence[..n]) {
          break;
        }
        selection := MatchInput(false, true, n, device);
        if selection.result == MatchResult.Match {
          return;
        }
      }
      n, selection := 0, NOTHING;
    }

    // -------------------------------------------------------------------------
    // History

    /** Adds an event; `elapsed` is the time since the last one. */
    method AddHistoryEvent(event: KeyEvent, elapsed: Value)
      modifies `history
      ensures history == H.AddEvent(old(history), event, KeyEvent(TIMEOUT, HistoryTiming, elapsed))
    {
      var it := RFindKey(history, event.key);
      var isDuplicate :=
        if event.state == Down then it >= 0 && history[it].state == Down
        else it < 0 || history[it].state != Down;
      if isDuplicate {
        return;
      }
      var timing := KeyEvent(TIMEOUT, HistoryTiming, elapsed);
      if history != [] {
        var last := |history| - 1;
        if history[last].state == HistoryTiming {
          history := history[last := history[last].(value := SumTimeouts(timing.value, history[last].value))];
        } else {
          history := history + [timing];
        }
      }
      history := history + [event];
    }

    /** Some input with `?` of an active context might still match. */
    method IsHistoryNeeded() returns (needed: bool)
      requires ContextsValid() && H.HistoryInv(history) && history != []
      modifies matcher
      ensures needed == Blocks(contexts, activeContexts, history)
    {
      hide Matching;
      HistoryIsReal(history, {}, {});
      var a := 0;
      while a < |activeContexts|
        invariant a <= |activeContexts|
        invariant forall n, i :: 0 <= n < a && 0 <= i < |contexts[activeContexts[n]].inputs| ==>
          !BlocksInput(contexts[activeContexts[n]].inputs[i].input, history)
      {
        var inputs := contexts[activeContexts[a]].inputs;
        var i := 0;
        while i < |inputs|
          invariant i <= |inputs|
          invariant forall j :: 0 <= j < i ==> !BlocksInput(inputs[j].input, history)
        {
          if IsNoMightMatchInput(inputs[i].input) {
            var result, _, _ := matcher.Match(inputs[i].input[1..], history, true);
            if result == MightMatch {
              assert BlocksInput(contexts[activeContexts[a]].inputs[i].input, history);
              return true;
            }
          }
          i := i + 1;
        }
        a := a + 1;
      }
      needed := false;
    }

    method CleanUpHistory()
      requires ContextsValid() && H.HistoryInv(history)
      modifies `history, matcher
      ensures H.HistoryInv(history) && (history == [] || history[0].state == Down)
      ensures history == H.CleanUp(old(history), Blocking(contexts, activeContexts))
    {
      hide Blocks;
      ghost var blocks := Blocking(contexts, activeContexts);
      H.CleanUpKeeps(history, blocks);
      while history != []
        invariant H.HistoryInv(history)
        invariant H.CleanUp(history, blocks) == H.CleanUp(old(history), blocks)
        decreases |history|
      {
        var event := history[0];
        if event.state == HistoryTiming {
          FrontIsGone(history);
          history := history[1..];
          continue;
        }
        if event.state == Up {
          assert IsCommonModifier(event.key);
          FrontIsGone(history);
          history := history[1..];
          continue;
        }
        assert event.state == Down;
        if !HasEvent(history, event.key, Up) {
          return;
        }
        var needed := IsHistoryNeeded();
        if needed {
          return;
        }
        H.PressGone(history);
        history := history[1..];
        if !IsCommonModifier(event.key) {
          var up := FindEvent(history, event.key, Up);
          assert up >= 0;
          history := Erase(history, up);
        }
      }
    }

    // -------------------------------------------------------------------------
    // Input

    method SuppressTimeout(event: KeyEvent) returns (suppress: bool)
      modifies `currentTimeout
      ensures (currentTimeout, suppress) == SwallowTimeout(old(currentTimeout), event)
    {
      suppress := false;
      if currentTimeout.Some? && IsNotTimeoutState(currentTimeout.value.event.state) {
        if event.key == TIMEOUT {
          if currentTimeout.value.event.value == event.value {
            currentTimeout := Option.Some(currentTimeout.value.(notExceeded := true));
          } else if currentTimeout.value.notExceeded {
            suppress := true;
          }
        } else if event.state == Up && currentTimeout.value.trigger == event.key {
          currentTimeout := Option.Some(currentTimeout.value.(notExceeded := false));
        }
      }
    }

    /** Merges key repeats. A repeat is ignored while the sequence might match,
        and if it is neither of the device that pressed last nor of the one that
        repeated last. Releases and new presses end the repeating of a device. */
    method MergeKeyRepeat(event: KeyEvent, device: int) returns (ignored: bool)
      modifies `sequence, `lastPressedDevice, `lastRepeatDevice
      ensures ignored <==>
        && event.state == Down && IsRepeat(old(sequence), event.key)
        && (sequenceMightMatch || (device != NO_DEVICE && device !in {old(lastPressedDevice), old(lastRepeatDevice)}))
      ensures sequence == if ignored then old(sequence) else Merged(old(sequence), event)
      ensures lastPressedDevice ==
        if event.state == Down && !IsRepeat(old(sequence), event.key) && device >= 0 then device else old(lastPressedDevice)
      ensures lastRepeatDevice ==
        if event.state == Down && IsRepeat(old(sequence), event.key) then
          (if !sequenceMightMatch && device == old(lastPressedDevice) != NO_DEVICE then device else old(lastRepeatDevice))
        else if device == old(lastRepeatDevice) && (event.state != Down || device >= 0) then NO_DEVICE
        else old(lastRepeatDevice)
    {
      hide RFindKey, Erase;
      ignored := false;
      if event.state == Down {
        var it := RFindKey(sequence, event.key);
        if it >= 0 && sequence[it].state != Up {
          if sequenceMightMatch {
            return true;
          }
          if device != NO_DEVICE {
            if device == lastPressedDevice {
              lastRepeatDevice := device;
            }
            if device != lastRepeatDevice {
              return true;
            }
          }
          sequence := Erase(sequence, it);
        } else if device >= 0 {
          if device == lastRepeatDevice {
            lastRepeatDevice := NO_DEVICE;
          }
          lastPressedDevice := device;
        }
      } else if device == lastRepeatDevice {
        lastRepeatDevice := NO_DEVICE;
      }
    }

    /** What a release does to the sequence before the search for mappings. */
    method ReleaseInSequence(event: KeyEvent)
      requires SeqInv(sequence) && event.state == Up && FindKey(sequence, event.key) >= 0
      modifies `sequence
      ensures SeqInv(sequence)
      ensures sequence == ReleasedIn(old(sequence), event.key, TimeoutMatched(currentTimeout), sequenceMightMatch)
    {
      hide SeqInv;
      if currentTimeout.Some? && currentTimeout.value.matchedOutput.Some? {
        AllMatchedKeeps(sequence);
        sequence := AllMatched(sequence);
      }
      if !sequenceMightMatch {
        WithoutMatchedPressKeeps(sequence, event.key);
        var it := FindKey(sequence, event.key);
        assert it >= 0;
        if sequence[it].state == DownMatched {
          sequence := Erase(sequence, it);
        }
      }
    }

    method ClearSuppressed()
      requires OutputsValid()
      modifies `down
      ensures OutputsValid()
      ensures down == Unsuppressed(old(down))
    {
      hide Inv, GoodOnRelease, BalancedOutputs;
      if BalancedOutputs(contexts) {
        UnsuppressedKeeps(Now(), sent);
      }
      var isUnsuppressedCommonModifierDown :=
        exists i :: 0 <= i < |down| && IsCommonModifier(down[i].key) && !down[i].suppressed;
      ghost var all := Unsuppressed(down);
      var i := 0;
      while i < |down|
        invariant i <= |down| == |old(down)|
        invariant forall j :: 0 <= j < i ==> down[j] == all[j]
        invariant forall j :: i <= j < |down| ==> down[j] == old(down)[j]
      {
        if !(IsCommonModifier(down[i].key) && isUnsuppressedCommonModifierDown) {
          down := down[i := down[i].(suppressed := false)];
        }
        i := i + 1;
      }
      assert down == all;
    }

    /** Requests a timeout event and tracks the timeout. */
    method RequestTimeoutEvent(timeout: KeyEvent, n: nat)
      requires OutputsValid() && n <= |sequence| && timeout.key == TIMEOUT
      modifies `buffer, `currentTimeout
      ensures OutputsValid() && Out() == Requested(old(Out()), timeout, sequence[..n])
    {
      hide Inv, GoodOnRelease, BalancedOutputs;
      if BalancedOutputs(contexts) {
        RequestKeeps(Now(), sent, timeout);
      }
      buffer := buffer + [timeout];
      var press := LastPress(sequence[..n]);
      if 0 <= press < n {
        var key := sequence[press].key;
        if currentTimeout.None? || !currentTimeout.value.event.Same(timeout) || currentTimeout.value.trigger != key {
          currentTimeout := Option.Some(CurrentTimeout(timeout, key, None, false, false));
        }
      }
    }

    /** Drops a match which the current timeout does not allow. */
    method ConsiderTimeout(event: KeyEvent, selected: MatchResult, output: Option<OutputRef>, matchedStartOnly: bool)
      returns (result: MatchResult)
      modifies `currentTimeout
      requires selected != MightMatch
      ensures result == if selected == MatchResult.Match && Drops(old(currentTimeout), event, output) then NoMatch else selected
      ensures currentTimeout ==
        if result == NoMatch then TimeoutOfNone(old(currentTimeout), event)
        else TimeoutOfMatch(old(currentTimeout), event, output, matchedStartOnly)
    {
      result := selected;
      if currentTimeout.Some? && !IsNotTimeoutState(currentTimeout.value.event.state) {
        if event.key == TIMEOUT {
          if result == MatchResult.Match {
            if currentTimeout.value.matchedOutput.None? {
              if !matchedStartOnly {
                currentTimeout := Option.Some(currentTimeout.value.(matchedOutput := output));
              }
            } else if currentTimeout.value.matchedOutput != output {
              if !currentTimeout.value.virtualKeysChanged {
                result := NoMatch;
              }
            }
          }
        } else if result == NoMatch {
          currentTimeout := Option.Some(currentTimeout.value.(matchedOutput := None));
        }
      }
      if currentTimeout.Some? && IsNotTimeoutState(currentTimeout.value.event.state) {
        if result == NoMatch {
          currentTimeout := Option.Some(currentTimeout.value.(notExceeded := true));
        }
      }
    }

    /** Applies the output of a match of the first `n` events. */
    method ApplyMatch(event: KeyEvent, ref: OutputRef, input: Expression, contextIndex: int, n: nat)
      requires OutputsValid() && ContextsValid() && SeqInv(sequence) && ValidRef(contexts, ref)
      requires n <= |sequence| && HasNonOptional(sequence[..n])
      modifies `sequence, `down, `buffer, `temporaryReapplied, `currentTimeout, `onRelease
      ensures OutputsValid() && SeqInv(sequence)
      ensures sequence == Finish(old(sequence), 0, n) && Weight(sequence) < Weight(old(sequence))
      ensures var output := OutputAt(contexts, ref);
        var trigger := ChooseTrigger(input, output, event, old(sequence), old(currentTimeout));
        ValidOutput(output) && Out() == ApplySide(old(Out()), output, trigger, contextIndex, old(Env()))
    {
      hide Inv, SeqInv, Apply, Weight, PartsBalanced, ChooseTrigger;
      OutputIsGood(contexts, ref);
      var output := OutputAt(contexts, ref);
      ApplyGoodOutput(output, ChooseTrigger(input, output, event, sequence, currentTimeout), contextIndex);
      FinishKeeps(sequence, 0, n);
      FinishProgress(sequence, 0, n);
      PrefixHasNonOptional(sequence, n);
      FinishSequence(n);
    }

    /** When a held back sequence failed, look for an exact match in its start. */
    method PreferPrefix(selected: Selection, device: int) returns (n: nat, selection: Selection, matchedStartOnly: bool)
      requires ContextsValid() && SeqInv(sequence) && H.HistoryInv(history)
      requires selected.result == MatchResult.Match ==>
        && selected.trigger.Some? && selected.output.Some? && ValidRef(contexts, selected.output.value)
      requires selected.result != MightMatch ==> selected.timeout == NO_EVENT
      modifies `anyKeys, matcher
      ensures n <= |sequence| && (HasNonOptional(sequence) ==> HasNonOptional(sequence[..n]))
      ensures selection.result == MatchResult.Match ==>
        && selection.trigger.Some? && selection.output.Some? && ValidRef(contexts, selection.output.value)
      ensures selection.result != MightMatch ==> selection.timeout == NO_EVENT
      ensures selected.result != NoMatch ==> selection == selected && n == |sequence|
      ensures selected.result == NoMatch ==>
        var search := SearchFor(true, true, |sequence|, device);
        var m := if sequenceMightMatch then LongestPrefix(search, |sequence|) else 0;
        if m > 0 then
          && n == m && selection == InPrefix(search, m).Select() && selection.result == MatchResult.Match
          && anyKeys == KeysOfAny(InPrefix(search, m), selection)
        else selection == selected && n == |sequence|
      ensures selected.result == NoMatch && selection == selected ==>
        anyKeys == if sequenceMightMatch then KeysOfPrefixes(SearchFor(true, true, |sequence|, device), |sequence|, old(anyKeys))
                   else old(anyKeys)
      ensures selected.result != NoMatch ==> anyKeys == old(anyKeys)
      ensures matchedStartOnly <==> n < |sequence|
    {
      hide SeqInv, H.HistoryInv, Search.Select, LongestPrefix, ValidConfig;
      n, selection, matchedStartOnly := |sequence|, selected, false;
      assert sequence[..|sequence|] == sequence;
      if selected.result == NoMatch && sequenceMightMatch {
        ghost var search := SearchFor(true, true, |sequence|, device);
        var m, prefix := FindLongestPrefix(device);
        if m > 0 {
          assert InPrefix(search, m) == SearchFor(false, true, m, device);
          n, selection, matchedStartOnly := m, prefix, true;
        }
      }
    }

    /** The output of the selected mapping; the first `n` events matched. */
    method ApplySelection(event: KeyEvent, selection: Selection, n: nat)
      requires ContextsValid() && OutputsValid() && SeqInv(sequence)
      requires n <= |sequence| && HasNonOptional(sequence[..n])
      requires selection.trigger.Some? && selection.output.Some? && ValidRef(contexts, selection.output.value)
      modifies `sequence, `sequenceMightMatch, `down, `buffer, `temporaryReapplied, `currentTimeout, `onRelease
      ensures OutputsValid() && SeqInv(sequence)
      ensures ValidOutput(OutputAt(contexts, selection.output.value))
      ensures Snap() == ApplySelected(contexts, old(Snap()), event, n, selection)
    {
      hide Inv, SeqInv, ApplySide, Weight, ChooseTrigger, Finish, ValidConfig, ValidOutput, BalancedOutputs, GoodOnRelease;
      ghost var all := n == |sequence|;
      var matchedStartOnly := n < |sequence|;
      ApplyMatch(event, selection.output.value, selection.trigger.value, selection.context, n);
      if !matchedStartOnly {
        sequenceMightMatch := false;
      }
    }

    method ForwardBeginning()
      requires OutputsValid() && SeqInv(sequence)
      modifies `sequence, `sequenceMightMatch, `down, `buffer, `temporaryReapplied, `currentTimeout
      ensures OutputsValid() && SeqInv(sequence)
      ensures Snap() == Forwarding(old(Snap()))
    {
      hide Inv, SeqInv, Forwarded, ForwardedOutput, FirstUnsettled, BalancedOutputs, GoodOnRelease;
      ForwardKeeps(sequence);
      ForwardFromSequence();
      if sequenceMightMatch && !HasNonOptional(sequence) {
        sequenceMightMatch := false;
      }
    }

    /** The end of a round: the output of a match, or forwarding. */
    method ConcludeRound(event: KeyEvent, selection: Selection, n: nat, matchedStartOnly: bool)
      requires ContextsValid() && OutputsValid() && SeqInv(sequence)
      requires n <= |sequence| && HasNonOptional(sequence[..n])
      requires matchedStartOnly <==> n < |sequence|
      requires selection.result != MightMatch
      requires selection.result == MatchResult.Match ==>
        && selection.trigger.Some? && selection.output.Some? && ValidRef(contexts, selection.output.value)
      modifies `sequence, `sequenceMightMatch, `down, `buffer, `temporaryReapplied, `currentTimeout, `onRelease
      ensures OutputsValid() && SeqInv(sequence)
      ensures selection.result == MatchResult.Match ==> ValidOutput(OutputAt(contexts, selection.output.value))
      ensures Snap() == Concluded(contexts, old(Snap()), event, n, selection)
    {
      hide Inv, SeqInv, ValidConfig, BalancedOutputs, GoodOnRelease, ApplySelected, Forwarding, ValidOutput, Drops;
      hide TimeoutOfMatch, TimeoutOfNone;
      if selection.result == MatchResult.Match {
        OutputIsGood(contexts, selection.output.value);
        GoodIsValid(OutputAt(contexts, selection.output.value), BalancedOutputs(contexts));
      }
      var result := ConsiderTimeout(event, selection.result, selection.output, matchedStartOnly);
      if result == MatchResult.Match {
        ApplySelection(event, selection, n);
      } else {
        ForwardBeginning();
      }
    }

    lemma ValidIsSound()
      requires Valid()
      ensures Sound(contexts, Snap())
    {
      StateIsSound();
    }

    lemma StateIsSound()
      requires ContextsValid() && OutputsValid() && SeqInv(sequence) && H.HistoryInv(history)
      ensures Sound(contexts, Snap())
    {
      hide SeqInv, H.HistoryInv, ValidConfig, Inv, GoodOnRelease;
    }

    /** One round of the loop over the input that is not processed yet. */
    method ProcessRound(event: KeyEvent, device: int, matchedAreOptional: bool) returns (done: bool, optional: bool)
      requires ContextsValid() && OutputsValid() && SeqInv(sequence) && H.HistoryInv(history)
      requires HasNonOptional(sequence) && IsInputEvent(event)
      modifies `sequence, `sequenceMightMatch, `down, `buffer, `temporaryReapplied, `currentTimeout, `onRelease, `anyKeys, matcher
      ensures OutputsValid() && SeqInv(sequence)
      ensures RoundResult(Snap(), done, optional) == Round(contexts, old(Snap()), event, device, matchedAreOptional)
    {
      hide Inv, SeqInv, H.HistoryInv, KeysOfAny, Weight, Search.Select, LongestPrefix, Finish, ValidConfig, GoodOnRelease;
      hide Stage.OutputsValid, Requested, Search.KeysFrom, HasNonOptional, ValidOutput, Round, BalancedOutputs;
      ghost var before := Snap();
      StateIsSound();
      RoundWaits(contexts, before, event, device, matchedAreOptional);
      optional := matchedAreOptional;
      assert sequence[..|sequence|] == sequence;
      assert sequence != [] by { assert HasNonOptional(sequence); NotEmpty(sequence); }
      var selected := MatchInput(true, matchedAreOptional, |sequence|, device);
      if selected.result != MatchResult.Match && !matchedAreOptional {
        return false, true;
      }
      if IsVirtualKey(event.key) && selected.result != MatchResult.Match {
        FinishKeeps(sequence, 0, |sequence|);
        FinishSequence(|sequence|);
        return true, optional;
      }
      if selected.result == MightMatch {
        if selected.timeout.key == TIMEOUT {
          RequestTimeoutEvent(selected.timeout, |sequence|);
        }
        sequenceMightMatch := true;
        return true, optional;
      }
      SettleRound(event, device, selected, before, matchedAreOptional);
      done := false;
    }

    /** The rest of a round in which nothing might match: the output of a match of
        the whole sequence or of its longest matching prefix, or forwarding. */
    method SettleRound(event: KeyEvent, device: int, selected: Selection, ghost before: Machine, ghost optional: bool)
      requires ContextsValid() && OutputsValid() && SeqInv(sequence) && H.HistoryInv(history)
      requires HasNonOptional(sequence) && IsInputEvent(event)
      requires Sound(contexts, before) && Snap() == before.(anyKeys := anyKeys)
      requires var search := SearchOf(contexts, before, optional, device);
        && selected == search.Select() && anyKeys == search.KeysFrom(0, before.anyKeys)
        && (selected.result == MatchResult.Match ==> anyKeys == KeysOfAny(search, selected))
      requires selected.result != MightMatch && selected.timeout == NO_EVENT
      requires selected.result != MatchResult.Match ==> optional && !IsVirtualKey(event.key)
      requires selected.result == MatchResult.Match ==>
        && selected.trigger.Some? && selected.output.Some? && ValidRef(contexts, selected.output.value)
      modifies `sequence, `sequenceMightMatch, `down, `buffer, `temporaryReapplied, `currentTimeout, `onRelease, `anyKeys, matcher
      ensures OutputsValid() && SeqInv(sequence)
      ensures RoundResult(Snap(), false, optional) == Round(contexts, before, event, device, optional)
    {
      hide Inv, SeqInv, H.HistoryInv, KeysOfAny, Weight, Search.Select, LongestPrefix, ValidConfig, GoodOnRelease;
      hide Stage.OutputsValid, Concluded, KeysOfPrefixes, Search.KeysFrom, HasNonOptional, ValidOutput, Round, BalancedOutputs;
      assert sequence[..|sequence|] == sequence;
      var n, selection, matchedStartOnly := PreferPrefix(selected, device);
      RoundConcludes(contexts, before, event, device, optional, n, selection, anyKeys);
      ConcludeRound(event, selection, n, matchedStartOnly);
    }

    /** Takes an event into the sequence and the history. */
    method TakeInput(event: KeyEvent, device: int, elapsed: Value) returns (ignored: bool)
      requires SeqInv(sequence) && H.HistoryInv(history) && IsInputEvent(event)
      modifies `sequence, `lastPressedDevice, `lastRepeatDevice, `history
      ensures SeqInv(sequence) && H.HistoryInv(history)
      ensures ignored == old(IgnoresRepeat(Snap(), event, device))
      ensures (lastPressedDevice, lastRepeatDevice) == old(TrackedDevices(Snap(), event, device))
      ensures sequence == if ignored then old(sequence) else Merged(old(sequence), event) + [event]
      ensures history == if ignored then old(history) else WithHistory(contexts, old(history), event, elapsed)
    {
      hide SeqInv, H.HistoryInv;
      InputKeeps(sequence, event);
      ignored := MergeKeyRepeat(event, device);
      if ignored {
        return;
      }
      sequence := sequence + [event];
      if HasMarkedInput(contexts) && !IsVirtualKey(event.key) && event.key != TIMEOUT {
        H.AddKeeps(history, event, KeyEvent(TIMEOUT, HistoryTiming, elapsed));
        AddHistoryEvent(event, elapsed);
      }
    }

    /** The loop over the input that is not processed yet. It ends because every
        round makes the sequence lighter, or is the one that makes matched events
        optional. */
    method ProcessSequence(event: KeyEvent, device: int)
      requires ContextsValid() && OutputsValid() && SeqInv(sequence) && H.HistoryInv(history) && IsInputEvent(event)
      modifies `sequence, `sequenceMightMatch, `down, `buffer, `temporaryReapplied, `currentTimeout, `onRelease, `anyKeys, matcher
      ensures OutputsValid() && SeqInv(sequence)
      ensures Snap() == Rounds(contexts, old(Snap()), event, device, false)
    {
      hide SeqInv, Inv, H.HistoryInv, ValidConfig, Weight, Round, GoodOnRelease, BalancedOutputs;
      var matchedAreOptional := false;
      while HasNonOptional(sequence)
        invariant OutputsValid() && SeqInv(sequence)
        invariant Rounds(contexts, Snap(), event, device, matchedAreOptional) == Rounds(contexts, old(Snap()), event, device, false)
        decreases Weight(sequence) + (if matchedAreOptional then 0 else 1)
      {
        RoundKeeps(contexts, Snap(), event, device, matchedAreOptional);
        var done;
        done, matchedAreOptional := ProcessRound(event, device, matchedAreOptional);
        if done {
          return;
        }
      }
    }

    method RemoveMatchedTimeouts()
      requires SeqInv(sequence)
      modifies `sequence
      ensures SeqInv(sequence) && sequence == WithoutMatchedTimeouts(old(sequence))
      ensures HasNonOptional(sequence) ==> HasNonOptional(old(sequence))
    {
      hide SeqInv;
      while sequence != [] && sequence[0].state == UpMatched
        invariant SeqInv(sequence)
        invariant WithoutMatchedTimeouts(sequence) == WithoutMatchedTimeouts(old(sequence))
        invariant HasNonOptional(sequence) ==> HasNonOptional(old(sequence))
        decreases |sequence|
      {
        EraseKeeps(sequence, 0);
        assert Erase(sequence, 0) == sequence[1..];
        RestHasNonOptional(sequence);
        sequence := sequence[1..];
      }
    }

    method ResetReapplied()
      requires OutputsValid()
      modifies `temporaryReapplied
      ensures OutputsValid() && !temporaryReapplied
    {
      hide Inv, GoodOnRelease, BalancedOutputs;
      if BalancedOutputs(contexts) {
        FlagIsFree(Now(), sent);
      }
      temporaryReapplied := false;
    }

    /** Processes one input event: the function `AfterInput`. Only repeated presses
        and suppressed timeouts are ignored, every other event is fully processed;
        and nothing is held any more by a key that was released. */
    method ApplyInput(event: KeyEvent, device: int, elapsed: Value) returns (ghost ignored: bool)
      requires Valid() && IsInputEvent(event)
      modifies this, matcher
      ensures Valid() && sent == old(sent) && fed == old(fed) + [event]
      ensures Sound(contexts, old(Snap()))
      ensures (Snap(), ignored) == AfterInput(contexts, old(Snap()), event, device, elapsed)
      ensures event.state == Up && !ignored ==> NotHolding(down, event.key)
    {
      hide SeqInv, H.HistoryInv, NotHolding, Stage.OutputsValid, Stage.ContextsValid, Stage.NotificationsValid;
      hide Taken, Searching, Rounds, Ended, Sound;
      StateIsSound();
      ghost var before := Snap();
      fed := fed + [event];
      var skip := BeginInput(event, device, elapsed);
      ignored := skip;
      if skip {
        return;
      }
      PrepareSearch(event);
      ProcessSequence(event, device);
      FinishInput(event);
    }

    /** Takes an event into the sequence, unless it is ignored. */
    method BeginInput(event: KeyEvent, device: int, elapsed: Value) returns (ignored: bool)
      requires Valid() && IsInputEvent(event)
      modifies `down, `buffer, `temporaryReapplied, `currentTimeout, `onRelease
      modifies `sequence, `lastPressedDevice, `lastRepeatDevice, `history
      ensures ContextsValid() && OutputsValid() && NotificationsValid() && SeqInv(sequence) && H.HistoryInv(history)
      ensures ignored ==> history == old(history)
      ensures !ignored ==> sequence != [] && sequence[|sequence| - 1] == event
      ensures Sound(contexts, old(Snap()))
      ensures (Snap(), ignored) == Taken(contexts, old(Snap()), event, device, elapsed)
    {
      hide SeqInv, H.HistoryInv, NotHolding, Stage.OutputsValid, Stage.ContextsValid, Stage.NotificationsValid, Stage.Now;
      hide FindOnRelease, Merged, SwallowTimeout, IsRepeat, ContinueSide, WithHistory, Sound, GoodOnRelease;
      StateIsSound();
      ignored := true;
      var proceed := ContinueOutputOnRelease(event, -1);
      if !proceed {
        return;
      }
      var suppress := SuppressTimeout(event);
      if suppress {
        return;
      }
      ignored := TakeInput(event, device, elapsed);
    }

    /** The contexts anew, and what a release does to the sequence. */
    method PrepareSearch(event: KeyEvent)
      requires ContextsValid() && OutputsValid() && NotificationsValid() && SeqInv(sequence) && H.HistoryInv(history)
      requires sequence != [] && sequence[|sequence| - 1] == event
      modifies `activeContexts, `prevActiveContexts, `down, `buffer, `temporaryReapplied, `currentTimeout, `onRelease
      modifies `activeRun, `activations, `notified, `sequence
      ensures ContextsValid() && OutputsValid() && NotificationsValid() && SeqInv(sequence)
      ensures Sound(contexts, old(Snap())) && Snap() == Searching(contexts, old(Snap()), event)
    {
      hide SeqInv, H.HistoryInv, NotHolding, Stage.OutputsValid, Stage.ContextsValid, Stage.NotificationsValid;
      hide WithContexts, ReleasedIn, Unsuppressed, Sound, GoodOnRelease;
      StateIsSound();
      RefreshActiveContexts();
      if event.state == Up {
        ReleaseInSequence(event);
      }
      ClearSuppressed();
    }

    /** What follows once an event is processed. */
    method FinishInput(event: KeyEvent)
      requires ContextsValid() && OutputsValid() && NotificationsValid() && SeqInv(sequence) && H.HistoryInv(history)
      requires IsInputEvent(event)
      modifies `activeContexts, `prevActiveContexts, `down, `buffer, `temporaryReapplied, `currentTimeout, `onRelease
      modifies `activeRun, `activations, `notified, `sequence, `history, matcher
      ensures Valid()
      ensures Sound(contexts, old(Snap())) && Snap() == Ended(contexts, old(Snap()), event)
      ensures event.state == Up ==> NotHolding(down, event.key)
    {
      hide SeqInv, H.HistoryInv, NotHolding, Stage.OutputsValid, Stage.ContextsValid, Stage.NotificationsValid;
      hide WithContexts, ReleaseSide, Tidied, Sound, GoodOnRelease;
      StateIsSound();
      if event.state == Up {
        ReleaseHeld(event.key, -1);
      }
      RefreshActiveContexts();
      TidyUp();
    }

    /** Forgets what no later event needs. */
    method TidyUp()
      requires ContextsValid() && OutputsValid() && SeqInv(sequence) && H.HistoryInv(history)
      modifies `sequence, `currentTimeout, `temporaryReapplied, `history, matcher
      ensures OutputsValid() && SeqInv(sequence) && H.HistoryInv(history) && (history == [] || history[0].state == Down)
      ensures Snap() == Tidied(contexts, old(Snap()))
    {
      hide SeqInv, H.HistoryInv, WithoutMatchedTimeouts, H.CleanUp, Blocking, GoodOnRelease, BalancedOutputs, Inv, ValidConfig;
      RemoveMatchedTimeouts();
      if sequence == [] {
        currentTimeout := None;
      }
      ResetReapplied();
      CleanUpHistory();
    }

    /** Processes one input event and hands out what it caused. */
    method Update(event: KeyEvent, device: int, elapsed: Value) returns (output: KeySequence)
      requires Valid() && IsInputEvent(event)
      modifies this, matcher
      ensures Valid() && buffer == [] && sent == old(sent) + output && fed == old(fed) + [event]
      ensures Sound(contexts, old(Snap()))
      ensures var next := AfterInput(contexts, old(Snap()), event, device, elapsed).0;
        output == next.side.ledger.buffer && Snap() == HandedOut(next)
    {
      hide SeqInv, H.HistoryInv, ValidConfig, NotHolding, RunNotifications, AfterInput, Sound;
      var _ := ApplyInput(event, device, elapsed);
      output := HandOut();
    }

    method HandOut() returns (output: KeySequence)
      requires OutputsValid()
      modifies `buffer, `sent
      ensures OutputsValid() && output == old(buffer) && buffer == [] && sent == old(sent) + output
    {
      hide Inv, GoodOnRelease, BalancedOutputs;
      if BalancedOutputs(contexts) {
        HandOutKeeps(Now(), sent);
      }
      output := buffer;
      sent := sent + buffer;
      buffer := [];
    }

    method SetClientContexts(indices: seq<int>)
      requires ContextsValid() && ValidIndices(contexts, indices) && Ascending(indices)
      modifies `activeClientContexts
      ensures ContextsValid() && activeClientContexts == indices
    {
      activeClientContexts := indices;
    }

    /** Applies what the change of the active contexts means, cancels what waits
        in contexts that are not active any more, and hands out the output. */
    method SetActiveClientContexts(indices: seq<int>) returns (output: KeySequence)
      requires Valid() && ValidIndices(contexts, indices) && Ascending(indices)
      modifies this
      ensures Valid() && buffer == [] && sent == old(sent) + output
      ensures Sound(contexts, old(Snap()))
      ensures var next := AfterContexts(contexts, old(Snap()), indices);
        output == next.side.ledger.buffer && Snap() == HandedOut(next)
    {
      hide SeqInv, Inv, H.HistoryInv, ValidConfig, NotHolding, GoodOutput, WithContexts, OfActiveContexts, Sound;
      hide GoodOnRelease, BalancedOutputs, Stage.OutputsValid, Stage.ContextsValid, Stage.NotificationsValid, Ascending;
      ValidIsSound();
      SetClientContexts(indices);
      RefreshActiveContexts();
      CancelInactiveOutputOnRelease();
      output := HandOut();
    }

    method CollectUnheld(isDown: Key -> bool) returns (releases: KeySequence)
      ensures releases == ReleasesOfUnheld(down, isDown)
    {
      releases := [];
      var i := 0;
      assert down[0..] == down && [] + ReleasesOfUnheld(down, isDown) == ReleasesOfUnheld(down, isDown);
      while i < |down|
        invariant i <= |down|
        invariant releases + ReleasesOfUnheld(down[i..], isDown) == ReleasesOfUnheld(down, isDown)
      {
        ghost var later := ReleasesOfUnheld(down[i + 1..], isDown);
        assert down[i..][0] == down[i] && down[i..][1..] == down[i + 1..];
        if IsDeviceKey(down[i].key) && !isDown(TriggerKey(down[i].trigger)) {
          Associative(releases, [Release(down[i].key)], later);
          releases := releases + [Release(down[i].key)];
        } else {
          assert [] + later == later;
        }
        i := i + 1;
      }
      assert down[i..] == [] && releases + [] == releases;
    }

    /** Forgets the keys that are not down, and feeds the releases of the output
        keys that they held, in order. What that outputs is handed out together
        with the output of the next input. */
    method ValidateState(isDown: Key -> bool, elapsed: Value)
      requires Valid()
      modifies this, matcher
      ensures Valid() && sent == old(sent) && fed == old(fed) + ReleasesOfUnheld(old(down), isDown)
      ensures var forgotten := old(Snap()).(sequence := Validated(old(sequence), 0, isDown), mightMatch := false);
        && Sound(contexts, forgotten)
        && Snap() == AfterInputs(contexts, forgotten, ReleasesOfUnheld(old(down), isDown), ANY_DEVICE, elapsed)
    {
      hide SeqInv, Inv, H.HistoryInv, ValidConfig, NotHolding, RunNotifications, GoodOnRelease, ReleasesOfUnheld, AfterInputs;
      sequenceMightMatch := false;
      ValidatedKeeps(sequence, 0, isDown);
      RemoveNotDown(isDown);
      var releases := CollectUnheld(isDown);
      ApplyReleases(releases, elapsed);
    }

    method ApplyReleases(releases: KeySequence, elapsed: Value)
      requires Valid() && forall i :: 0 <= i < |releases| ==> releases[i].state == Up && IsDeviceKey(releases[i].key)
      modifies this, matcher
      ensures Valid() && sent == old(sent) && fed == old(fed) + releases
      ensures Sound(contexts, old(Snap()))
      ensures Snap() == AfterInputs(contexts, old(Snap()), releases, ANY_DEVICE, elapsed)
    {
      hide SeqInv, Inv, H.HistoryInv, ValidConfig, NotHolding, RunNotifications, GoodOnRelease, Stage.Valid, AfterInput, Sound, Stage.Snap;
      ValidIsSound();
      ghost var before, all := fed, AfterInputs(contexts, Snap(), releases, ANY_DEVICE, elapsed);
      var i := 0;
      assert before + releases[..0] == before && releases[0..] == releases;
      while i < |releases|
        invariant i <= |releases| && Valid() && sent == old(sent) && fed == before + releases[..i]
        invariant Sound(contexts, Snap()) && AfterInputs(contexts, Snap(), releases[i..], ANY_DEVICE, elapsed) == all
      {
        assert before + releases[..i + 1] == before + releases[..i] + [releases[i]];
        assert releases[i..][0] == releases[i] && releases[i..][1..] == releases[i + 1..];
        var _ := ApplyInput(releases[i], ANY_DEVICE, elapsed);
        i := i + 1;
      }
      assert releases[..i] == releases && releases[i..] == [];
    }

    method RemoveNotDown(isDown: Key -> bool)
      modifies `sequence
      ensures sequence == Validated(old(sequence), 0, isDown)
    {
      var i := 0;
      while i < |sequence|
        invariant i <= |sequence|
        invariant Validated(sequence, i, isDown) == Validated(old(sequence), 0, isDown)
        decreases |sequence| - i
      {
        if IsDeviceKey(sequence[i].key) && !isDown(sequence[i].key) {
          sequence := Erase(sequence, i);
        } else {
          i := i + 1;
        }
      }
    }
  }

  /** In every reachable state the contexts were told Down, Up, Down, ... in turns
      if and only if at no activation a client context overtook another; and then
      each was last told whether it is active. */
  lemma StageNotificationsTakeTurns(stage: Stage)
    requires stage.Valid()
    ensures AllTakeTurns(stage.notified) <==> NothingOvertook(stage.contexts, stage.activations)
    ensures AllTakeTurns(stage.notified) ==>
      forall c :: ActiveAfter(About(stage.notified, c), false) == (c in stage.activeContexts)
  {
    hide AllTakeTurns, NothingOvertook, About, RunNotifications, ActiveAfter;
    RunTakesTurnsIff(stage.contexts, stage.activeRun, stage.activations);
    if AllTakeTurns(stage.notified) {
      forall c ensures ActiveAfter(About(stage.notified, c), false) == (c in stage.activeContexts) {
        RunEndsActive(stage.contexts, stage.activeRun, stage.activations, c);
      }
    }
  }

  /** So they do without device filters. */
  lemma WithoutDeviceFiltersTakesTurns(stage: Stage)
    requires stage.Valid() && WithoutDeviceFilters(stage.contexts)
    ensures AllTakeTurns(stage.notified)
  {
    hide AllTakeTurns, NothingOvertook;
    NothingOvertakesWithoutDeviceFilters(stage.contexts, stage.activeRun, stage.activations);
    StageNotificationsTakeTurns(stage);
  }

  /** In every reachable state of a stage whose outputs release only what they
      pressed, a key whose last emitted event is a press is held by exactly one
      entry; with no entry left every key is up. */
  lemma StageHasNoStuckKeys(stage: Stage, k: Key)
    requires stage.Valid() && BalancedOutputs(stage.contexts) && k != TIMEOUT
    ensures IsDown(stage.sent + stage.buffer, k) ==> Holds(stage.down, k)
    ensures Unique(stage.down)
    ensures stage.down == [] ==> !IsDown(stage.sent + stage.buffer, k)
  {
    assert Tracked(stage.down, stage.sent + stage.buffer, k);
  }
}
