/** What the methods of a stage compute, as functions of values: `src/runtime/Stage.cpp`. */
module StageModel {
  import opened Keys
  import opened Matcher
  import opened Outputs
  import opened LedgerTheorems
  import opened LedgerRuns
  import opened InputSequence
  import opened Contexts
  import opened Mappings
  import H = History

  /** The timeout an input waits for. */
  datatype CurrentTimeout = CurrentTimeout(
    event: KeyEvent,
    trigger: Key,
    matchedOutput: Option<OutputRef>,
    notExceeded: bool,
    virtualKeysChanged: bool)

  // ---------------------------------------------------------------------------
  // Configurations

  /** The output and every part of it behind a `^` release what they pressed. */
  predicate PartsBalanced(s: KeySequence) {
    && BalancedPart(s)
    && forall m :: 0 <= m < |s| && s[m].state == OutputOnRelease ==> BalancedPart(s[m + 1..])
  }

  /** An output the stage has a case for, and which releases what it pressed if
      that is asked for. */
  predicate GoodOutput(s: KeySequence, balanced: bool) { ValidOutput(s) && (balanced ==> PartsBalanced(s)) }

  predicate GoodOutputs(contexts: seq<Context>, balanced: bool) {
    && (forall c, i :: 0 <= c < |contexts| && 0 <= i < |contexts[c].outputs| ==>
          GoodOutput(contexts[c].outputs[i], balanced))
    && (forall c, i :: 0 <= c < |contexts| && 0 <= i < |contexts[c].commandOutputs| ==>
          GoodOutput(contexts[c].commandOutputs[i].output, balanced))
  }

  /** All outputs release only what they pressed. */
  predicate BalancedOutputs(contexts: seq<Context>) { GoodOutputs(contexts, true) }

  /** Outputs whose halves are balanced have balanced parts. */
  lemma BalancedOutputHasBalancedParts(s: KeySequence)
    requires BalancedOutput(s)
    ensures PartsBalanced(s)
  {
    forall m | 0 <= m < |s| && s[m].state == OutputOnRelease ensures BalancedPart(s[m + 1..]) {
      var rest := s[m + 1..];
      forall i | 0 <= i < |rest| && rest[i].state == Up ensures PressedIn(rest, 0, i, rest[i].key) {
        var n := m + 1 + i;
        assert s[n] == rest[i];
        var j :| 0 <= j < n && s[j].key == s[n].key && s[j].state == Down
                 && forall q :: j < q < n ==> s[q].state != OutputOnRelease;
        assert rest[j - m - 1] == s[j];
      }
    }
  }

  /** A configuration with the command outputs sorted. */
  predicate ValidConfig(contexts: seq<Context>) {
    GoodConfig(contexts) && forall c :: 0 <= c < |contexts| ==> Descending(contexts[c].commandOutputs)
  }

  lemma SortingIsValid(contexts: seq<Context>)
    requires GoodConfig(contexts)
    ensures ValidConfig(SortCommandOutputs(contexts))
    ensures BalancedOutputs(contexts) ==> BalancedOutputs(SortCommandOutputs(contexts))
  {
    hide GoodOutputs, ProperConfigInputs, DistinctCommands, Sorted;
    var sorted := SortCommandOutputs(contexts);
    forall c | 0 <= c < |sorted|
      ensures Descending(sorted[c].commandOutputs) && DistinctCommands(sorted[c].commandOutputs)
    {
      SortedSorts(contexts[c].commandOutputs);
      SortedDistinct(contexts[c].commandOutputs);
    }
    assert ProperConfigInputs(sorted) by { SameInputs(contexts); }
    SortingKeepsOutputs(contexts, false);
    if BalancedOutputs(contexts) {
      SortingKeepsOutputs(contexts, true);
    }
  }

  lemma SameInputs(contexts: seq<Context>)
    requires ProperConfigInputs(contexts)
    ensures ProperConfigInputs(SortCommandOutputs(contexts))
  {
    hide Sorted;
  }

  lemma SortingKeepsOutputs(contexts: seq<Context>, balanced: bool)
    requires GoodOutputs(contexts, balanced)
    ensures GoodOutputs(SortCommandOutputs(contexts), balanced)
  {
    hide GoodOutput, Sorted;
    var sorted := SortCommandOutputs(contexts);
    forall c, i | 0 <= c < |sorted| && 0 <= i < |sorted[c].commandOutputs|
      ensures GoodOutput(sorted[c].commandOutputs[i].output, balanced)
    {
      SortedSorts(contexts[c].commandOutputs);
      assert sorted[c].commandOutputs[i] in multiset(contexts[c].commandOutputs);
    }
  }

  predicate ProperConfigInputs(contexts: seq<Context>) {
    forall c, i :: 0 <= c < |contexts| && 0 <= i < |contexts[c].inputs| ==> ProperInput(contexts[c].inputs[i].input)
  }

  /** What a stage relies on; compiling, lowering and sending a configuration
      guarantee it. Outputs need not be balanced. */
  predicate GoodConfig(contexts: seq<Context>) {
    && ChainsEnd(contexts)
    && ValidOutputIndices(contexts)
    && GoodOutputs(contexts, false)
    && ProperConfigInputs(contexts)
    && (forall c :: 0 <= c < |contexts| ==> DistinctCommands(contexts[c].commandOutputs))
  }

  lemma ConfigHasChains(contexts: seq<Context>)
    requires ValidConfig(contexts)
    ensures ChainsEnd(contexts)
  {
  }

  predicate WithoutDeviceFilters(contexts: seq<Context>) {
    forall i :: 0 <= i < |contexts| ==> !contexts[i].hasDeviceFilter
  }

  lemma OutputIsGood(contexts: seq<Context>, ref: OutputRef)
    requires ValidConfig(contexts) && ValidRef(contexts, ref)
    ensures GoodOutput(OutputAt(contexts, ref), BalancedOutputs(contexts))
  {
    hide GoodOutput;
    assert GoodOutput(OutputAt(contexts, ref), false);
    assert BalancedOutputs(contexts) ==> GoodOutput(OutputAt(contexts, ref), true);
  }

  predicate GoodOnRelease(outputs: seq<OnReleaseOutput>, balanced: bool) {
    forall i :: 0 <= i < |outputs| ==> GoodOutput(outputs[i].sequence, balanced)
  }

  /** What is kept until the trigger is released is good as well. */
  lemma {:induction false} ApplyKeepsGoodOnRelease(o: OutputState, s: KeySequence, n: nat, trigger: Trigger,
                                                   contextIndex: int, env: Environment, balanced: bool)
    requires GoodOutput(s, balanced) && GoodOnRelease(o.onRelease, balanced) && n <= |s| && ValidOutput(s[n..])
    ensures GoodOnRelease(Apply(o, s[n..], trigger, contextIndex, env).onRelease, balanced)
    decreases |s| - n
  {
    hide ApplyEvent, BalancedPart;
    if n < |s| {
      var rest := s[n..];
      assert rest[0] == s[n] && rest[1..] == s[n + 1..];
      if rest[0].state == OutputOnRelease && TriggerEvent(trigger).state == Down {
        TailIsGood(s, n, balanced);
      } else if rest[0].state == OutputOnRelease {
        ApplyKeepsGoodOnRelease(o, s, n + 1, trigger, contextIndex, env, balanced);
      } else {
        ApplyKeepsGoodOnRelease(o.(ledger := ApplyEvent(o.ledger, rest[0], trigger, contextIndex, env)), s, n + 1,
                                trigger, contextIndex, env, balanced);
      }
    }
  }

  lemma TailIsGood(s: KeySequence, n: nat, balanced: bool)
    requires GoodOutput(s, balanced) && n < |s| && s[n].state == OutputOnRelease
    ensures GoodOutput(s[n + 1..], balanced)
  {
    hide BalancedPart;
    var rest := s[n + 1..];
    forall m | balanced && 0 <= m < |rest| && rest[m].state == OutputOnRelease ensures BalancedPart(rest[m + 1..]) {
      assert rest[m + 1..] == s[n + m + 2..];
    }
  }

  predicate HasOutputOnRelease(s: KeySequence) {
    exists i :: 0 <= i < |s| && s[i].state == OutputOnRelease
  }

  /** Command outputs are found by their index among sorted outputs: the same
      ones a scan of the configuration finds. */
  lemma CommandsAreFound(contexts: seq<Context>, active: seq<int>, index: int)
    requires GoodConfig(contexts) && ValidIndices(contexts, active)
    ensures ChainsEnd(SortCommandOutputs(contexts))
    ensures var sorted := SortCommandOutputs(contexts);
      var r := FindCommand(sorted, active, |active|, index);
      ScanContexts(contexts, active, |active|, index) == if r.None? then None else Option.Some(OutputAt(sorted, r.value))
  {
    FindCommandRefinesScan(contexts, active, |active|, index);
  }

  predicate IsPhysicallyPressed(sequence: KeySequence, k: Key) {
    var it := RFindKey(sequence, k);
    it >= 0 && sequence[it].state != Up
  }

  /** What the output of a match is held by. */
  function ChooseTrigger(input: Expression, output: KeySequence, event: KeyEvent, sequence: KeySequence,
                         timeout: Option<CurrentTimeout>): Trigger
  {
    var matched := InputTrigger(input);
    var t1 := if TriggerKey(matched) == ANY || event.key == TIMEOUT then EventTrigger(event) else matched;
    var t2 := if HasOutputOnRelease(output) then EventTrigger(event) else t1;
    var t3 := if TriggerKey(t2) == TIMEOUT && timeout.Some? then KeyTrigger(timeout.value.trigger) else t2;
    if IsPhysicallyPressed(sequence, TriggerKey(t3)) then t3
    else if |output| == 1 && output[0].Same(TriggerEvent(t3)) && HasEvent(sequence, TriggerKey(t3), Up) then t3
    else EventTrigger(event)
  }

  function LastPress(s: KeySequence): int {
    if s == [] then -1
    else if s[|s| - 1].IsPress() then |s| - 1
    else LastPress(s[..|s| - 1])
  }

  /** Some input with `?` of an active context might still match the history. */
  predicate Blocks(contexts: seq<Context>, active: seq<int>, h: KeySequence) {
    && (forall i :: 0 <= i < |h| ==> h[i].key != NONE)
    && ValidIndices(contexts, active)
    && exists n, i :: 0 <= n < |active| && 0 <= i < |contexts[active[n]].inputs|
         && BlocksInput(contexts[active[n]].inputs[i].input, h)
  }

  function Blocking(contexts: seq<Context>, active: seq<int>): KeySequence -> bool {
    h => Blocks(contexts, active, h)
  }

  predicate BlocksInput(input: Expression, h: RealEvents) {
    IsNoMightMatchInput(input) && Matching(input[1..], h, true).result == MightMatch
  }

  lemma {:induction false} HistoryIsReal(h: KeySequence, down: set<Key>, up: set<Key>)
    requires H.Alternating(h, down, up)
    ensures H.IsHistory(h)
    decreases |h|
  {
    if h != [] {
      var k := h[0].key;
      if k == TIMEOUT {
        HistoryIsReal(h[1..], down, up);
      } else if h[0].state == Down {
        HistoryIsReal(h[1..], down + {k}, up - {k});
      } else {
        HistoryIsReal(h[1..], down - {k}, up + {k});
      }
      assert forall i :: 0 < i < |h| ==> h[i] == h[1..][i - 1];
    }
  }

  /** No entry is held by the key. */
  predicate NotHolding(down: seq<OutputDown>, k: Key) {
    forall i :: 0 <= i < |down| ==> TriggerKey(down[i].trigger) != k
  }

  lemma {:induction false} ReapplyKeepsTriggers(l: Ledger, j: Key, i: nat, k: Key)
    requires NotHolding(l.down, k)
    ensures NotHolding(Reapply(l, j, i).0.down, k)
    decreases |l.down| - i
  {
    if i < |l.down| {
      var entry := l.down[i];
      if entry.temporarilyReleased && !entry.suppressed {
        var next := l.Set(i, entry.(temporarilyReleased := false)).Emit(Press(entry.key)).(reapplied := true);
        if entry.key != j {
          ReapplyKeepsTriggers(next, j, i + 1, k);
        }
      } else {
        ReapplyKeepsTriggers(l, j, i + 1, k);
      }
    }
  }

  lemma UpdateKeepsTriggers(l: Ledger, event: KeyEvent, trigger: Trigger, contextIndex: int, k: Key)
    requires IsOutputState(event.state) && NotHolding(l.down, k) && TriggerKey(trigger) != k
    ensures NotHolding(Update(l, event, trigger, contextIndex).down, k)
  {
    hide Reapply, UpdateUp, UpdateNot, PressKey, NotHolding, TriggerKey;
    match event.state
    case Up => UpKeepsTriggers(l, event, trigger, k);
    case Not => NotKeepsTriggers(l, event.key, k);
    case Down =>
      ReapplyKeepsTriggers(l, event.key, 0, k);
      PressKeepsTriggers(Reapply(l, event.key, 0).0, event, trigger, contextIndex, k);
    case _ =>
  }

  lemma UpKeepsTriggers(l: Ledger, event: KeyEvent, trigger: Trigger, k: Key)
    requires NotHolding(l.down, k)
    ensures NotHolding(UpdateUp(l, event, trigger).down, k)
  {
    hide TriggerKey;
    var it := FindDown(l.down, event.key);
    assert it >= 0 ==> NotHolding(Erase(l.down, it), k);
  }

  lemma NotKeepsTriggers(l: Ledger, j: Key, k: Key)
    requires NotHolding(l.down, k)
    ensures NotHolding(UpdateNot(l, j).down, k)
  {
    hide TriggerKey;
  }

  lemma PressKeepsTriggers(l: Ledger, event: KeyEvent, trigger: Trigger, contextIndex: int, k: Key)
    requires NotHolding(l.down, k) && TriggerKey(trigger) != k
    ensures NotHolding(PressKey(l, event, trigger, contextIndex).down, k)
  {
    hide TriggerKey;
  }

  lemma {:induction false} AllKeepTriggers(l: Ledger, keys: seq<Key>, state: KeyState, trigger: Trigger, contextIndex: int, k: Key)
    requires IsOutputState(state) && NotHolding(l.down, k) && TriggerKey(trigger) != k
    ensures NotHolding(UpdateAll(l, keys, state, trigger, contextIndex).down, k)
    decreases |keys|
  {
    hide Update, NotHolding;
    if keys != [] {
      UpdateKeepsTriggers(l, KeyEvent(keys[0], state, 0), trigger, contextIndex, k);
      AllKeepTriggers(Update(l, KeyEvent(keys[0], state, 0), trigger, contextIndex), keys[1..], state, trigger, contextIndex, k);
    }
  }

  lemma EventKeepsTriggers(l: Ledger, event: KeyEvent, trigger: Trigger, contextIndex: int, env: Environment, k: Key)
    requires IsOutputState(event.state) && NotHolding(l.down, k) && TriggerKey(trigger) != k
    ensures NotHolding(ApplyEvent(l, event, trigger, contextIndex, env).down, k)
  {
    hide Update, UpdateAll, NotHolding;
    AllKeepTriggers(l, if event.state == Not then DownKeys(l.down) else env.anyKeys, event.state, trigger, contextIndex, k);
    UpdateKeepsTriggers(l, event, trigger, contextIndex, k);
    UpdateKeepsTriggers(l, Press(event.key), trigger, contextIndex, k);
    UpdateKeepsTriggers(Update(l, Press(event.key), trigger, contextIndex), Release(event.key), trigger, contextIndex, k);
  }

  /** Applying an output holds keys only by its trigger. */
  lemma {:induction false} ApplyKeepsTriggers(o: OutputState, s: KeySequence, trigger: Trigger, contextIndex: int,
                                              env: Environment, k: Key)
    requires ValidOutput(s) && NotHolding(o.ledger.down, k) && TriggerKey(trigger) != k
    ensures NotHolding(Apply(o, s, trigger, contextIndex, env).ledger.down, k)
    decreases |s|
  {
    hide ApplyEvent, NotHolding;
    if s != [] {
      if s[0].state == OutputOnRelease {
        ApplyKeepsTriggers(o, s[1..], trigger, contextIndex, env, k);
      } else {
        EventKeepsTriggers(o.ledger, s[0], trigger, contextIndex, env, k);
        ApplyKeepsTriggers(o.(ledger := ApplyEvent(o.ledger, s[0], trigger, contextIndex, env)), s[1..], trigger, contextIndex, env, k);
      }
    }
  }

  lemma ReleasedNotHolding(l: Ledger, k: Key, contextIndex: int, j: Key)
    ensures k == j != CONTEXT_ACTIVE || NotHolding(l.down, j) ==>
      NotHolding(Outputs.ReleaseTriggered(l, k, contextIndex).down, j)
  {
    KeptEntries(l.down, k, contextIndex);
    var kept := Kept(l.down, k, contextIndex);
    forall i | 0 <= i < |kept| && (k == j != CONTEXT_ACTIVE || NotHolding(l.down, j))
      ensures TriggerKey(kept[i].trigger) != j
    {
      assert kept[i] in l.down;
    }
  }

  /** What one round of the loop in `apply_input` does, apart from timeouts. */
  datatype Decision =
    | Retry                                  // once more, with matched events optional
    | GiveUp                                 // a virtual key matches directly or never
    | HoldBack(timeout: KeyEvent)            // some mapping might still match
    | Output(n: nat, selection: Selection, anyKeys: seq<Key>)   // the first n events matched
    | ForwardFirst                           // no mapping can match

  function Decide(search: Search, mightMatch: bool, isVirtual: bool): Decision
    requires search.Valid()
  {
    var selected := search.Select();
    if selected.result != MatchResult.Match && !search.matchedAreOptional then Retry
    else if isVirtual && selected.result != MatchResult.Match then GiveUp
    else if selected.result == MatchResult.Match then
      Output(|search.sequence|, selected, KeysOfAny(search, selected))
    else if selected.result == MightMatch then HoldBack(selected.timeout)
    else
      var n := if mightMatch then LongestPrefix(search, |search.sequence|) else 0;
      if n > 0 then
        var prefix := InPrefix(search, n);
        Output(n, prefix.Select(), KeysOfAny(prefix, prefix.Select()))
      else ForwardFirst
  }

  /** The keys which the selected mapping unified with Any. */
  function KeysOfAny(search: Search, selection: Selection): seq<Key> {
    if selection.trigger.None? then [] else search.Match(selection.trigger.value).anyKeys
  }

  /** When nothing matches a held back sequence as a whole, the decision is the
      longest proper prefix which still has an Up or Down event and matches, and
      forwarding exactly when there is none. */
  lemma DecisionIsLongestPrefix(search: Search, isVirtual: bool)
    requires search.Valid() && search.matchedAreOptional && !isVirtual
    requires search.Select().result == NoMatch
    ensures match Decide(search, true, isVirtual)
      case Output(n, selection, _) =>
        && n < |search.sequence| && Candidate(search, n) && selection == InPrefix(search, n).Select()
        && forall m :: n < m < |search.sequence| ==> !Candidate(search, m)
      case ForwardFirst => forall m :: 0 <= m < |search.sequence| ==> !Candidate(search, m)
      case _ => false
  {
    hide Search.Select;
    LongestPrefixIsLongest(search, |search.sequence|);
  }

  /** The kinds of events a stage receives. */
  predicate IsInputEvent(event: KeyEvent) {
    && event.IsNonOptional()
    && (IsDeviceKey(event.key) || IsVirtualKey(event.key) || event.key == TIMEOUT || event.key == UNICODE_OUTPUT)
  }

  function VirtualKeysChanged(timeout: Option<CurrentTimeout>, changed: bool): Option<CurrentTimeout> {
    if timeout.Some? && changed then Option.Some(timeout.value.(virtualKeysChanged := true)) else timeout
  }

  lemma NothingTouched(trigger: Trigger)
    ensures !TouchesVirtual(AppliedPart([], trigger))
  {
  }

  lemma TouchesFirst(s: KeySequence, trigger: Trigger)
    requires s != []
    ensures TouchesVirtual(AppliedPart(s, trigger)) ==
      if s[0].state == OutputOnRelease && TriggerEvent(trigger).state == Down then false
      else (s[0].state != OutputOnRelease && IsVirtualKey(s[0].key)) || TouchesVirtual(AppliedPart(s[1..], trigger))
  {
    if !(s[0].state == OutputOnRelease && TriggerEvent(trigger).state == Down) {
      var rest := AppliedPart(s[1..], trigger);
      var all := AppliedPart(s, trigger);
      assert all[0] == s[0] && all[1..] == rest;
      if TouchesVirtual(all) && !(s[0].state != OutputOnRelease && IsVirtualKey(s[0].key)) {
        var i :| 0 <= i < |all| && all[i].state != OutputOnRelease && IsVirtualKey(all[i].key);
        assert rest[i - 1] == all[i];
      }
      if TouchesVirtual(rest) {
        var i :| 0 <= i < |rest| && rest[i].state != OutputOnRelease && IsVirtualKey(rest[i].key);
        assert all[i + 1] == rest[i];
      }
    }
  }

  function WithoutTimeoutOf(timeout: Option<CurrentTimeout>, key: Key): Option<CurrentTimeout> {
    if timeout.Some? && timeout.value.trigger == key then None else timeout
  }

  lemma {:induction false} LastReleased(entries: seq<OutputDown>)
    requires entries != []
    ensures var n := |entries| - 1;
      Releases(entries)
      == (if entries[n].temporarilyReleased then [] else [Release(entries[n].key)]) + Releases(entries[..n])
    decreases |entries|
  {
    var n := |entries| - 1;
    if n > 0 {
      LastReleased(entries[1..]);
      assert entries[1..][..n - 1] == entries[..n][1..];
      var first := if entries[0].temporarilyReleased then [] else [Release(entries[0].key)];
      var last := if entries[n].temporarilyReleased then [] else [Release(entries[n].key)];
      var middle := Releases(entries[1..n]);
      assert entries[..n][1..] == entries[1..n];
      assert last + middle + first == last + (middle + first);
    } else {
      assert entries[1..] == [] && entries[..0] == [];
      assert [] + (if entries[0].temporarilyReleased then [] else [Release(entries[0].key)])
          == (if entries[0].temporarilyReleased then [] else [Release(entries[0].key)]) + [];
    }
  }

  function FindOnRelease(outputs: seq<OnReleaseOutput>, key: Key, contextIndex: int): (r: int)
    ensures -1 <= r < |outputs|
    ensures r >= 0 ==> outputs[r].trigger == key
    ensures r < 0 && key != CONTEXT_ACTIVE ==> forall i :: 0 <= i < |outputs| ==> outputs[i].trigger != key
  {
    if outputs == [] then -1
    else if outputs[0].trigger == key && (key != CONTEXT_ACTIVE || outputs[0].contextIndex == contextIndex) then 0
    else
      var r := FindOnRelease(outputs[1..], key, contextIndex);
      if r < 0 then -1 else r + 1
  }

  predicate WaitsFor(output: OnReleaseOutput, key: Key, contextIndex: int) {
    output.trigger == key && (key != CONTEXT_ACTIVE || output.contextIndex == contextIndex)
  }

  /** What applying an output changes besides what waits. */
  datatype Effects = Effects(ledger: Ledger, timeout: Option<CurrentTimeout>)

  function ContinueOne(fx: Effects, output: OnReleaseOutput, event: KeyEvent, env: Environment): Effects
    requires ValidOutput(output.sequence)
  {
    var trigger := EventTrigger(event);
    Effects(Apply(OutputState(fx.ledger, []), output.sequence, trigger, output.contextIndex, env).ledger,
            VirtualKeysChanged(fx.timeout, TouchesVirtual(AppliedPart(output.sequence, trigger))))
  }

  /** All that waits for the release is output, in the order it was added. */
  function Continued(fx: Effects, outputs: seq<OnReleaseOutput>, event: KeyEvent, contextIndex: int, env: Environment): Effects
    requires GoodOnRelease(outputs, false)
    decreases |outputs|
  {
    if outputs == [] then fx
    else
      assert forall i :: 0 <= i < |outputs[1..]| ==> outputs[1..][i] == outputs[i + 1];
      var next := if WaitsFor(outputs[0], event.key, contextIndex) then ContinueOne(fx, outputs[0], event, env) else fx;
      Continued(next, outputs[1..], event, contextIndex, env)
  }

  /** What waits for something else. */
  function Waiting(outputs: seq<OnReleaseOutput>, key: Key, contextIndex: int): seq<OnReleaseOutput> {
    if outputs == [] then []
    else (if WaitsFor(outputs[0], key, contextIndex) then [] else [outputs[0]]) + Waiting(outputs[1..], key, contextIndex)
  }

  lemma WaitingIsGood(outputs: seq<OnReleaseOutput>, key: Key, contextIndex: int, balanced: bool)
    requires GoodOnRelease(outputs, balanced)
    ensures GoodOnRelease(Waiting(outputs, key, contextIndex), balanced)
  {
    hide GoodOutput;
    if outputs != [] {
      assert forall i :: 0 <= i < |outputs[1..]| ==> outputs[1..][i] == outputs[i + 1];
      WaitingIsGood(outputs[1..], key, contextIndex, balanced);
    }
  }

  /** The ledger does not depend on what already waits. */
  lemma {:induction false} AppliedLedger(o: OutputState, waiting: seq<OnReleaseOutput>, s: KeySequence, trigger: Trigger,
                                                contextIndex: int, env: Environment)
    requires ValidOutput(s)
    ensures Apply(o, s, trigger, contextIndex, env).ledger
      == Apply(o.(onRelease := waiting), s, trigger, contextIndex, env).ledger
    decreases |s|
  {
    hide Outputs.ApplyEvent;
    if s != [] {
      if s[0].state == OutputOnRelease {
        AppliedLedger(o, waiting, s[1..], trigger, contextIndex, env);
      } else {
        AppliedLedger(o.(ledger := Outputs.ApplyEvent(o.ledger, s[0], trigger, contextIndex, env)), waiting, s[1..],
                      trigger, contextIndex, env);
      }
    }
  }

  lemma {:induction false} NothingContinued(fx: Effects, outputs: seq<OnReleaseOutput>, event: KeyEvent,
                                            contextIndex: int, env: Environment)
    requires GoodOnRelease(outputs, false) && FindOnRelease(outputs, event.key, contextIndex) < 0
    ensures Continued(fx, outputs, event, contextIndex, env) == fx
    decreases |outputs|
  {
    if outputs != [] {
      hide GoodOnRelease, ContinueOne, Continued;
      ContinuedFirst(fx, outputs, event, contextIndex, env);
      NothingContinued(fx, outputs[1..], event, contextIndex, env);
    }
  }

  /** The first output that waits is the next one. */
  lemma {:induction false} ContinuedNext(fx: Effects, outputs: seq<OnReleaseOutput>, event: KeyEvent,
                                         contextIndex: int, env: Environment, it: nat)
    requires GoodOnRelease(outputs, false) && FindOnRelease(outputs, event.key, contextIndex) == it
    ensures ValidOutput(outputs[it].sequence)
    ensures var others := outputs[..it] + outputs[it + 1..];
      && GoodOnRelease(others, false)
      && Continued(fx, outputs, event, contextIndex, env)
         == Continued(ContinueOne(fx, outputs[it], event, env), others, event, contextIndex, env)
    decreases |outputs|
  {
    hide GoodOnRelease, ContinueOne, Continued, ValidOutput;
    OthersAreGood(outputs, it);
    ContinuedFirst(fx, outputs, event, contextIndex, env);
    if it > 0 {
      var rest := outputs[1..];
      ContinuedNext(fx, rest, event, contextIndex, env, it - 1);
      FirstKept(outputs, it - 1);
      ContinuedFirst(ContinueOne(fx, rest[it - 1], event, env), outputs[..it] + outputs[it + 1..], event, contextIndex, env);
    } else {
      assert outputs[..0] + outputs[1..] == outputs[1..];
    }
  }

  lemma OthersAreGood(outputs: seq<OnReleaseOutput>, it: nat)
    requires GoodOnRelease(outputs, false) && it < |outputs|
    ensures GoodOnRelease(outputs[..it] + outputs[it + 1..], false) && ValidOutput(outputs[it].sequence)
  {
    KeptAreGood(outputs[..it] + outputs[it + 1..], outputs);
    assert GoodOutput(outputs[it].sequence, false);
  }

  lemma {:induction false} WaitingNext(outputs: seq<OnReleaseOutput>, key: Key, contextIndex: int)
    ensures var it := FindOnRelease(outputs, key, contextIndex);
      Waiting(outputs, key, contextIndex)
        == if it < 0 then outputs else Waiting(outputs[..it] + outputs[it + 1..], key, contextIndex)
    decreases |outputs|
  {
    if outputs != [] {
      hide Waiting;
      var rest := outputs[1..];
      WaitingFirst(outputs, key, contextIndex);
      if WaitsFor(outputs[0], key, contextIndex) {
        assert outputs[..0] + outputs[1..] == rest;
      } else {
        WaitingNext(rest, key, contextIndex);
        var it := FindOnRelease(rest, key, contextIndex);
        if it < 0 {
          assert [outputs[0]] + rest == outputs;
        } else {
          FirstKept(outputs, it);
          WaitingFirst(outputs[..it + 1] + outputs[it + 2..], key, contextIndex);
        }
      }
    }
  }

  lemma WaitingFirst(outputs: seq<OnReleaseOutput>, key: Key, contextIndex: int)
    requires outputs != []
    ensures var others := Waiting(outputs[1..], key, contextIndex);
      Waiting(outputs, key, contextIndex) == if WaitsFor(outputs[0], key, contextIndex) then others else [outputs[0]] + others
  {
    assert [] + Waiting(outputs[1..], key, contextIndex) == Waiting(outputs[1..], key, contextIndex);
  }

  lemma FirstKept(outputs: seq<OnReleaseOutput>, it: nat)
    requires it + 1 < |outputs|
    ensures var others := outputs[..it + 1] + outputs[it + 2..];
      others != [] && others[0] == outputs[0] && others[1..] == outputs[1..][..it] + outputs[1..][it + 1..]
  {
  }

  lemma ContinuedFirst(fx: Effects, outputs: seq<OnReleaseOutput>, event: KeyEvent, contextIndex: int, env: Environment)
    requires outputs != [] && GoodOnRelease(outputs, false)
    ensures ValidOutput(outputs[0].sequence) && GoodOnRelease(outputs[1..], false)
    ensures var next := if WaitsFor(outputs[0], event.key, contextIndex) then ContinueOne(fx, outputs[0], event, env) else fx;
      Continued(fx, outputs, event, contextIndex, env) == Continued(next, outputs[1..], event, contextIndex, env)
  {
  }

  lemma WaitingOutput(output: OnReleaseOutput, balanced: bool)
    requires GoodOutput(output.sequence, false) && (balanced ==> GoodOutput(output.sequence, true))
    ensures GoodOutput(output.sequence, balanced) && ValidOutput(output.sequence)
  {
  }

  /** An output applied for a release is not split. */
  lemma {:induction false} NothingSplitAtRelease(o: OutputState, s: KeySequence, trigger: Trigger,
                                                        contextIndex: int, env: Environment)
    requires ValidOutput(s) && TriggerEvent(trigger).state != Down
    ensures Apply(o, s, trigger, contextIndex, env).onRelease == o.onRelease
    decreases |s|
  {
    hide Outputs.ApplyEvent;
    if s != [] {
      if s[0].state == OutputOnRelease {
        NothingSplitAtRelease(o, s[1..], trigger, contextIndex, env);
      } else {
        NothingSplitAtRelease(o.(ledger := Outputs.ApplyEvent(o.ledger, s[0], trigger, contextIndex, env)), s[1..],
                              trigger, contextIndex, env);
      }
    }
  }

  predicate TimeoutMatched(timeout: Option<CurrentTimeout>) {
    timeout.Some? && timeout.value.matchedOutput.Some?
  }

  /** What forwarding the first unsettled event does to the output: a press is
      pressed, held by itself, unless its release is still to come and a timeout
      matched; a release releases what the key holds. */
  function ForwardedOutput(l: Ledger, s: KeySequence, timeoutMatched: bool): Ledger {
    var i := FirstUnsettled(s, 0);
    if i == |s| || s[i].state == DownMatched then l
    else if s[i].state == Down then
      if timeoutMatched && !UpFollows(s, i) then l else UpdateDown(l, s[i], KeyTrigger(s[i].key), -1)
    else Outputs.ReleaseTriggered(l, s[i].key, -1)
  }

  function ContextActiveInput(inputs: seq<Input>): (r: int)
    ensures -1 <= r < |inputs|
  {
    if inputs == [] then -1
    else if inputs[0].input[0].key == CONTEXT_ACTIVE then 0
    else
      var r := ContextActiveInput(inputs[1..]);
      if r < 0 then -1 else r + 1
  }

  lemma GoodIsValid(s: KeySequence, balanced: bool)
    requires GoodOutput(s, balanced)
    ensures GoodOutput(s, false) && ValidOutput(s)
  {
  }

  /** The output side of a stage with the timeout it waits for. */
  datatype Side = Side(ledger: Ledger, onRelease: seq<OnReleaseOutput>, timeout: Option<CurrentTimeout>) {
    function Outputs(): OutputState { OutputState(ledger, onRelease) }
  }

  function ApplySide(side: Side, s: KeySequence, trigger: Trigger, contextIndex: int, env: Environment): Side
    requires ValidOutput(s)
  {
    var o := Apply(side.Outputs(), s, trigger, contextIndex, env);
    Side(o.ledger, o.onRelease, VirtualKeysChanged(side.timeout, TouchesVirtual(AppliedPart(s, trigger))))
  }

  function ReleaseSide(side: Side, key: Key, contextIndex: int): Side {
    side.(ledger := Outputs.ReleaseTriggered(side.ledger, key, contextIndex), timeout := WithoutTimeoutOf(side.timeout, key))
  }

  /** What waits for the release of the key is output. */
  function ContinueSide(side: Side, event: KeyEvent, contextIndex: int, env: Environment): (r: Side)
    requires GoodOnRelease(side.onRelease, false)
    ensures GoodOnRelease(r.onRelease, false)
  {
    WaitingIsGood(side.onRelease, event.key, contextIndex, false);
    var fx := Continued(Effects(side.ledger, side.timeout), side.onRelease, event, contextIndex, env);
    Side(fx.ledger, Waiting(side.onRelease, event.key, contextIndex), fx.timeout)
  }

  lemma ApplySideKeepsGood(side: Side, s: KeySequence, trigger: Trigger, contextIndex: int, env: Environment)
    requires GoodOutput(s, false) && GoodOnRelease(side.onRelease, false)
    ensures GoodOnRelease(ApplySide(side, s, trigger, contextIndex, env).onRelease, false)
  {
    hide Apply;
    assert s[0..] == s;
    ApplyKeepsGoodOnRelease(side.Outputs(), s, 0, trigger, contextIndex, env, false);
  }

  /** What a notification does to the output: a context that gets active applies
      the output of its mapping of ContextActive; one that gets inactive applies
      what waits behind `^` in that, and releases what it holds. */
  function Noted(contexts: seq<Context>, active: seq<int>, side: Side, note: Notification, env: Environment): (r: Side)
    requires ValidConfig(contexts) && ValidIndices(contexts, active) && 0 <= note.context < |contexts|
    requires GoodOnRelease(side.onRelease, false)
    ensures GoodOnRelease(r.onRelease, false)
  {
    hide GoodOutput, Apply;
    var c := note.context;
    var it := ContextActiveInput(contexts[c].inputs);
    if it < 0 then side
    else if note.activated then
      var output := FindOutput(contexts, active, c, contexts[c].inputs[it].outputIndex);
      if output.None? then side
      else
        OutputIsGood(contexts, output.value);
        GoodIsValid(OutputAt(contexts, output.value), BalancedOutputs(contexts));
        ApplySideKeepsGood(side, OutputAt(contexts, output.value), EventTrigger(Press(CONTEXT_ACTIVE)), c, env);
        ApplySide(side, OutputAt(contexts, output.value), EventTrigger(Press(CONTEXT_ACTIVE)), c, env)
    else ReleaseSide(ContinueSide(side, Release(CONTEXT_ACTIVE), c, env), CONTEXT_ACTIVE, c)
  }

  predicate NotesInRange(contexts: seq<Context>, notes: seq<Notification>) {
    forall i :: 0 <= i < |notes| ==> 0 <= notes[i].context < |contexts|
  }

  function NotedAll(contexts: seq<Context>, active: seq<int>, side: Side, notes: seq<Notification>,
                    env: Environment): (r: Side)
    requires ValidConfig(contexts) && ValidIndices(contexts, active) && NotesInRange(contexts, notes)
    requires GoodOnRelease(side.onRelease, false)
    ensures GoodOnRelease(r.onRelease, false)
    decreases |notes|
  {
    hide GoodOnRelease, ValidConfig;
    if notes == [] then side
    else NotedAll(contexts, active, Noted(contexts, active, side, notes[0], env), notes[1..], env)
  }

  lemma {:induction false} NotedSplit(contexts: seq<Context>, active: seq<int>, side: Side, a: seq<Notification>,
                                             b: seq<Notification>, env: Environment)
    requires ValidConfig(contexts) && ValidIndices(contexts, active) && NotesInRange(contexts, a) && NotesInRange(contexts, b)
    requires GoodOnRelease(side.onRelease, false)
    ensures NotesInRange(contexts, a + b)
    ensures NotedAll(contexts, active, side, a + b, env) == NotedAll(contexts, active, NotedAll(contexts, active, side, a, env), b, env)
    decreases |a|
  {
    hide GoodOnRelease, ValidConfig, Noted;
    if a == [] {
      assert a + b == b;
    } else {
      assert (a + b)[0] == a[0] && (a + b)[1..] == a[1..] + b;
      NotedSplit(contexts, active, Noted(contexts, active, side, a[0], env), a[1..], b, env);
    }
  }

  lemma NothingToggled(prev: seq<int>, curr: seq<int>, i: nat, j: nat, activated: bool)
    requires Below(prev) && Below(curr) && i == |prev| && j == |curr|
    ensures Notes(Toggled(prev, curr, i, j, activated), activated) == []
  {
  }

  /** One step of the merge. */
  lemma NextToggled(prev: seq<int>, curr: seq<int>, i: nat, j: nat, activated: bool)
    requires Below(prev) && Below(curr) && i <= |prev| && j <= |curr| && (i < |prev| || j < |curr|)
    ensures var p := if i < |prev| then prev[i] else MAX_INT;
      var c := if j < |curr| then curr[j] else MAX_INT;
      Notes(Toggled(prev, curr, i, j, activated), activated) ==
        if p < c then
          var later := Notes(Toggled(prev, curr, i + 1, j, activated), activated);
          if activated then later else [Notification(p, false)] + later
        else if c < p then
          var later := Notes(Toggled(prev, curr, i, j + 1, activated), activated);
          if activated then [Notification(c, true)] + later else later
        else Notes(Toggled(prev, curr, i + 1, j + 1, activated), activated)
  {
    hide Notes;
    var p := if i < |prev| then prev[i] else MAX_INT;
    var c := if j < |curr| then curr[j] else MAX_INT;
    if p < c {
      var later := Toggled(prev, curr, i + 1, j, activated);
      assert [] + later == later;
      Contexts.NotesFirst(p, later, activated);
    } else if c < p {
      var later := Toggled(prev, curr, i, j + 1, activated);
      assert [] + later == later;
      Contexts.NotesFirst(c, later, activated);
    }
  }

  lemma ToggledInRange(contexts: seq<Context>, prev: seq<int>, curr: seq<int>, activated: bool)
    requires ValidIndices(contexts, prev) && ValidIndices(contexts, curr) && Below(prev) && Below(curr)
    ensures NotesInRange(contexts, Notes(Toggled(prev, curr, 0, 0, activated), activated))
  {
    hide Toggled, Below;
    var toggled := Toggled(prev, curr, 0, 0, activated);
    ToggledListed(prev, curr, 0, 0, activated);
    forall i | 0 <= i < |toggled| ensures 0 <= toggled[i] < |contexts| {
      assert toggled[i] in toggled;
    }
  }

  lemma {:induction false} RunExtended(run: seq<seq<int>>, next: seq<int>)
    requires run != [] && Below(next) && forall i :: 0 <= i < |run| ==> Below(run[i])
    ensures RunNotifications(run + [next]) == RunNotifications(run) + Notifications(run[|run| - 1], next)
    decreases |run|
  {
    hide Notifications;
    var all := run + [next];
    if |run| == 1 {
      assert all[1..] == [next];
      assert all == [run[0], next];
      assert Notifications(run[0], next) + [] == [] + Notifications(run[0], next);
    } else {
      assert all[1..] == run[1..] + [next];
      RunExtended(run[1..], next);
    }
  }

  lemma KeptAreGood(kept: seq<OnReleaseOutput>, outputs: seq<OnReleaseOutput>)
    requires forall o :: o in kept ==> o in outputs
    ensures forall balanced :: GoodOnRelease(outputs, balanced) ==> GoodOnRelease(kept, balanced)
  {
    hide GoodOutput;
    forall balanced, i | GoodOnRelease(outputs, balanced) && 0 <= i < |kept| ensures GoodOutput(kept[i].sequence, balanced) {
      assert kept[i] in kept;
    }
  }

  lemma BoundIsCommand(commands: seq<CommandOutput>, index: int, n: nat)
    requires Descending(commands) && IsLowerBound(commands, index, n)
    ensures CommandAt(commands, index) ==
      if n < |commands| && commands[|commands| - 1 - n].index == index then |commands| - 1 - n else -1
  {
    var r := CommandAt(commands, index);
    if r >= 0 && n < |commands| {
      assert commands[r].index >= commands[|commands| - 1 - n].index || r > |commands| - 1 - n;
    }
  }

  lemma RealSequence(s: KeySequence)
    requires SeqInv(s)
    ensures forall i :: 0 <= i < |s| ==> s[i].key != NONE
  {
  }

  lemma FrontIsGone(h: KeySequence)
    requires H.HistoryInv(h) && h != [] && h[0].state != Down
    ensures H.HistoryInv(h[1..])
  {
    if h[0].state == Up {
      H.ReleaseGone(h[1..], h[0].key);
    }
  }

  /** A timeout which matched once lets another output match only if virtual
      keys changed in between. */
  predicate Drops(timeout: Option<CurrentTimeout>, event: KeyEvent, output: Option<OutputRef>) {
    && event.key == TIMEOUT
    && TimeoutMatched(timeout) && timeout.value.matchedOutput != output
    && !IsNotTimeoutState(timeout.value.event.state) && !timeout.value.virtualKeysChanged
  }

  lemma PrefixHasNonOptional(s: KeySequence, n: nat)
    requires n <= |s| && HasNonOptional(s[..n])
    ensures exists j :: 0 <= j < n && s[j].IsNonOptional()
  {
    var j :| 0 <= j < |s[..n]| && s[..n][j].IsNonOptional();
    assert s[j] == s[..n][j];
  }

  lemma NotEmpty(s: KeySequence)
    requires HasNonOptional(s)
    ensures s != []
  {
  }

  lemma RestHasNonOptional(s: KeySequence)
    requires s != []
    ensures HasNonOptional(s[1..]) ==> HasNonOptional(s)
  {
    if HasNonOptional(s[1..]) {
      var i :| 0 <= i < |s[1..]| && s[1..][i].IsNonOptional();
      assert s[i + 1] == s[1..][i];
    }
  }

  /** The output keys whose trigger is not down: their releases, in order. */
  function ReleasesOfUnheld(down: seq<OutputDown>, isDown: Key -> bool): (r: KeySequence)
    ensures forall i :: 0 <= i < |r| ==> r[i].state == Up && IsDeviceKey(r[i].key)
  {
    if down == [] then []
    else
      (if IsDeviceKey(down[0].key) && !isDown(TriggerKey(down[0].trigger)) then [Release(down[0].key)] else [])
      + ReleasesOfUnheld(down[1..], isDown)
  }

  // ---------------------------------------------------------------------------
  // One input event

  /** The state of a stage, without its configuration. */
  datatype Machine = Machine(
    client: seq<int>,
    active: seq<int>,
    sequence: KeySequence,
    mightMatch: bool,
    pressedDevice: int,
    repeatDevice: int,
    history: KeySequence,
    side: Side,
    anyKeys: seq<Key>,
    toggle: bool)
  {
    function Env(): Environment { Environment(sequence, anyKeys, toggle) }

    /** Nothing is left to process, unless it is held back for a mapping that
        might still match. */
    predicate Processed() { HasNonOptional(sequence) ==> mightMatch }
  }

  predicate Sound(contexts: seq<Context>, m: Machine) {
    && ValidConfig(contexts)
    && ValidIndices(contexts, m.client) && ValidIndices(contexts, m.active)
    && SeqInv(m.sequence) && H.HistoryInv(m.history)
    && GoodOnRelease(m.side.onRelease, false)
  }

  lemma IndicesAreBelow(contexts: seq<Context>, indices: seq<int>)
    requires ChainsEnd(contexts) && ValidIndices(contexts, indices)
    ensures Below(indices)
  {
  }

  lemma NotificationsInRange(contexts: seq<Context>, prev: seq<int>, curr: seq<int>)
    requires ChainsEnd(contexts) && ValidIndices(contexts, prev) && ValidIndices(contexts, curr)
    ensures Below(prev) && Below(curr) && NotesInRange(contexts, Notifications(prev, curr))
  {
    hide Toggled, Notes;
    IndicesAreBelow(contexts, prev);
    IndicesAreBelow(contexts, curr);
    ToggledInRange(contexts, prev, curr, false);
    ToggledInRange(contexts, prev, curr, true);
  }

  /** The active contexts anew, and what their change outputs. */
  function WithContexts(contexts: seq<Context>, m: Machine): (r: Machine)
    requires Sound(contexts, m)
    ensures Sound(contexts, r) && r == m.(active := r.active, side := r.side)
  {
    hide SeqInv, H.HistoryInv, GoodOnRelease, Activate, NotedAll, Notifications, NotesInRange, Below;
    ConfigHasChains(contexts);
    var active := Activate(contexts, m.client, m.sequence, []);
    NotificationsInRange(contexts, m.active, active);
    m.(active := active, side := NotedAll(contexts, active, m.side, Notifications(m.active, active), m.Env()))
  }

  /** Once a not-timeout was exceeded its short timeouts are swallowed, until its
      trigger is released. */
  function SwallowTimeout(timeout: Option<CurrentTimeout>, event: KeyEvent): (r: (Option<CurrentTimeout>, bool)) {
    if timeout.None? || !IsNotTimeoutState(timeout.value.event.state) then (timeout, false)
    else if event.key == TIMEOUT then
      if timeout.value.event.value == event.value then (Option.Some(timeout.value.(notExceeded := true)), false)
      else (timeout, timeout.value.notExceeded)
    else if event.state == Up && timeout.value.trigger == event.key then
      (Option.Some(timeout.value.(notExceeded := false)), false)
    else (timeout, false)
  }

  predicate IgnoresRepeat(m: Machine, event: KeyEvent, device: int) {
    && event.state == Down && IsRepeat(m.sequence, event.key)
    && (m.mightMatch || (device != NO_DEVICE && device !in {m.pressedDevice, m.repeatDevice}))
  }

  /** Which device pressed last and which one repeats, after an event. */
  function TrackedDevices(m: Machine, event: KeyEvent, device: int): (int, int) {
    var repeats := event.state == Down && IsRepeat(m.sequence, event.key);
    (if event.state == Down && !repeats && device >= 0 then device else m.pressedDevice,
     if repeats then (if !m.mightMatch && device == m.pressedDevice != NO_DEVICE then device else m.repeatDevice)
     else if device == m.repeatDevice && (event.state != Down || device >= 0) then NO_DEVICE
     else m.repeatDevice)
  }

  predicate HasMarkedInput(contexts: seq<Context>) {
    exists c, i :: 0 <= c < |contexts| && 0 <= i < |contexts[c].inputs| && IsNoMightMatchInput(contexts[c].inputs[i].input)
  }

  function WithHistory(contexts: seq<Context>, h: KeySequence, event: KeyEvent, elapsed: Value): KeySequence {
    if HasMarkedInput(contexts) && !IsVirtualKey(event.key) && event.key != TIMEOUT
    then H.AddEvent(h, event, KeyEvent(TIMEOUT, HistoryTiming, elapsed))
    else h
  }

  lemma WithHistoryKeeps(contexts: seq<Context>, h: KeySequence, event: KeyEvent, elapsed: Value)
    requires H.HistoryInv(h) && IsInputEvent(event)
    ensures H.HistoryInv(WithHistory(contexts, h, event, elapsed))
  {
    hide H.AddEvent;
    if !IsVirtualKey(event.key) && event.key != TIMEOUT {
      H.AddKeeps(h, event, KeyEvent(TIMEOUT, HistoryTiming, elapsed));
    }
  }

  /** Takes an event into the sequence and the history; true when it is ignored. */
  function Taken(contexts: seq<Context>, m: Machine, event: KeyEvent, device: int, elapsed: Value): (r: (Machine, bool))
    requires Sound(contexts, m) && IsInputEvent(event)
    ensures Sound(contexts, r.0)
  {
    hide SeqInv, H.HistoryInv, GoodOnRelease, ContinueSide, WithHistory, Merged, ValidConfig;
    if event.state == Down && FindOnRelease(m.side.onRelease, event.key, -1) >= 0 then (m, true)
    else
      var side := if event.state == Up then ContinueSide(m.side, event, -1, m.Env()) else m.side;
      var (timeout, swallowed) := SwallowTimeout(side.timeout, event);
      var next := m.(side := side.(timeout := timeout));
      if swallowed then (next, true)
      else
        var (pressed, repeating) := TrackedDevices(m, event, device);
        if IgnoresRepeat(m, event, device) then (next.(pressedDevice := pressed, repeatDevice := repeating), true)
        else
          InputKeeps(m.sequence, event);
          WithHistoryKeeps(contexts, m.history, event, elapsed);
          (next.(sequence := Merged(m.sequence, event) + [event], pressedDevice := pressed, repeatDevice := repeating,
                 history := WithHistory(contexts, m.history, event, elapsed)),
           false)
  }

  /** What a release does to the sequence before the search for mappings. */
  function ReleasedIn(s: KeySequence, k: Key, timeoutMatched: bool, mightMatch: bool): KeySequence {
    var matched := if timeoutMatched then AllMatched(s) else s;
    if mightMatch then matched else WithoutMatchedPress(matched, k)
  }

  lemma ReleasedInKeeps(s: KeySequence, k: Key, timeoutMatched: bool, mightMatch: bool)
    requires SeqInv(s)
    ensures SeqInv(ReleasedIn(s, k, timeoutMatched, mightMatch))
  {
    hide SeqInv, AllMatched, WithoutMatchedPress;
    if timeoutMatched {
      AllMatchedKeeps(s);
    }
    WithoutMatchedPressKeeps(if timeoutMatched then AllMatched(s) else s, k);
  }

  /** The state in which the search for mappings begins. */
  function Searching(contexts: seq<Context>, m: Machine, event: KeyEvent): (r: Machine)
    requires Sound(contexts, m)
    ensures Sound(contexts, r)
  {
    hide SeqInv, H.HistoryInv, GoodOnRelease, WithContexts, ReleasedIn, Unsuppressed, ValidConfig;
    var u := WithContexts(contexts, m);
    ReleasedInKeeps(u.sequence, event.key, TimeoutMatched(u.side.timeout), u.mightMatch);
    var sequence :=
      if event.state == Up then ReleasedIn(u.sequence, event.key, TimeoutMatched(u.side.timeout), u.mightMatch) else u.sequence;
    u.(sequence := sequence, side := u.side.(ledger := u.side.ledger.(down := Unsuppressed(u.side.ledger.down))))
  }

  // ---------------------------------------------------------------------------
  // The loop over what is not processed yet

  function SearchOf(contexts: seq<Context>, m: Machine, optional: bool, device: int): (r: Search)
    requires Sound(contexts, m)
    ensures r.Valid()
  {
    HistoryIsReal(m.history, {}, {});
    Search(contexts, m.active, m.history, m.sequence, true, optional, device)
  }

  /** Requests a timeout, which waits for the last pressed key. */
  function Requested(side: Side, timeout: KeyEvent, s: KeySequence): Side {
    var press := LastPress(s);
    var emitted := side.(ledger := side.ledger.Emit(timeout));
    if 0 <= press < |s|
       && (side.timeout.None? || !side.timeout.value.event.Same(timeout) || side.timeout.value.trigger != s[press].key)
    then emitted.(timeout := Option.Some(CurrentTimeout(timeout, s[press].key, None, false, false)))
    else emitted
  }

  /** What the timeout remembers of a match, when it does not drop it. */
  function TimeoutOfMatch(timeout: Option<CurrentTimeout>, event: KeyEvent, output: Option<OutputRef>, startOnly: bool)
    : Option<CurrentTimeout>
  {
    if timeout.Some? && !IsNotTimeoutState(timeout.value.event.state) && event.key == TIMEOUT
       && timeout.value.matchedOutput.None? && !startOnly
    then Option.Some(timeout.value.(matchedOutput := output))
    else timeout
  }

  /** What it remembers when nothing matches. */
  function TimeoutOfNone(timeout: Option<CurrentTimeout>, event: KeyEvent): Option<CurrentTimeout> {
    if timeout.None? then timeout
    else if IsNotTimeoutState(timeout.value.event.state) then Option.Some(timeout.value.(notExceeded := true))
    else if event.key != TIMEOUT then Option.Some(timeout.value.(matchedOutput := None))
    else timeout
  }

  /** The beginning of the sequence is forwarded. */
  function Forwarding(m: Machine): Machine {
    var i := FirstUnsettled(m.sequence, 0);
    var s := Forwarded(m.sequence);
    var released := i < |m.sequence| && !m.sequence[i].IsPress();
    m.(sequence := s, mightMatch := m.mightMatch && HasNonOptional(s),
       side := m.side.(ledger := ForwardedOutput(m.side.ledger, m.sequence, TimeoutMatched(m.side.timeout)),
                       timeout := if released then WithoutTimeoutOf(m.side.timeout, m.sequence[i].key) else m.side.timeout))
  }

  /** The output of the selected mapping is applied; the first `n` events matched. */
  function ApplySelected(contexts: seq<Context>, m: Machine, event: KeyEvent, n: nat, selection: Selection): Machine
    requires n <= |m.sequence| && selection.trigger.Some? && selection.output.Some?
    requires ValidRef(contexts, selection.output.value) && ValidOutput(OutputAt(contexts, selection.output.value))
  {
    var output := OutputAt(contexts, selection.output.value);
    var trigger := ChooseTrigger(selection.trigger.value, output, event, m.sequence, m.side.timeout);
    m.(side := ApplySide(m.side, output, trigger, selection.context, m.Env()),
       sequence := Finish(m.sequence, 0, n), mightMatch := m.mightMatch && n < |m.sequence|)
  }

  /** What a decision of the round relies on. */
  lemma DecisionIsValid(contexts: seq<Context>, m: Machine, optional: bool, device: int, isVirtual: bool)
    requires Sound(contexts, m) && HasNonOptional(m.sequence)
    ensures match Decide(SearchOf(contexts, m, optional, device), m.mightMatch, isVirtual)
      case Output(n, selection, _) =>
        && n <= |m.sequence| && (exists j :: 0 <= j < n && m.sequence[j].IsNonOptional())
        && selection.result == MatchResult.Match && selection.trigger.Some? && selection.output.Some?
        && ValidRef(contexts, selection.output.value) && GoodOutput(OutputAt(contexts, selection.output.value), false)
      case Retry => !optional
      case _ => true
  {
    hide SeqInv, H.HistoryInv, GoodOnRelease, ValidConfig, Search.Select, GoodOutput, LongestPrefix;
    var search := SearchOf(contexts, m, optional, device);
    SelectIsValid(search);
    LongestPrefixIsLongest(search, |m.sequence|);
    var n := LongestPrefix(search, |m.sequence|);
    if n > 0 {
      SelectIsValid(InPrefix(search, n));
      PrefixHasNonOptional(m.sequence, n);
    }
    assert m.sequence[..|m.sequence|] == m.sequence;
    PrefixHasNonOptional(m.sequence, |m.sequence|);
    forall ref | ValidRef(contexts, ref) ensures GoodOutput(OutputAt(contexts, ref), false) {
      OutputIsGood(contexts, ref);
      OutputIsValid(contexts, ref);
    }
  }

  lemma OutputIsValid(contexts: seq<Context>, ref: OutputRef)
    requires ValidRef(contexts, ref) && GoodOutput(OutputAt(contexts, ref), BalancedOutputs(contexts))
    ensures GoodOutput(OutputAt(contexts, ref), false)
  {
  }

  lemma SelectIsValid(search: Search)
    requires search.Valid()
    ensures search.Select().result == MatchResult.Match ==>
      && search.Select().trigger.Some? && search.Select().output.Some? && ValidRef(search.contexts, search.Select().output.value)
  {
    SelectedIsValid(search, 0);
  }

  function Remembering(m: Machine, timeout: Option<CurrentTimeout>): Machine { m.(side := m.side.(timeout := timeout)) }

  /** The end of a round: the output of a match that the timeout does not drop, or
      forwarding. */
  function Concluded(contexts: seq<Context>, m: Machine, event: KeyEvent, n: nat, selection: Selection): Machine
    requires n <= |m.sequence|
    requires selection.result == MatchResult.Match ==>
      && selection.trigger.Some? && selection.output.Some?
      && ValidRef(contexts, selection.output.value) && ValidOutput(OutputAt(contexts, selection.output.value))
  {
    var timeout := m.side.timeout;
    if selection.result == MatchResult.Match && !Drops(timeout, event, selection.output) then
      ApplySelected(contexts, Remembering(m, TimeoutOfMatch(timeout, event, selection.output, n < |m.sequence|)), event, n, selection)
    else Forwarding(Remembering(m, TimeoutOfNone(timeout, event)))
  }

  datatype RoundResult = RoundResult(m: Machine, done: bool, optional: bool)

  /** One round: the decision is carried out, except that a timeout can drop a
      match in favour of forwarding. */
  function Round(contexts: seq<Context>, m: Machine, event: KeyEvent, device: int, optional: bool): (r: RoundResult)
    requires Sound(contexts, m) && HasNonOptional(m.sequence) && IsInputEvent(event)
  {
    hide SeqInv, H.HistoryInv, GoodOnRelease, ValidConfig, Decide;
    var search := SearchOf(contexts, m, optional, device);
    var left := search.KeysFrom(0, m.anyKeys);
    DecisionIsValid(contexts, m, optional, device, IsVirtualKey(event.key));
    match Decide(search, m.mightMatch, IsVirtualKey(event.key))
    case Retry => RoundResult(m.(anyKeys := left), false, true)
    case GiveUp => RoundResult(m.(anyKeys := left, sequence := Finish(m.sequence, 0, |m.sequence|)), true, optional)
    case HoldBack(request) =>
      var side := if request.key == TIMEOUT then Requested(m.side, request, m.sequence) else m.side;
      RoundResult(m.(anyKeys := left, mightMatch := true, side := side), true, optional)
    case Output(n, selection, keys) =>
      RoundResult(Concluded(contexts, m.(anyKeys := keys), event, n, selection), false, optional)
    case ForwardFirst =>
      var keys := if m.mightMatch then KeysOfPrefixes(search, |m.sequence|, left) else left;
      RoundResult(Concluded(contexts, m.(anyKeys := keys), event, |m.sequence|, NOTHING), false, optional)
  }

  /** The rounds that do not conclude. */
  lemma RoundWaits(contexts: seq<Context>, m: Machine, event: KeyEvent, device: int, optional: bool)
    requires Sound(contexts, m) && HasNonOptional(m.sequence) && IsInputEvent(event)
    ensures var search := SearchOf(contexts, m, optional, device);
      var left := m.(anyKeys := search.KeysFrom(0, m.anyKeys));
      var selected := search.Select();
      var r := Round(contexts, m, event, device, optional);
      if selected.result == MatchResult.Match then true
      else if !optional then r == RoundResult(left, false, true)
      else if IsVirtualKey(event.key) then
        r == RoundResult(left.(sequence := Finish(m.sequence, 0, |m.sequence|)), true, optional)
      else if selected.result == MightMatch then
        r == RoundResult(left.(mightMatch := true,
                               side := if selected.timeout.key == TIMEOUT then Requested(m.side, selected.timeout, m.sequence) else m.side),
                         true, optional)
      else true
  {
    hide Search.Select, Search.KeysFrom, Concluded, Requested, KeysOfAny, KeysOfPrefixes, LongestPrefix;
  }

  /** The rounds that conclude: with the whole sequence, or with a prefix. */
  lemma RoundConcludes(contexts: seq<Context>, m: Machine, event: KeyEvent, device: int, optional: bool, n: nat,
                       selection: Selection, keys: seq<Key>)
    requires Sound(contexts, m) && HasNonOptional(m.sequence) && IsInputEvent(event)
    requires var search := SearchOf(contexts, m, optional, device);
      var left := search.KeysFrom(0, m.anyKeys);
      var selected := search.Select();
      && selected.result != MightMatch
      && (selected.result != MatchResult.Match ==> optional && !IsVirtualKey(event.key))
      && var prefix := if selected.result != MatchResult.Match && m.mightMatch then LongestPrefix(search, |m.sequence|) else 0;
         if prefix > 0 then
           && n == prefix && selection == InPrefix(search, n).Select() && keys == KeysOfAny(InPrefix(search, n), selection)
           && selection.result == MatchResult.Match
         else
           && n == |m.sequence| && selection == selected
           && keys == if selected.result == MatchResult.Match then KeysOfAny(search, selected)
                      else if m.mightMatch then KeysOfPrefixes(search, |m.sequence|, left) else left
    ensures n <= |m.sequence|
    ensures selection.result == MatchResult.Match ==>
      && selection.trigger.Some? && selection.output.Some?
      && ValidRef(contexts, selection.output.value) && ValidOutput(OutputAt(contexts, selection.output.value))
    ensures Round(contexts, m, event, device, optional)
      == RoundResult(Concluded(contexts, m.(anyKeys := keys), event, n, selection), false, optional)
  {
    hide Search.Select, Search.KeysFrom, Concluded, Requested, KeysOfAny, KeysOfPrefixes, LongestPrefix, GoodOutput;
    DecisionIsValid(contexts, m, optional, device, IsVirtualKey(event.key));
    if selection.result == MatchResult.Match {
      GoodIsValid(OutputAt(contexts, selection.output.value), false);
    } else {
      NothingConcluded(contexts, m.(anyKeys := keys), event, n, selection);
    }
  }

  lemma NothingConcluded(contexts: seq<Context>, m: Machine, event: KeyEvent, n: nat, selection: Selection)
    requires n <= |m.sequence| && selection.result != MatchResult.Match
    ensures Concluded(contexts, m, event, n, selection) == Concluded(contexts, m, event, |m.sequence|, NOTHING)
  {
  }

  lemma ConcludedKeeps(contexts: seq<Context>, m: Machine, event: KeyEvent, n: nat, selection: Selection)
    requires Sound(contexts, m) && n <= |m.sequence| && exists j :: 0 <= j < n && m.sequence[j].IsNonOptional()
    requires selection.result == MatchResult.Match ==>
      && selection.trigger.Some? && selection.output.Some?
      && ValidRef(contexts, selection.output.value) && GoodOutput(OutputAt(contexts, selection.output.value), false)
    ensures var r := Concluded(contexts, m, event, n, selection);
      && Sound(contexts, r) && r.client == m.client && r.active == m.active && r.history == m.history
      && Weight(r.sequence) < Weight(m.sequence)
  {
    hide SeqInv, H.HistoryInv, GoodOnRelease, ValidConfig, Weight, Finish, Forwarded, ApplySide, GoodOutput;
    hide ForwardedOutput, FirstUnsettled, ChooseTrigger, TimeoutOfMatch, TimeoutOfNone, Drops;
    if selection.result == MatchResult.Match && !Drops(m.side.timeout, event, selection.output) {
      FinishKeeps(m.sequence, 0, n);
      FinishProgress(m.sequence, 0, n);
      var output := OutputAt(contexts, selection.output.value);
      var timeout := TimeoutOfMatch(m.side.timeout, event, selection.output, n < |m.sequence|);
      ApplySideKeepsGood(m.side.(timeout := timeout), output,
                         ChooseTrigger(selection.trigger.value, output, event, m.sequence, timeout), selection.context, m.Env());
    } else {
      ForwardKeeps(m.sequence);
      ForwardProgress(m.sequence);
    }
  }

  /** A round keeps the state sound. It makes the sequence lighter, or matched
      events optional, or is the last one. */
  lemma RoundKeeps(contexts: seq<Context>, m: Machine, event: KeyEvent, device: int, optional: bool)
    requires Sound(contexts, m) && HasNonOptional(m.sequence) && IsInputEvent(event)
    ensures var r := Round(contexts, m, event, device, optional);
      && Sound(contexts, r.m) && r.m.client == m.client && r.m.active == m.active && r.m.history == m.history
      && (r.done ==> r.m.Processed())
      && (!r.done ==> Weight(r.m.sequence) + (if r.optional then 0 else 1) < Weight(m.sequence) + (if optional then 0 else 1))
  {
    hide SeqInv, H.HistoryInv, GoodOnRelease, ValidConfig, Decide, Weight, Finish, Concluded, GoodOutput;
    DecisionIsValid(contexts, m, optional, device, IsVirtualKey(event.key));
    match Decide(SearchOf(contexts, m, optional, device), m.mightMatch, IsVirtualKey(event.key))
    case GiveUp =>
      FinishKeeps(m.sequence, 0, |m.sequence|);
      FinishedAll(m.sequence, 0, |m.sequence|);
    case Output(n, selection, keys) => ConcludedKeeps(contexts, m.(anyKeys := keys), event, n, selection);
    case ForwardFirst =>
      var search := SearchOf(contexts, m, optional, device);
      var left := search.KeysFrom(0, m.anyKeys);
      var keys := if m.mightMatch then KeysOfPrefixes(search, |m.sequence|, left) else left;
      ConcludedKeeps(contexts, m.(anyKeys := keys), event, |m.sequence|, NOTHING);
    case _ =>
  }

  /** The loop. */
  function Rounds(contexts: seq<Context>, m: Machine, event: KeyEvent, device: int, optional: bool): Machine
    requires Sound(contexts, m) && IsInputEvent(event)
    decreases Weight(m.sequence) + (if optional then 0 else 1)
  {
    hide Sound, Round, Weight;
    if !HasNonOptional(m.sequence) then m
    else
      var r := Round(contexts, m, event, device, optional);
      RoundKeeps(contexts, m, event, device, optional);
      if r.done then r.m else Rounds(contexts, r.m, event, device, r.optional)
  }

  lemma {:induction false} RoundsKeep(contexts: seq<Context>, m: Machine, event: KeyEvent, device: int, optional: bool)
    requires Sound(contexts, m) && IsInputEvent(event)
    ensures var r := Rounds(contexts, m, event, device, optional);
      Sound(contexts, r) && r.Processed() && r.client == m.client && r.active == m.active && r.history == m.history
    decreases Weight(m.sequence) + (if optional then 0 else 1)
  {
    hide Sound, Round, Weight;
    if HasNonOptional(m.sequence) {
      var r := Round(contexts, m, event, device, optional);
      RoundKeeps(contexts, m, event, device, optional);
      if !r.done {
        RoundsKeep(contexts, r.m, event, device, r.optional);
      }
    }
  }

  // ---------------------------------------------------------------------------
  // The end of an input event

  lemma {:induction false} WithoutMatchedTimeoutsKeepsProcessed(s: KeySequence)
    ensures HasNonOptional(WithoutMatchedTimeouts(s)) ==> HasNonOptional(s)
    decreases |s|
  {
    if s != [] && s[0].state == UpMatched {
      WithoutMatchedTimeoutsKeepsProcessed(s[1..]);
      RestHasNonOptional(s);
    }
  }

  /** Matched timeouts, a timeout that nothing waits for, and what the history is
      not needed for are forgotten. */
  function Tidied(contexts: seq<Context>, m: Machine): Machine {
    var sequence := WithoutMatchedTimeouts(m.sequence);
    m.(sequence := sequence,
       side := m.side.(timeout := if sequence == [] then None else m.side.timeout,
                       ledger := m.side.ledger.(reapplied := false)),
       history := H.CleanUp(m.history, Blocking(contexts, m.active)))
  }

  function Ended(contexts: seq<Context>, m: Machine, event: KeyEvent): (r: Machine)
    requires Sound(contexts, m)
    ensures Sound(contexts, r)
  {
    hide SeqInv, H.HistoryInv, GoodOnRelease, WithContexts, WithoutMatchedTimeouts, H.CleanUp, Blocking, ReleaseSide, ValidConfig;
    var released := if event.state == Up then m.(side := ReleaseSide(m.side, event.key, -1)) else m;
    assert released.side.onRelease == m.side.onRelease by { SameWaiting(m.side, event.key); }
    var u := WithContexts(contexts, released);
    WithoutMatchedTimeoutsKeeps(u.sequence);
    H.CleanUpKeeps(u.history, Blocking(contexts, u.active));
    Tidied(contexts, u)
  }

  lemma SameWaiting(side: Side, key: Key)
    ensures ReleaseSide(side, key, -1).onRelease == side.onRelease
  {
  }

  /** What one input event does; true when it is ignored. */
  function AfterInput(contexts: seq<Context>, m: Machine, event: KeyEvent, device: int, elapsed: Value): (r: (Machine, bool))
    requires Sound(contexts, m) && IsInputEvent(event)
    ensures Sound(contexts, r.0)
  {
    hide Sound, Taken, Searching, Rounds, Ended;
    var (taken, ignored) := Taken(contexts, m, event, device, elapsed);
    if ignored then (taken, true)
    else
      var searching := Searching(contexts, taken, event);
      RoundsKeep(contexts, searching, event, device, false);
      (Ended(contexts, Rounds(contexts, searching, event, device, false), event), false)
  }

  /** Only repeated presses and suppressed timeouts are ignored, every other event
      is fully processed. */
  lemma InputIsProcessed(contexts: seq<Context>, m: Machine, event: KeyEvent, device: int, elapsed: Value)
    requires Sound(contexts, m) && IsInputEvent(event)
    ensures var (next, ignored) := AfterInput(contexts, m, event, device, elapsed);
      && next.client == m.client
      && (ignored ==> event.state == Down || event.key == TIMEOUT)
      && (ignored ==> next.sequence == m.sequence && next.mightMatch == m.mightMatch)
      && (!ignored ==> next.Processed())
  {
    hide Sound, Taken, Searching, Rounds, Ended;
    var (taken, ignored) := Taken(contexts, m, event, device, elapsed);
    if !ignored {
      TakenFrame(contexts, m, event, device, elapsed);
      SearchingFrame(contexts, taken, event);
      var searching := Searching(contexts, taken, event);
      RoundsKeep(contexts, searching, event, device, false);
      EndedFrame(contexts, Rounds(contexts, searching, event, device, false), event);
    } else {
      TakenFrame(contexts, m, event, device, elapsed);
    }
  }

  lemma SwallowsTimeouts(timeout: Option<CurrentTimeout>, event: KeyEvent)
    ensures SwallowTimeout(timeout, event).1 ==> event.key == TIMEOUT
  {
  }

  lemma TakenFrame(contexts: seq<Context>, m: Machine, event: KeyEvent, device: int, elapsed: Value)
    requires Sound(contexts, m) && IsInputEvent(event)
    ensures Taken(contexts, m, event, device, elapsed).0.client == m.client
    ensures Taken(contexts, m, event, device, elapsed).0.mightMatch == m.mightMatch
    ensures Taken(contexts, m, event, device, elapsed).1 ==>
      (event.state == Down || event.key == TIMEOUT) && Taken(contexts, m, event, device, elapsed).0.sequence == m.sequence
  {
    hide SeqInv, H.HistoryInv, ValidConfig, WithHistory, ContinueSide, Merged, SwallowTimeout;
    SwallowsTimeouts(if event.state == Up then ContinueSide(m.side, event, -1, m.Env()).timeout else m.side.timeout, event);
  }

  lemma SearchingFrame(contexts: seq<Context>, m: Machine, event: KeyEvent)
    requires Sound(contexts, m)
    ensures Searching(contexts, m, event).client == m.client && Searching(contexts, m, event).mightMatch == m.mightMatch
  {
    hide Sound, WithContexts, ReleasedIn, Unsuppressed;
  }

  lemma EndedFrame(contexts: seq<Context>, m: Machine, event: KeyEvent)
    requires Sound(contexts, m) && m.Processed()
    ensures Ended(contexts, m, event).client == m.client && Ended(contexts, m, event).Processed()
  {
    hide Sound, WithContexts, WithoutMatchedTimeouts, H.CleanUp, Blocking, ReleaseSide, HasNonOptional;
    WithoutMatchedTimeoutsKeepsProcessed(m.sequence);
  }

  /** Several events of one device without time in between. */
  function AfterInputs(contexts: seq<Context>, m: Machine, events: KeySequence, device: int, elapsed: Value): (r: Machine)
    requires Sound(contexts, m) && forall i :: 0 <= i < |events| ==> IsInputEvent(events[i])
    ensures Sound(contexts, r)
    decreases |events|
  {
    hide Sound;
    if events == [] then m
    else AfterInputs(contexts, AfterInput(contexts, m, events[0], device, elapsed).0, events[1..], device, elapsed)
  }

  /** The output is handed out. */
  function HandedOut(m: Machine): Machine { m.(side := m.side.(ledger := m.side.ledger.(buffer := []))) }

  // ---------------------------------------------------------------------------
  // The client sets the active contexts

  predicate IsContextActive(contexts: seq<Context>, active: seq<int>, contextIndex: int)
    requires ChainsEnd(contexts) && ValidIndices(contexts, active)
  {
    exists i :: 0 <= i < |active| && (active[i] == contextIndex || Fallthrough(contexts, active[i]) == contextIndex)
  }

  /** What waits behind `^` in contexts that are active, in order. */
  function OfActiveContexts(contexts: seq<Context>, active: seq<int>, outputs: seq<OnReleaseOutput>): seq<OnReleaseOutput>
    requires ChainsEnd(contexts) && ValidIndices(contexts, active)
  {
    if outputs == [] then []
    else
      (if IsContextActive(contexts, active, outputs[0].contextIndex) then [outputs[0]] else [])
      + OfActiveContexts(contexts, active, outputs[1..])
  }

  lemma FirstOfActive(contexts: seq<Context>, active: seq<int>, kept: seq<OnReleaseOutput>, outputs: seq<OnReleaseOutput>, i: nat)
    requires ChainsEnd(contexts) && ValidIndices(contexts, active) && i < |outputs|
    ensures kept + OfActiveContexts(contexts, active, outputs[i..]) ==
      (if IsContextActive(contexts, active, outputs[i].contextIndex) then kept + [outputs[i]] else kept)
      + OfActiveContexts(contexts, active, outputs[i + 1..])
  {
    hide IsContextActive;
    var later := OfActiveContexts(contexts, active, outputs[i + 1..]);
    assert outputs[i..][0] == outputs[i] && outputs[i..][1..] == outputs[i + 1..];
    Associative(kept, [outputs[i]], later);
    assert [] + later == later;
  }

  lemma {:induction false} OfActiveIsGood(contexts: seq<Context>, active: seq<int>, outputs: seq<OnReleaseOutput>, balanced: bool)
    requires ChainsEnd(contexts) && ValidIndices(contexts, active) && GoodOnRelease(outputs, balanced)
    ensures GoodOnRelease(OfActiveContexts(contexts, active, outputs), balanced)
    decreases |outputs|
  {
    hide IsContextActive, GoodOutput;
    if outputs != [] {
      assert forall i :: 0 <= i < |outputs[1..]| ==> outputs[1..][i] == outputs[i + 1];
      OfActiveIsGood(contexts, active, outputs[1..], balanced);
    }
  }

  /** What the change of the active contexts means is applied, and what waits in
      contexts that are not active any more is cancelled. */
  function AfterContexts(contexts: seq<Context>, m: Machine, client: seq<int>): (r: Machine)
    requires Sound(contexts, m) && ValidIndices(contexts, client)
    ensures Sound(contexts, r)
  {
    hide SeqInv, H.HistoryInv, GoodOnRelease, WithContexts, OfActiveContexts, ValidConfig;
    ConfigHasChains(contexts);
    var u := WithContexts(contexts, m.(client := client));
    OfActiveIsGood(contexts, u.active, u.side.onRelease, false);
    u.(side := u.side.(onRelease := OfActiveContexts(contexts, u.active, u.side.onRelease)))
  }

  /** A stage before anything happened. */
  const FRESH := Machine([], [], [], false, NO_DEVICE, NO_DEVICE, [], Side(Ledger([], [], false), [], None), [], true)
}
