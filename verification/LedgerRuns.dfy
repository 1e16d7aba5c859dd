/** Whole runs of the output side, and what `!K` guarantees while an output is
    applied. */
module LedgerRuns {
  import opened Keys
  import opened Outputs
  import opened LedgerTheorems

  /** What a stage does to its output side, in the order it happens. */
  datatype Action =
    | BeginInput                                  // apply_input clears "suppressed"
    | ApplyOutput(s: KeySequence, trigger: Trigger, contextIndex: int, env: Environment)
    | Forward(press: KeyEvent)                    // an input is forwarded unchanged
    | ReleaseInput(k: Key, releasedIn: int)
    | RequestTimeout(timeout: KeyEvent)
    | EndInput
    | HandOut                                     // the output buffer is returned

  datatype State = State(o: OutputState, sent: KeySequence)

  const INITIAL := State(OutputState(Ledger([], [], false), []), [])

  predicate ValidAction(a: Action) {
    match a
    case ApplyOutput(s, _, _, _) => ValidOutput(s)
    case Forward(press) => press.state == Down
    case RequestTimeout(timeout) => timeout.key == TIMEOUT
    case _ => true
  }

  function Step(st: State, a: Action): State
    requires ValidAction(a)
  {
    var l := st.o.ledger;
    match a
    case BeginInput => st.(o := st.o.(ledger := l.(down := Unsuppressed(l.down))))
    case ApplyOutput(s, trigger, contextIndex, env) => st.(o := Apply(st.o, s, trigger, contextIndex, env))
    case Forward(press) => st.(o := st.o.(ledger := Update(l, press, KeyTrigger(press.key), -1)))
    case ReleaseInput(k, contextIndex) => st.(o := st.o.(ledger := ReleaseTriggered(l, k, contextIndex)))
    case RequestTimeout(timeout) => st.(o := st.o.(ledger := l.Emit(timeout)))
    case EndInput => st.(o := st.o.(ledger := l.(reapplied := false)))
    case HandOut => State(st.o.(ledger := l.(buffer := [])), st.sent + l.buffer)
  }

  function Run(st: State, actions: seq<Action>): State
    requires forall a :: a in actions ==> ValidAction(a)
    decreases |actions|
  {
    if actions == [] then st
    else Run(Step(st, actions[0]), actions[1..])
  }

  ghost predicate Good(st: State) { Inv(st.o.ledger, st.sent) }

  /** All outputs release only what they pressed. */
  predicate Balanced(actions: seq<Action>) {
    forall i :: 0 <= i < |actions| && actions[i].ApplyOutput? ==> BalancedPart(actions[i].s)
  }

  /** Nothing is left in the buffer when "suppressed" is cleared. */
  predicate Drained(actions: seq<Action>) {
    forall i :: 0 < i < |actions| && actions[i].BeginInput? ==> actions[i - 1].HandOut?
  }

  // ---------------------------------------------------------------------------
  // The other actions

  lemma UnsuppressedKeeps(l: Ledger, sent: KeySequence)
    requires Inv(l, sent)
    ensures Inv(l.(down := Unsuppressed(l.down)), sent)
  {
    var down := Unsuppressed(l.down);
    forall k: Key ensures Tracked(down, sent + l.buffer, k) {
      assert Tracked(l.down, sent + l.buffer, k);
      if Holds(l.down, k) {
        var j :| 0 <= j < |l.down| && l.down[j].key == k && !l.down[j].temporarilyReleased;
        assert down[j].key == k && !down[j].temporarilyReleased;
      }
    }
  }

  lemma HandOutKeeps(l: Ledger, sent: KeySequence)
    requires Inv(l, sent)
    ensures Inv(l.(buffer := []), sent + l.buffer)
  {
    assert sent + l.buffer + [] == sent + l.buffer;
  }

  lemma RequestKeeps(l: Ledger, sent: KeySequence, timeout: KeyEvent)
    requires Inv(l, sent) && timeout.key == TIMEOUT
    ensures Inv(l.Emit(timeout), sent)
  {
    forall k: Key ensures Tracked(l.down, sent + (l.buffer + [timeout]), k) {
      assert Tracked(l.down, sent + l.buffer, k);
      IsDownEmit(sent, l.buffer, timeout, k);
    }
  }

  lemma FlagIsFree(l: Ledger, sent: KeySequence)
    requires Inv(l, sent)
    ensures Inv(l.(reapplied := false), sent)
  {
  }

  lemma StepKeeps(st: State, a: Action)
    requires Good(st) && ValidAction(a)
    requires a.ApplyOutput? ==> Releasable(st.o.ledger, a.s, a.env)
    ensures Good(Step(st, a))
  {
    hide Inv, Apply, Update, ReleaseTriggered, Unsuppressed;
    var l := st.o.ledger;
    match a
    case BeginInput => UnsuppressedKeeps(l, st.sent);
    case ApplyOutput(s, trigger, contextIndex, env) => ApplyKeeps(st.o, st.sent, s, trigger, contextIndex, env);
    case Forward(press) => UpdateKeeps(l, st.sent, press, KeyTrigger(press.key), -1);
    case ReleaseInput(k, contextIndex) => ReleaseKeeps(l, st.sent, k, contextIndex);
    case RequestTimeout(timeout) => RequestKeeps(l, st.sent, timeout);
    case EndInput => FlagIsFree(l, st.sent);
    case HandOut => HandOutKeeps(l, st.sent);
  }

  // ---------------------------------------------------------------------------
  // Without balanced outputs: nothing waits to be erased

  lemma {:induction false} ApplyKeepsMayRelease(o: OutputState, s: KeySequence, trigger: Trigger, contextIndex: int,
                                                env: Environment, k: Key)
    requires ValidOutput(s) && Unique(o.ledger.down) && MayRelease(o.ledger, k)
    ensures var next := Apply(o, s, trigger, contextIndex, env).ledger;
      Unique(next.down) && MayRelease(next, k)
    decreases |s|
  {
    hide ApplyEvent, MayRelease;
    if s != [] {
      if s[0].state == OutputOnRelease {
        ApplyKeepsMayRelease(o, s[1..], trigger, contextIndex, env, k);
      } else {
        EventKeepsMayRelease(o.ledger, s[0], trigger, contextIndex, env, k);
        ApplyKeepsMayRelease(o.(ledger := ApplyEvent(o.ledger, s[0], trigger, contextIndex, env)),
                             s[1..], trigger, contextIndex, env, k);
      }
    }
  }

  lemma {:induction false} ReleasesOthers(down: seq<OutputDown>, buffer: KeySequence, k: Key)
    requires forall i :: 0 <= i < |down| ==> down[i].key != k
    ensures RFindKey(buffer + Releases(down), k) == RFindKey(buffer, k)
    decreases |down|
  {
    if down == [] {
      assert buffer + Releases(down) == buffer;
    } else {
      ReleasesOthers(down[1..], buffer, k);
      var rest := Releases(down[1..]);
      if down[0].temporarilyReleased {
        assert Releases(down) == rest;
      } else {
        EmitsOther(buffer + rest, Release(down[0].key), k);
        assert buffer + Releases(down) == buffer + rest + [Release(down[0].key)];
      }
    }
  }

  lemma {:induction false} FindKept(down: seq<OutputDown>, k: Key, contextIndex: int, j: Key)
    requires Unique(down)
    ensures var r, q := FindDown(Kept(down, k, contextIndex), j), FindDown(down, j);
      r >= 0 ==> q >= 0 && Kept(down, k, contextIndex)[r] == down[q] && !Triggers(down[q], k, contextIndex)
  {
    KeptEntries(down, k, contextIndex);
    var kept := Kept(down, k, contextIndex);
    var r := FindDown(kept, j);
    if r >= 0 {
      assert kept[r] in down;
      var q :| 0 <= q < |down| && down[q] == kept[r];
      FindUnique(down, q);
    }
  }

  lemma ReleaseKeepsMayRelease(l: Ledger, k: Key, contextIndex: int, j: Key)
    requires Unique(l.down) && MayRelease(l, j)
    ensures var next := ReleaseTriggered(l, k, contextIndex);
      Unique(next.down) && MayRelease(next, j)
  {
    KeptEntries(l.down, k, contextIndex);
    FindKept(l.down, k, contextIndex, j);
    var next := ReleaseTriggered(l, k, contextIndex);
    var r := FindDown(next.down, j);
    if r >= 0 {
      var triggered := Triggered(l.down, k, contextIndex);
      TriggeredEntries(l.down, k, contextIndex);
      forall i | 0 <= i < |triggered| ensures triggered[i].key != j {
        assert triggered[i] in l.down;
        var q :| 0 <= q < |l.down| && l.down[q] == triggered[i];
        FindUnique(l.down, q);
      }
      ReleasesOthers(triggered, l.buffer, j);
    }
  }

  ghost predicate AllMayRelease(l: Ledger) { forall k: Key :: MayRelease(l, k) }

  lemma StepKeepsMayRelease(st: State, a: Action)
    requires ValidAction(a) && Unique(st.o.ledger.down) && AllMayRelease(st.o.ledger)
    requires a.BeginInput? ==> st.o.ledger.buffer == []
    ensures AllMayRelease(Step(st, a).o.ledger)
  {
    hide Apply, Update, ReleaseTriggered, MayRelease;
    var l := st.o.ledger;
    forall k: Key ensures MayRelease(Step(st, a).o.ledger, k) {
      assert MayRelease(l, k);
      match a
      case BeginInput => EmptyMayRelease(l.(down := Unsuppressed(l.down)), k);
      case ApplyOutput(s, trigger, contextIndex, env) => ApplyKeepsMayRelease(st.o, s, trigger, contextIndex, env, k);
      case Forward(press) => UpdateKeepsMayRelease(l, press, KeyTrigger(press.key), -1, k);
      case ReleaseInput(j, contextIndex) => ReleaseKeepsMayRelease(l, j, contextIndex, k);
      case RequestTimeout(timeout) => RequestMayRelease(l, timeout, k);
      case EndInput => SameMayRelease(l, l.(reapplied := false), k);
      case HandOut => EmptyMayRelease(l.(buffer := []), k);
    }
  }

  lemma EmptyMayRelease(l: Ledger, k: Key)
    requires l.buffer == []
    ensures MayRelease(l, k)
  {
  }

  lemma SameMayRelease(l: Ledger, next: Ledger, k: Key)
    requires MayRelease(l, k) && next.down == l.down && next.buffer == l.buffer
    ensures MayRelease(next, k)
  {
  }

  lemma RequestMayRelease(l: Ledger, timeout: KeyEvent, k: Key)
    requires MayRelease(l, k) && timeout.key == TIMEOUT
    ensures MayRelease(l.Emit(timeout), k)
  {
    if k != TIMEOUT {
      EmitsOther(l.buffer, timeout, k);
    }
  }

  lemma MayReleaseIsReleasable(l: Ledger, s: KeySequence, env: Environment)
    requires AllMayRelease(l)
    ensures Releasable(l, s, env)
  {
    hide MayRelease;
  }

  // ---------------------------------------------------------------------------
  // No stuck keys

  lemma {:induction false} BalancedRun(st: State, actions: seq<Action>)
    requires Good(st) && Balanced(actions) && forall a :: a in actions ==> ValidAction(a)
    ensures Good(Run(st, actions))
    decreases |actions|
  {
    hide Good, Step, BalancedPart, Releasable;
    if actions != [] {
      var a := actions[0];
      if a.ApplyOutput? {
        BalancedIsReleasable(st.o.ledger, a.s, a.env);
      }
      StepKeeps(st, a);
      BalancedRun(Step(st, a), actions[1..]);
    }
  }

  lemma {:induction false} DrainedRun(st: State, actions: seq<Action>)
    requires Good(st) && AllMayRelease(st.o.ledger) && Drained(actions)
    requires forall a :: a in actions ==> ValidAction(a)
    requires actions != [] && actions[0].BeginInput? ==> st.o.ledger.buffer == []
    ensures Good(Run(st, actions))
    decreases |actions|
  {
    hide Good, AllMayRelease, Releasable;
    if actions != [] {
      var a := actions[0];
      MayReleaseIsReleasable(st.o.ledger, if a.ApplyOutput? then a.s else [], if a.ApplyOutput? then a.env else Environment([], [], true));
      StepKeeps(st, a);
      GoodIsUnique(st);
      StepKeepsMayRelease(st, a);
      assert forall i :: 0 <= i < |actions[1..]| ==> actions[1..][i] == actions[i + 1];
      DrainedRun(Step(st, a), actions[1..]);
    }
  }

  lemma GoodIsUnique(st: State)
    requires Good(st)
    ensures Unique(st.o.ledger.down)
  {
  }

  /** Over every run in which outputs release only what they pressed, or in
      which the buffer is handed out just before "suppressed" is cleared: a key
      whose last emitted event is a press is held by exactly one entry, which is
      not temporarily released, although events are erased from the buffer. So
      when no entry is left every key is up. */
  lemma NoStuckKeys(actions: seq<Action>)
    requires forall a :: a in actions ==> ValidAction(a)
    requires Balanced(actions) || Drained(actions)
    ensures var st := Run(INITIAL, actions);
      var events := st.sent + st.o.ledger.buffer;
      && (forall k: Key :: k != TIMEOUT && IsDown(events, k) ==> Holds(st.o.ledger.down, k))
      && Unique(st.o.ledger.down)
      && (st.o.ledger.down == [] ==> forall k: Key :: k != TIMEOUT ==> !IsDown(events, k))
  {
    hide Run;
    assert Good(INITIAL);
    if Balanced(actions) {
      BalancedRun(INITIAL, actions);
    } else {
      DrainedRun(INITIAL, actions);
    }
    var st := Run(INITIAL, actions);
    forall k: Key | k != TIMEOUT && IsDown(st.sent + st.o.ledger.buffer, k) ensures Holds(st.o.ledger.down, k) {
      assert Tracked(st.o.ledger.down, st.sent + st.o.ledger.buffer, k);
    }
  }

  // ---------------------------------------------------------------------------
  // Calls of the stage

  /** What one call of `update` does. What waits for the release, and what contexts
      that change at first output, comes before "suppressed" is cleared, everything
      else behind that, and at last the buffer is handed out. */
  datatype Call = Call(before: seq<Action>, processed: seq<Action>)

  predicate ValidCall(c: Call) {
    && (forall a :: a in c.before ==> (a.ApplyOutput? || a.ReleaseInput?) && ValidAction(a))
    && (forall a :: a in c.processed ==> ValidAction(a) && !a.BeginInput?)
  }

  function ActionsOf(calls: seq<Call>): seq<Action>
    decreases |calls|
  {
    if calls == [] then []
    else calls[0].before + [BeginInput] + calls[0].processed + [EndInput, HandOut] + ActionsOf(calls[1..])
  }

  lemma {:induction false} ActionsAreValid(calls: seq<Call>)
    requires forall c :: c in calls ==> ValidCall(c)
    ensures forall a :: a in ActionsOf(calls) ==> ValidAction(a)
    decreases |calls|
  {
    if calls != [] {
      assert ValidCall(calls[0]);
      ActionsAreValid(calls[1..]);
    }
  }

  /** If nothing comes before, nothing is in the buffer when "suppressed" is
      cleared. */
  lemma {:induction false} CallsAreDrained(calls: seq<Call>)
    requires forall c :: c in calls ==> ValidCall(c) && c.before == []
    ensures Drained(ActionsOf(calls))
    ensures calls != [] ==> ActionsOf(calls)[0] == BeginInput
    decreases |calls|
  {
    if calls != [] {
      var c, later := calls[0], ActionsOf(calls[1..]);
      CallsAreDrained(calls[1..]);
      var first: seq<Action> := [BeginInput] + c.processed + [EndInput, HandOut];
      var all: seq<Action> := first + later;
      assert ActionsOf(calls) == all by { assert [] + [BeginInput] == [BeginInput]; }
      assert ValidCall(c);
      forall i | 0 < i < |all| && all[i].BeginInput? ensures all[i - 1].HandOut? {
        if i > |first| {
          assert later[i - |first|] == all[i] && later[i - |first| - 1] == all[i - 1];
        }
      }
    }
  }

  /** So keys do not get stuck, even with outputs which release what they did not
      press, as long as nothing is output before "suppressed" is cleared. */
  lemma NoStuckKeysIfNothingComesBefore(calls: seq<Call>)
    requires forall c :: c in calls ==> ValidCall(c) && c.before == []
    ensures forall a :: a in ActionsOf(calls) ==> ValidAction(a)
    ensures var st := Run(INITIAL, ActionsOf(calls));
      forall k: Key :: k != TIMEOUT && IsDown(st.sent + st.o.ledger.buffer, k) ==> Holds(st.o.ledger.down, k)
  {
    ActionsAreValid(calls);
    CallsAreDrained(calls);
    NoStuckKeys(ActionsOf(calls));
  }

  lemma {:induction false} RunSplit(st: State, a: seq<Action>, b: seq<Action>)
    requires forall x :: x in a + b ==> ValidAction(x)
    ensures (forall x :: x in a ==> ValidAction(x)) && (forall x :: x in b ==> ValidAction(x))
    ensures Run(st, a + b) == Run(Run(st, a), b)
    decreases |a|
  {
    hide Step, ValidAction;
    assert forall x :: x in a ==> x in a + b;
    assert forall x :: x in b ==> x in a + b;
    if a == [] {
      assert a + b == b;
    } else {
      assert (a + b)[1..] == a[1..] + b && (a + b)[0] == a[0];
      RunSplit(Step(st, a[0]), a[1..], b);
    }
  }

  function RunCall(st: State, c: Call): State
    requires ValidCall(c)
  {
    var cleared := Step(Run(st, c.before), BeginInput);
    Step(Step(Run(cleared, c.processed), EndInput), HandOut)
  }

  lemma CallRuns(st: State, c: Call, later: seq<Call>)
    requires ValidCall(c) && forall d :: d in later ==> ValidCall(d)
    ensures forall a :: a in ActionsOf([c] + later) || a in ActionsOf(later) ==> ValidAction(a)
    ensures Run(st, ActionsOf([c] + later)) == Run(RunCall(st, c), ActionsOf(later))
  {
    var all := [c] + later;
    assert all[1..] == later;
    ActionsAreValid(all);
    ActionsAreValid(later);
    var rest := ActionsOf(later);
    hide Step, ActionsOf, ValidAction;
    assert c.before + [BeginInput] + c.processed + [EndInput, HandOut] + rest
        == c.before + ([BeginInput] + (c.processed + ([EndInput] + ([HandOut] + rest))));
    RunSplit(st, c.before, [BeginInput] + (c.processed + ([EndInput] + ([HandOut] + rest))));
    RunOne(Run(st, c.before), BeginInput, c.processed + ([EndInput] + ([HandOut] + rest)));
    RunSplit(Step(Run(st, c.before), BeginInput), c.processed, [EndInput] + ([HandOut] + rest));
    var processed := Run(Step(Run(st, c.before), BeginInput), c.processed);
    RunOne(processed, EndInput, [HandOut] + rest);
    RunOne(Step(processed, EndInput), HandOut, rest);
  }

  lemma RunOne(s: State, action: Action, others: seq<Action>)
    requires forall a :: a in [action] + others ==> ValidAction(a)
    ensures ValidAction(action) && forall a :: a in others ==> ValidAction(a)
    ensures Run(s, [action] + others) == Run(Step(s, action), others)
  {
    assert ([action] + others)[1..] == others;
    assert ([action] + others)[0] == action;
    forall a | a in others ensures ValidAction(a) {
      assert a in [action] + others;
    }
  }

  // ---------------------------------------------------------------------------
  // Outputs which release what they did not press

  /** The exact condition on one release: the release of an entry keeps the
      invariant if and only if it is safe or finds nothing to erase, or if the key
      is not left down by what it erases. */
  lemma ReleaseKeepsIff(l: Ledger, sent: KeySequence, event: KeyEvent, trigger: Trigger)
    requires Inv(l, sent) && event.state == Up && event.key != TIMEOUT
    ensures Inv(UpdateUp(l, event, trigger), sent) <==>
      || MayRelease(l, event.key)
      || !IsDown(sent + Erase(l.buffer, RFindKey(l.buffer, event.key)), event.key)
  {
    var k := event.key;
    if MayRelease(l, k) {
      UpKeeps(l, sent, event, trigger);
    } else {
      var it, it2 := FindDown(l.down, k), RFindKey(l.buffer, k);
      var entry := l.down[it].(pressedTwice := false);
      var next := UpdateUp(l, event, trigger);
      assert next == l.(buffer := Erase(l.buffer, it2)).Set(it, entry);
      if IsDown(sent + Erase(l.buffer, it2), k) {
        forall i | 0 <= i < |next.down| && next.down[i].key == k ensures next.down[i].temporarilyReleased {
          FindUnique(l.down, it);
        }
        assert !Holds(next.down, k);
        assert !Tracked(next.down, sent + next.buffer, k);
      } else {
        forall j: Key | j != k ensures IsDown(sent + Erase(l.buffer, it2), j) == IsDown(sent + l.buffer, j) {
          IsDownErase(sent, l.buffer, it2, j);
        }
        SetKeeps(l, it, entry, Erase(l.buffer, it2), sent);
      }
    }
  }

  const RELEASE_MARK := KeyEvent(NONE, OutputOnRelease, 0)

  /** Two outputs of K which the compiler accepts: `K ^ !K K` and `K K !C ^`. */
  function Twice(k: Key): KeySequence { [KeyEvent(k, Not, 0), Press(k), Release(k)] }

  function FirstOutput(k: Key): KeySequence { [Press(k), Release(k), RELEASE_MARK] + Twice(k) }

  function SecondOutput(k: Key, c: Key): KeySequence {
    [Press(k), Release(k), Press(k), KeyEvent(c, Not, 0), RELEASE_MARK, Release(k)]
  }

  const NO_ENVIRONMENT := Environment([], [], true)

  function Applied(s: KeySequence, trigger: Trigger): Action { ApplyOutput(s, trigger, 0, NO_ENVIRONMENT) }

  /** T1 is mapped to K. Pressing T2 makes a context active, with `K K !C ^` as the
      output of ContextActive, and outputs `K ^ !K K`. Releasing T2 outputs what
      waits behind `^` of both: `!K K` before "suppressed" is cleared, and the
      release of K when the context gets inactive. At last T1 is released. */
  function StickingCalls(k: Key, c: Key, t1: Key, t2: Key): seq<Call> {
    [Call([], [Applied([Press(k)], KeyTrigger(t1))]),
     Call([Applied(SecondOutput(k, c), EventTrigger(Press(CONTEXT_ACTIVE)))],
          [Applied(FirstOutput(k), EventTrigger(Press(t2)))]),
     Call([Applied(Twice(k), EventTrigger(Release(t2)))],
          [ReleaseInput(t2, -1), Applied([Release(k)], EventTrigger(Release(CONTEXT_ACTIVE))), ReleaseInput(CONTEXT_ACTIVE, 0)]),
     Call([], [ReleaseInput(t1, -1)])]
  }

  /** K is down for good: no entry is left, and its last event is a press, though
      everything is handed out after every input. The halves which are output at
      releases are those that wait. */
  lemma UnbalancedReleaseSticks(k: Key, c: Key, t1: Key, t2: Key)
    requires IsDeviceKey(k) && IsDeviceKey(c) && IsDeviceKey(t1) && IsDeviceKey(t2)
    requires !IsCommonModifier(k) && c != k && t1 != t2
    ensures forall call :: call in StickingCalls(k, c, t1, t2) ==> ValidCall(call)
    ensures forall a :: a in ActionsOf(StickingCalls(k, c, t1, t2)) ==> ValidAction(a)
    ensures var st := Run(INITIAL, ActionsOf(StickingCalls(k, c, t1, t2)));
      && st.o.ledger.down == [] && IsDown(st.sent + st.o.ledger.buffer, k)
      && st.o.onRelease == LeftWaiting(k, t2)
  {
    var calls := StickingCalls(k, c, t1, t2);
    assert calls == [calls[0]] + ([calls[1]] + ([calls[2]] + ([calls[3]] + [])));
    var s1 := Sent(HeldBy(k, t1, false, false, false, []), [], [Press(k)]);
    var s2 := Sent(HeldBy(k, t1, false, false, false, []), LeftWaiting(k, t2), [Press(k), Press(k)]);
    var s3 := Sent(HeldBy(k, t1, false, true, false, []), LeftWaiting(k, t2), [Press(k), Press(k), Release(k), Press(k)]);
    var s4 := Sent(Ledger([], [], false), LeftWaiting(k, t2), [Press(k), Press(k), Release(k), Press(k)]);
    StickFirst(k, t1);
    StickSecond(k, c, t1, t2);
    StickThird(k, t1, t2);
    StickFourth(k, t1, t2);
    hide RunCall, ActionsOf, StickingCalls, Run, ValidCall;
    CallRuns(INITIAL, calls[0], [calls[1]] + ([calls[2]] + ([calls[3]] + [])));
    CallRuns(s1, calls[1], [calls[2]] + ([calls[3]] + []));
    CallRuns(s2, calls[2], [calls[3]] + []);
    CallRuns(s3, calls[3], []);
    NoCalls(s4);
    RFindUnique(s4.sent + s4.o.ledger.buffer, k, 3);
  }

  lemma NoCalls(s: State)
    ensures ActionsOf([]) == [] && Run(s, ActionsOf([])) == s
  {
  }

  function LeftWaiting(k: Key, t2: Key): seq<OnReleaseOutput> {
    [OnReleaseOutput(CONTEXT_ACTIVE, [Release(k)], 0), OnReleaseOutput(t2, Twice(k), 0)]
  }

  function Sent(l: Ledger, waiting: seq<OnReleaseOutput>, sent: KeySequence): State {
    State(OutputState(l, waiting), sent)
  }

  lemma RunOf(s: State, a: Action, b: Action, c: Action)
    requires ValidAction(a) && ValidAction(b) && ValidAction(c)
    ensures Run(s, []) == s && Run(s, [a]) == Step(s, a)
    ensures Run(s, [a, b]) == Step(Step(s, a), b)
    ensures Run(s, [a, b, c]) == Step(Step(Step(s, a), b), c)
  {
    hide Step, ValidAction;
    assert [a, b, c] == [a] + ([b] + ([c] + [])) && [a, b] == [a] + ([b] + []) && [a] == [a] + [];
    RunThree(s, a, b, c);
    RunOne(s, a, [b] + []);
    RunOne(Step(s, a), b, []);
    RunOne(s, a, []);
  }

  lemma RunThree(s: State, a: Action, b: Action, c: Action)
    requires ValidAction(a) && ValidAction(b) && ValidAction(c)
    ensures Run(s, [a] + ([b] + ([c] + []))) == Step(Step(Step(s, a), b), c)
  {
    hide Step, ValidAction;
    RunOne(s, a, [b] + ([c] + []));
    RunOne(Step(s, a), b, [c] + []);
    RunOne(Step(Step(s, a), b), c, []);
  }

  lemma NothingSuppressed(k: Key, t1: Key, suppressed: bool, released: bool, twice: bool, buffer: KeySequence)
    requires !IsCommonModifier(k)
    ensures Unsuppressed(HeldBy(k, t1, suppressed, released, twice, buffer).down)
      == HeldBy(k, t1, false, released, twice, buffer).down
  {
  }

  lemma StickFirst(k: Key, t1: Key)
    requires IsDeviceKey(k)
    ensures ValidCall(Call([], [Applied([Press(k)], KeyTrigger(t1))]))
    ensures RunCall(INITIAL, Call([], [Applied([Press(k)], KeyTrigger(t1))]))
      == Sent(HeldBy(k, t1, false, false, false, []), [], [Press(k)])
  {
    var a := Applied([Press(k)], KeyTrigger(t1));
    assert Unsuppressed([]) == [];
    assert Step(INITIAL, BeginInput) == INITIAL;
    RunOf(INITIAL, a, a, a);
    FirstPressed(k, t1);
    hide Run, Apply;
    assert [] + [Press(k)] == [Press(k)];
  }

  lemma FirstPressed(k: Key, t1: Key)
    requires IsDeviceKey(k)
    ensures Apply(INITIAL.o, [Press(k)], KeyTrigger(t1), 0, NO_ENVIRONMENT)
      == OutputState(HeldBy(k, t1, false, false, false, [Press(k)]), [])
  {
    assert [Press(k)][1..] == [] && [] + [Press(k)] == [Press(k)];
  }

  lemma StickSecond(k: Key, c: Key, t1: Key, t2: Key)
    requires IsDeviceKey(k) && IsDeviceKey(c) && !IsCommonModifier(k) && c != k
    ensures var call := Call([Applied(SecondOutput(k, c), EventTrigger(Press(CONTEXT_ACTIVE)))],
                             [Applied(FirstOutput(k), EventTrigger(Press(t2)))]);
      && ValidCall(call)
      && RunCall(Sent(HeldBy(k, t1, false, false, false, []), [], [Press(k)]), call)
         == Sent(HeldBy(k, t1, false, false, false, []), LeftWaiting(k, t2), [Press(k), Press(k)])
  {
    hide Apply, ApplyEvent, ValidOutput, Unsuppressed;
    SecondIsValid(k, c);
    var s := Sent(HeldBy(k, t1, false, false, false, []), [], [Press(k)]);
    var a := Applied(SecondOutput(k, c), EventTrigger(Press(CONTEXT_ACTIVE)));
    var b := Applied(FirstOutput(k), EventTrigger(Press(t2)));
    NothingSuppressed(k, t1, false, false, true, [Press(k)]);
    var waiting := Sent(HeldBy(k, t1, false, false, true, [Press(k)]), [LeftWaiting(k, t2)[0]], [Press(k)]);
    RunOf(s, a, a, a);
    RunOf(waiting, b, b, b);
    hide Run;
    SecondApplied(k, c, t1, EventTrigger(Press(CONTEXT_ACTIVE)));
    assert Step(Step(s, a), BeginInput) == waiting;
    FirstApplied(k, t1, [LeftWaiting(k, t2)[0]], EventTrigger(Press(t2)));
    assert [LeftWaiting(k, t2)[0]] + [LeftWaiting(k, t2)[1]] == LeftWaiting(k, t2);
    assert [Press(k)] + [Press(k)] == [Press(k), Press(k)];
  }

  lemma StickThird(k: Key, t1: Key, t2: Key)
    requires IsDeviceKey(k) && IsDeviceKey(t1) && IsDeviceKey(t2) && !IsCommonModifier(k) && t1 != t2
    ensures var call := Call([Applied(Twice(k), EventTrigger(Release(t2)))],
                             [ReleaseInput(t2, -1), Applied([Release(k)], EventTrigger(Release(CONTEXT_ACTIVE))),
                              ReleaseInput(CONTEXT_ACTIVE, 0)]);
      && ValidCall(call)
      && RunCall(Sent(HeldBy(k, t1, false, false, false, []), LeftWaiting(k, t2), [Press(k), Press(k)]), call)
         == Sent(HeldBy(k, t1, false, true, false, []), LeftWaiting(k, t2), [Press(k), Press(k), Release(k), Press(k)])
  {
    hide Apply, ApplyEvent, ValidOutput, Unsuppressed, ReleaseTriggered;
    SecondIsValid(k, k);
    var three := [Release(k), Press(k), Release(k)];
    var s := Sent(HeldBy(k, t1, false, false, false, []), LeftWaiting(k, t2), [Press(k), Press(k)]);
    var cleared := Sent(HeldBy(k, t1, false, true, true, three), LeftWaiting(k, t2), [Press(k), Press(k)]);
    var erased := Sent(HeldBy(k, t1, false, true, false, [Release(k), Press(k)]), LeftWaiting(k, t2), [Press(k), Press(k)]);
    var a := Applied(Twice(k), EventTrigger(Release(t2)));
    var b := Applied([Release(k)], EventTrigger(Release(CONTEXT_ACTIVE)));
    TwiceApplied(k, t1, LeftWaiting(k, t2), EventTrigger(Release(t2)));
    RunOf(s, a, a, a);
    NothingSuppressed(k, t1, true, true, true, three);
    assert Step(Run(s, [a]), BeginInput) == cleared;
    NothingTriggered(k, t1, t2, -1, true, three);
    ReleaseApplied(k, t1, LeftWaiting(k, t2), EventTrigger(Release(CONTEXT_ACTIVE)));
    NothingTriggered(k, t1, CONTEXT_ACTIVE, 0, false, [Release(k), Press(k)]);
    RunOf(cleared, ReleaseInput(t2, -1), b, ReleaseInput(CONTEXT_ACTIVE, 0));
    hide Run;
    assert Step(cleared, b) == erased;
    assert [Press(k), Press(k)] + [Release(k), Press(k)] == [Press(k), Press(k), Release(k), Press(k)];
  }

  lemma NothingTriggered(k: Key, t1: Key, t2: Key, contextIndex: int, twice: bool, buffer: KeySequence)
    requires t1 != t2
    ensures var l := HeldBy(k, t1, false, true, twice, buffer);
      ReleaseTriggered(l, t2, contextIndex) == l
  {
    var down := HeldBy(k, t1, false, true, twice, buffer).down;
    assert down[1..] == [] && [down[0]] + [] == down;
    assert Triggered(down, t2, contextIndex) == [];
    assert Kept(down, t2, contextIndex) == down;
    assert buffer + [] == buffer;
  }

  lemma StickFourth(k: Key, t1: Key, t2: Key)
    requires IsDeviceKey(t1) && !IsCommonModifier(k)
    ensures ValidCall(Call([], [ReleaseInput(t1, -1)]))
    ensures var sent := [Press(k), Press(k), Release(k), Press(k)];
      RunCall(Sent(HeldBy(k, t1, false, true, false, []), LeftWaiting(k, t2), sent), Call([], [ReleaseInput(t1, -1)]))
      == Sent(Ledger([], [], false), LeftWaiting(k, t2), sent)
  {
    var sent := [Press(k), Press(k), Release(k), Press(k)];
    var s := Sent(HeldBy(k, t1, false, true, false, []), LeftWaiting(k, t2), sent);
    NothingSuppressed(k, t1, false, true, false, []);
    assert Step(s, BeginInput) == s;
    RunOf(s, ReleaseInput(t1, -1), EndInput, EndInput);
    hide Run;
    var entry := s.o.ledger.down[0];
    assert [entry][1..] == [];
    assert Kept([entry], t1, -1) == [] && Triggered([entry], t1, -1) == [entry] && Releases([entry]) == [];
    assert sent + [] == sent;
  }

  lemma ApplyNext(o: OutputState, event: KeyEvent, rest: KeySequence, trigger: Trigger)
    requires ValidOutput([event] + rest) && event.state != OutputOnRelease
    ensures ValidOutput(rest)
    ensures Apply(o, [event] + rest, trigger, 0, NO_ENVIRONMENT)
      == Apply(o.(ledger := ApplyEvent(o.ledger, event, trigger, 0, NO_ENVIRONMENT)), rest, trigger, 0, NO_ENVIRONMENT)
  {
    var s := [event] + rest;
    assert s[1..] == rest;
    assert forall i :: 0 <= i < |rest| ==> rest[i] == s[i + 1];
  }

  lemma ApplyNothing(o: OutputState, trigger: Trigger)
    ensures Apply(o, [], trigger, 0, NO_ENVIRONMENT) == o
  {
  }

  lemma ApplyMark(o: OutputState, rest: KeySequence, trigger: Trigger)
    requires ValidOutput([RELEASE_MARK] + rest) && TriggerEvent(trigger).state == Down
    ensures Apply(o, [RELEASE_MARK] + rest, trigger, 0, NO_ENVIRONMENT)
      == o.(onRelease := o.onRelease + [OnReleaseOutput(TriggerKey(trigger), rest, 0)])
  {
    assert ([RELEASE_MARK] + rest)[1..] == rest;
  }

  /** The entry of K, which T1 holds. */
  function HeldBy(k: Key, t1: Key, suppressed: bool, released: bool, twice: bool, buffer: KeySequence): Ledger {
    Ledger([OutputDown(k, KeyTrigger(t1), suppressed, released, twice, 0)], buffer, false)
  }

  /** Pressed once more by another input, K is marked; released, it is not. */
  lemma PressedTwice(k: Key, t1: Key, twice: bool, suppressed: bool, buffer: KeySequence, trigger: Trigger)
    requires IsDeviceKey(k) && !IsCommonModifier(k)
    ensures ApplyEvent(HeldBy(k, t1, suppressed, suppressed, twice, buffer), Press(k), trigger, 0, NO_ENVIRONMENT)
      == HeldBy(k, t1, suppressed, false, true, buffer + [Press(k)])
  {
    var l := HeldBy(k, t1, suppressed, suppressed, twice, buffer);
    assert Reapply(l, k, 0) == Reapply(l, k, 1) == (l, false);
  }

  lemma ErasedAgain(k: Key, t1: Key, released: bool, buffer: KeySequence, last: KeyEvent, trigger: Trigger)
    requires IsDeviceKey(k) && last.key == k
    ensures ApplyEvent(HeldBy(k, t1, false, released, true, buffer + [last]), Release(k), trigger, 0, NO_ENVIRONMENT)
      == HeldBy(k, t1, false, released, false, buffer)
  {
    RFindUnique(buffer + [last], k, |buffer|);
    assert Erase(buffer + [last], |buffer|) == buffer;
  }

  lemma Suppressing(k: Key, t1: Key, trigger: Trigger)
    requires IsDeviceKey(k) && TriggerKey(trigger) != t1
    ensures ApplyEvent(HeldBy(k, t1, false, false, false, []), KeyEvent(k, Not, 0), trigger, 0, NO_ENVIRONMENT)
      == HeldBy(k, t1, true, true, false, [Release(k)])
    ensures ApplyEvent(HeldBy(k, t1, true, false, true, [Release(k), Press(k)]), Release(k), trigger, 0, NO_ENVIRONMENT)
      == HeldBy(k, t1, true, true, true, [Release(k), Press(k), Release(k)])
  {
    assert [] + [Release(k)] == [Release(k)];
    assert [Release(k), Press(k)] + [Release(k)] == [Release(k), Press(k), Release(k)];
  }

  lemma Unheld(k: Key, c: Key, t1: Key, twice: bool, buffer: KeySequence, trigger: Trigger)
    requires IsDeviceKey(c) && c != k
    ensures ApplyEvent(HeldBy(k, t1, false, false, twice, buffer), KeyEvent(c, Not, 0), trigger, 0, NO_ENVIRONMENT)
      == HeldBy(k, t1, false, false, twice, buffer)
  {
  }

  /** `K K !C ^`, with K held by T1 already. */
  lemma SecondApplied(k: Key, c: Key, t1: Key, trigger: Trigger)
    requires IsDeviceKey(k) && IsDeviceKey(c) && !IsCommonModifier(k) && c != k && TriggerEvent(trigger).state == Down
    ensures Apply(OutputState(HeldBy(k, t1, false, false, false, []), []), SecondOutput(k, c), trigger, 0, NO_ENVIRONMENT)
      == OutputState(HeldBy(k, t1, false, false, true, [Press(k)]), [OnReleaseOutput(TriggerKey(trigger), [Release(k)], 0)])
  {
    hide ApplyEvent, Apply, ValidOutput;
    var rest := [RELEASE_MARK] + [Release(k)];
    var r1 := [KeyEvent(c, Not, 0)] + rest;
    var r2 := [Press(k)] + r1;
    var r3 := [Release(k)] + r2;
    assert SecondOutput(k, c) == [Press(k)] + r3;
    assert ValidOutput(SecondOutput(k, c)) by { SecondIsValid(k, c); }
    var l0, l1 := HeldBy(k, t1, false, false, false, []), HeldBy(k, t1, false, false, true, [Press(k)]);
    PressedTwice(k, t1, false, false, [], trigger);
    ErasedAgain(k, t1, false, [], Press(k), trigger);
    Unheld(k, c, t1, true, [Press(k)], trigger);
    assert [] + [Press(k)] == [Press(k)];
    ApplyNext(OutputState(l0, []), Press(k), r3, trigger);
    ApplyNext(OutputState(l1, []), Release(k), r2, trigger);
    ApplyNext(OutputState(l0, []), Press(k), r1, trigger);
    ApplyNext(OutputState(l1, []), KeyEvent(c, Not, 0), rest, trigger);
    ApplyMark(OutputState(l1, []), [Release(k)], trigger);
    assert [] + [OnReleaseOutput(TriggerKey(trigger), [Release(k)], 0)] == [OnReleaseOutput(TriggerKey(trigger), [Release(k)], 0)];
  }

  lemma SecondIsValid(k: Key, c: Key)
    ensures ValidOutput(SecondOutput(k, c)) && ValidOutput(FirstOutput(k)) && ValidOutput(Twice(k))
    ensures ValidOutput([Press(k)]) && ValidOutput([Release(k)])
  {
  }

  /** `K ^ !K K` behind it. */
  lemma FirstApplied(k: Key, t1: Key, waiting: seq<OnReleaseOutput>, trigger: Trigger)
    requires IsDeviceKey(k) && !IsCommonModifier(k) && TriggerEvent(trigger).state == Down
    ensures Apply(OutputState(HeldBy(k, t1, false, false, true, [Press(k)]), waiting), FirstOutput(k), trigger, 0, NO_ENVIRONMENT)
      == OutputState(HeldBy(k, t1, false, false, false, [Press(k)]), waiting + [OnReleaseOutput(TriggerKey(trigger), Twice(k), 0)])
  {
    hide ApplyEvent, Apply, ValidOutput;
    var rest := [RELEASE_MARK] + Twice(k);
    var r1 := [Release(k)] + rest;
    assert FirstOutput(k) == [Press(k)] + r1;
    SecondIsValid(k, k);
    PressedTwice(k, t1, true, false, [Press(k)], trigger);
    ErasedAgain(k, t1, false, [Press(k)], Press(k), trigger);
    ApplyNext(OutputState(HeldBy(k, t1, false, false, true, [Press(k)]), waiting), Press(k), r1, trigger);
    ApplyNext(OutputState(HeldBy(k, t1, false, false, true, [Press(k)] + [Press(k)]), waiting), Release(k), rest, trigger);
    ApplyMark(OutputState(HeldBy(k, t1, false, false, false, [Press(k)]), waiting), Twice(k), trigger);
  }

  /** `!K K` when T2 is released: K is released, pressed and released again. */
  lemma TwiceApplied(k: Key, t1: Key, waiting: seq<OnReleaseOutput>, trigger: Trigger)
    requires IsDeviceKey(k) && !IsCommonModifier(k) && TriggerKey(trigger) != t1
    ensures Apply(OutputState(HeldBy(k, t1, false, false, false, []), waiting), Twice(k), trigger, 0, NO_ENVIRONMENT)
      == OutputState(HeldBy(k, t1, true, true, true, [Release(k), Press(k), Release(k)]), waiting)
  {
    hide ApplyEvent, Apply, ValidOutput;
    var r1 := [Release(k)] + [];
    var r2 := [Press(k)] + r1;
    assert Twice(k) == [KeyEvent(k, Not, 0)] + r2;
    SecondIsValid(k, k);
    Suppressing(k, t1, trigger);
    PressedTwice(k, t1, false, true, [Release(k)], trigger);
    assert [Release(k)] + [Press(k)] == [Release(k), Press(k)];
    ApplyNext(OutputState(HeldBy(k, t1, false, false, false, []), waiting), KeyEvent(k, Not, 0), r2, trigger);
    ApplyNext(OutputState(HeldBy(k, t1, true, true, false, [Release(k)]), waiting), Press(k), r1, trigger);
    ApplyNext(OutputState(HeldBy(k, t1, true, false, true, [Release(k), Press(k)]), waiting), Release(k), [], trigger);
    ApplyNothing(OutputState(HeldBy(k, t1, true, true, true, [Release(k), Press(k), Release(k)]), waiting), trigger);
  }

  /** The release behind the other `^` erases the last one of these. */
  lemma ReleaseApplied(k: Key, t1: Key, waiting: seq<OnReleaseOutput>, trigger: Trigger)
    requires IsDeviceKey(k)
    ensures Apply(OutputState(HeldBy(k, t1, false, true, true, [Release(k), Press(k), Release(k)]), waiting), [Release(k)],
                  trigger, 0, NO_ENVIRONMENT)
      == OutputState(HeldBy(k, t1, false, true, false, [Release(k), Press(k)]), waiting)
  {
    hide ApplyEvent, Apply, ValidOutput;
    SecondIsValid(k, k);
    assert [Release(k), Press(k)] + [Release(k)] == [Release(k), Press(k), Release(k)];
    assert [Release(k)] + [] == [Release(k)];
    ErasedAgain(k, t1, true, [Release(k), Press(k)], Release(k), trigger);
    ApplyNext(OutputState(HeldBy(k, t1, false, true, true, [Release(k), Press(k), Release(k)]), waiting), Release(k), [], trigger);
    ApplyNothing(OutputState(HeldBy(k, t1, false, true, false, [Release(k), Press(k)]), waiting), trigger);
  }

  // ---------------------------------------------------------------------------
  // Released while applied

  /** K is up, and no press of another key brings it back. */
  predicate KeptUp(l: Ledger, sent: KeySequence, k: Key) {
    && !IsDown(sent + l.buffer, k)
    && forall i :: 0 <= i < |l.down| && l.down[i].key == k ==>
         l.down[i].temporarilyReleased && l.down[i].suppressed
  }

  /** Entry `i` and the buffer change. */
  lemma SetKeepsUp(l: Ledger, sent: KeySequence, i: nat, entry: OutputDown, buffer: KeySequence, k: Key)
    requires KeptUp(l, sent, k) && i < |l.down| && entry.key == l.down[i].key
    requires entry.key == k ==> entry.temporarilyReleased && entry.suppressed
    requires !IsDown(sent + buffer, k)
    ensures KeptUp(l.(down := l.down[i := entry], buffer := buffer), sent, k)
  {
  }

  lemma EraseKeepsUp(l: Ledger, sent: KeySequence, i: nat, buffer: KeySequence, k: Key)
    requires KeptUp(l, sent, k) && i < |l.down| && !IsDown(sent + buffer, k)
    ensures KeptUp(l.(down := Erase(l.down, i), buffer := buffer), sent, k)
  {
    var down := Erase(l.down, i);
    assert forall j :: 0 <= j < |down| ==> down[j] == l.down[if j < i then j else j + 1];
  }

  lemma UpKeepsUp(l: Ledger, sent: KeySequence, event: KeyEvent, trigger: Trigger, k: Key)
    requires KeptUp(l, sent, k) && Unique(l.down) && event.state == Up && !IsVirtualKey(k)
    ensures KeptUp(UpdateUp(l, event, trigger), sent, k)
  {
    hide IsDown;
    var it := FindDown(l.down, event.key);
    if it >= 0 {
      IsDownEmit(sent, l.buffer, event, k);
      var entry := l.down[it];
      var it2 := RFindKey(l.buffer, event.key);
      if entry.pressedTwice && IsVirtualKey(event.key) {
        SetKeepsUp(l, sent, it, entry.(pressedTwice := false), l.buffer + [event], k);
      } else if entry.pressedTwice && !entry.suppressed {
        if it2 >= 0 {
          IsDownErase(sent, l.buffer, it2, k);
          SetKeepsUp(l, sent, it, entry.(pressedTwice := false), Erase(l.buffer, it2), k);
        } else {
          SetKeepsUp(l, sent, it, entry.(pressedTwice := false), l.buffer, k);
        }
      } else if TriggerKey(entry.trigger) == TriggerKey(trigger) {
        EraseKeepsUp(l, sent, it, l.buffer + [event], k);
      } else {
        SetKeepsUp(l, sent, it, entry.(temporarilyReleased := true), l.buffer + [event], k);
      }
    }
  }

  lemma {:induction false} ReapplyKeepsUp(l: Ledger, sent: KeySequence, j: Key, i: nat, k: Key)
    requires KeptUp(l, sent, k) && j != k
    ensures KeptUp(Reapply(l, j, i).0, sent, k)
    decreases |l.down| - i
  {
    if i < |l.down| {
      var entry := l.down[i];
      var n := |l.buffer|;
      if entry.temporarilyReleased && !entry.suppressed {
        IsDownEmit(sent, l.buffer, Press(entry.key), k);
        var next := l.Set(i, entry.(temporarilyReleased := false)).Emit(Press(entry.key)).(reapplied := true);
        assert KeptUp(next, sent, k);
        if entry.key != j {
          ReapplyKeepsUp(next, sent, j, i + 1, k);
        }
      } else if entry.temporarilyReleased && entry.key == j && IsCommonModifier(j)
                && n > 0 && l.buffer[n - 1].Same(Release(j)) {
        IsDownPop(sent, l.buffer, k);
      } else {
        ReapplyKeepsUp(l, sent, j, i + 1, k);
      }
    }
  }

  lemma PressKeepsUp(l: Ledger, sent: KeySequence, event: KeyEvent, trigger: Trigger, contextIndex: int, k: Key)
    requires KeptUp(l, sent, k) && event.state == Down && event.key != k
    ensures KeptUp(PressKey(l, event, trigger, contextIndex), sent, k)
  {
    IsDownEmit(sent, l.buffer, event, k);
    IsDownEmit(sent, l.buffer, Release(event.key), k);
    IsDownEmit(sent, l.buffer + [Release(event.key)], event, k);
  }

  lemma UpdateKeepsUp(l: Ledger, sent: KeySequence, event: KeyEvent, trigger: Trigger, contextIndex: int, k: Key)
    requires KeptUp(l, sent, k) && Unique(l.down) && IsOutputState(event.state) && !IsVirtualKey(k)
    requires event.state == Down ==> event.key != k
    ensures KeptUp(Update(l, event, trigger, contextIndex), sent, k)
    ensures Unique(Update(l, event, trigger, contextIndex).down)
  {
    hide UpdateUp, Reapply, PressKey, KeptUp;
    UpdateKeepsUnique(l, event, trigger, contextIndex);
    match event.state
    case Up => UpKeepsUp(l, sent, event, trigger, k);
    case Not => NotKeepsUp(l, sent, event.key, k);
    case Down =>
      ReapplyKeepsUp(l, sent, event.key, 0, k);
      PressKeepsUp(Reapply(l, event.key, 0).0, sent, event, trigger, contextIndex, k);
    case _ =>
  }

  lemma NotKeepsUp(l: Ledger, sent: KeySequence, j: Key, k: Key)
    requires KeptUp(l, sent, k)
    ensures KeptUp(UpdateNot(l, j), sent, k)
  {
    IsDownEmit(sent, l.buffer, Release(j), k);
  }

  /** `!K` brings K up. */
  lemma NotBringsUp(l: Ledger, sent: KeySequence, k: Key)
    requires Inv(l, sent) && k != TIMEOUT && !IsVirtualKey(k) && !IsActionKey(k)
    ensures KeptUp(UpdateNot(l, k), sent, k)
  {
    assert Tracked(l.down, sent + l.buffer, k);
    var it := FindDown(l.down, k);
    if it >= 0 {
      IsDownEmit(sent, l.buffer, Release(k), k);
      if l.down[it].temporarilyReleased && Holds(l.down, k) {
        var j :| 0 <= j < |l.down| && l.down[j].key == k && !l.down[j].temporarilyReleased;
        FindUnique(l.down, j);
      }
      var next := UpdateNot(l, k);
      forall i | 0 <= i < |next.down| && next.down[i].key == k
        ensures next.down[i].temporarilyReleased && next.down[i].suppressed
      {
        FindUnique(l.down, i);
      }
    }
  }

  lemma {:induction false} AllKeepUp(l: Ledger, sent: KeySequence, keys: seq<Key>, state: KeyState,
                                     trigger: Trigger, contextIndex: int, k: Key)
    requires KeptUp(l, sent, k) && Unique(l.down) && IsOutputState(state) && !IsVirtualKey(k)
    requires state == Down ==> k !in keys
    ensures KeptUp(UpdateAll(l, keys, state, trigger, contextIndex), sent, k)
    ensures Unique(UpdateAll(l, keys, state, trigger, contextIndex).down)
    decreases |keys|
  {
    hide Update, KeptUp, Unique;
    if keys != [] {
      UpdateKeepsUp(l, sent, KeyEvent(keys[0], state, 0), trigger, contextIndex, k);
      AllKeepUp(Update(l, KeyEvent(keys[0], state, 0), trigger, contextIndex), sent, keys[1..], state, trigger, contextIndex, k);
    }
  }

  /** `!Any` brings K up, whatever holds it. */
  lemma {:induction false} NotAllBringsUp(l: Ledger, sent: KeySequence, keys: seq<Key>, trigger: Trigger,
                                          contextIndex: int, k: Key)
    requires Inv(l, sent) && k != TIMEOUT && !IsVirtualKey(k) && !IsActionKey(k)
    requires k in keys || FindDown(l.down, k) < 0
    ensures KeptUp(UpdateAll(l, keys, Not, trigger, contextIndex), sent, k)
    decreases |keys|
  {
    hide UpdateNot, Inv, KeptUp;
    InvUnique(l, sent);
    if FindDown(l.down, k) < 0 {
      NoEntryIsUp(l, sent, k);
      AllKeepUp(l, sent, keys, Not, trigger, contextIndex, k);
    } else if keys[0] == k {
      NotBringsUp(l, sent, k);
      UpdateKeepsUnique(l, KeyEvent(k, Not, 0), trigger, contextIndex);
      AllKeepUp(UpdateNot(l, k), sent, keys[1..], Not, trigger, contextIndex, k);
    } else {
      NotKeeps(l, sent, keys[0]);
      NotAllBringsUp(UpdateNot(l, keys[0]), sent, keys[1..], trigger, contextIndex, k);
    }
  }

  lemma NoEntryIsUp(l: Ledger, sent: KeySequence, k: Key)
    requires Inv(l, sent) && k != TIMEOUT && FindDown(l.down, k) < 0
    ensures KeptUp(l, sent, k)
  {
    assert Tracked(l.down, sent + l.buffer, k);
  }

  lemma EventKeepsUp(l: Ledger, sent: KeySequence, event: KeyEvent, trigger: Trigger, contextIndex: int,
                     env: Environment, k: Key)
    requires KeptUp(l, sent, k) && Unique(l.down) && IsOutputState(event.state) && !IsVirtualKey(k)
    requires event.state == Down ==> k !in Addressed(event, env)
    ensures KeptUp(ApplyEvent(l, event, trigger, contextIndex, env), sent, k)
    ensures Unique(ApplyEvent(l, event, trigger, contextIndex, env).down)
  {
    hide Update, UpdateAll, KeptUp, Unique;
    if event.key == ANY {
      AllKeepUp(l, sent, if event.state == Not then DownKeys(l.down) else env.anyKeys, event.state, trigger, contextIndex, k);
    } else if IsVirtualKey(event.key) {
      UpdateKeepsUp(l, sent, event, trigger, contextIndex, k);
      UpdateKeepsUp(l, sent, Press(event.key), trigger, contextIndex, k);
      UpdateKeepsUp(Update(l, Press(event.key), trigger, contextIndex), sent, Release(event.key), trigger, contextIndex, k);
    } else {
      UpdateKeepsUp(l, sent, event, trigger, contextIndex, k);
    }
  }

  lemma {:induction false} ApplyKeepsUp(o: OutputState, sent: KeySequence, s: KeySequence, trigger: Trigger,
                                        contextIndex: int, env: Environment, k: Key)
    requires KeptUp(o.ledger, sent, k) && Unique(o.ledger.down) && ValidOutput(s) && !IsVirtualKey(k)
    requires forall i :: 0 <= i < |s| && s[i].state == Down ==> k !in Addressed(s[i], env)
    ensures KeptUp(Apply(o, s, trigger, contextIndex, env).ledger, sent, k)
    decreases |s|
  {
    hide ApplyEvent, KeptUp, Unique;
    if s != [] {
      if s[0].state == OutputOnRelease {
        ApplyKeepsUp(o, sent, s[1..], trigger, contextIndex, env, k);
      } else {
        EventKeepsUp(o.ledger, sent, s[0], trigger, contextIndex, env, k);
        ApplyKeepsUp(o.(ledger := ApplyEvent(o.ledger, s[0], trigger, contextIndex, env)), sent, s[1..], trigger, contextIndex, env, k);
      }
    }
  }

  /** Once `!K` or `!Any` was processed K is up and stays up at every moment
      until the output ends or presses K itself, although presses of other keys
      press every key again that is only temporarily released. */
  lemma ReleasedWhileApplied(o: OutputState, sent: KeySequence, event: KeyEvent, rest: KeySequence, n: nat,
                             trigger: Trigger, contextIndex: int, env: Environment, k: Key)
    requires Inv(o.ledger, sent) && event.state == Not && (event.key == k || event.key == ANY)
    requires k != ANY && k != TIMEOUT && !IsVirtualKey(k) && !IsActionKey(k)
    requires ValidOutput(rest) && n <= |rest|
    requires forall i :: 0 <= i < n && rest[i].state == Down ==> k !in Addressed(rest[i], env)
    ensures var after := o.(ledger := ApplyEvent(o.ledger, event, trigger, contextIndex, env));
      var l := Apply(after, rest[..n], trigger, contextIndex, env).ledger;
      !IsDown(sent + l.buffer, k)
  {
    hide UpdateNot, Inv, Apply;
    var l := o.ledger;
    var next := ApplyEvent(l, event, trigger, contextIndex, env);
    InvUnique(l, sent);
    if event.key == ANY {
      assert FindDown(l.down, k) >= 0 ==> DownKeys(l.down)[FindDown(l.down, k)] == k;
      NotAllBringsUp(l, sent, DownKeys(l.down), trigger, contextIndex, k);
      EventKeepsMayRelease(l, event, trigger, contextIndex, env, FIRST_VIRTUAL);
    } else {
      NotBringsUp(l, sent, k);
      UpdateKeepsUnique(l, event, trigger, contextIndex);
    }
    ApplyKeepsUp(o.(ledger := next), sent, rest[..n], trigger, contextIndex, env, k);
  }
}
