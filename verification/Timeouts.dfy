/** Timeouts, from the text of an input to what cancels them and when the input
    matches: `src/config/ParseKeySequence.cpp`, `src/runtime/MatchKeySequence.cpp`,
    `src/runtime/Stage.cpp` and `src/server/ServerState.cpp`. */
module Timeouts {
  import opened Keys
  import opened Matcher
  import opened Compiler
  import opened HeldKeys
  import C = CompilerTheorems
  import Contexts
  import Mappings
  import Outputs
  import Q = InputSequence
  import M = StageModel
  import S = Server

  /** `100ms` or `!100ms` */
  function TimeoutToken(t: Value, isNot: bool): Token { if isNot then NotTimeout(t) else Timeout(t) }

  /** `k 100ms`, or `k{100ms}` */
  function TimeoutTokens(k: Key, t: Value, isNot: bool, inGroup: bool): seq<Token> {
    if inGroup then [KeyName(k), OpenModified, TimeoutToken(t, isNot), CloseModified]
    else [KeyName(k), TimeoutToken(t, isNot)]
  }

  function TimeoutEvent(t: Value, isNot: bool, inGroup: bool): KeyEvent {
    KeyEvent(TIMEOUT, if isNot then (if inGroup then NotTimeoutCancelOnUpDown else Not) else if inGroup then Up else Down, t)
  }

  function TimeoutExpression(k: Key, t: Value, isNot: bool, inGroup: bool): Expression {
    var timeout, release := TimeoutEvent(t, isNot, inGroup), KeyEvent(k, UpAsync, 0);
    if !inGroup then [Press(k), release, timeout]
    else if isNot then [Press(k), timeout, release, Release(k)]
    else [Press(k), timeout, release]
  }

  // ---------------------------------------------------------------------------
  // Compiling

  lemma TimeoutAdded(p: Parser, k: Key, t: Value, isNot: bool)
    requires p.isInput && p.buffer == [] && p.sequence != [] && p.sequence[|p.sequence| - 1].key != TIMEOUT
    requires p.sequence[|p.sequence| - 1].state != Not
    ensures p.AddTimeout(t, isNot) == Ok(p.(sequence := p.sequence + [TimeoutEvent(t, isNot, p.inModified > 0)]))
  {
    FlushNothing(p);
  }

  lemma KeyFlushed(k: Key)
    ensures Start(true).(buffer := [k]).Flush(true) == Start(true).(sequence := [Press(k), KeyEvent(k, UpAsync, 0)])
  {
    C.OneEvent(k, Down);
    C.OneEvent(k, UpAsync);
    assert [] + [Press(k)] + [KeyEvent(k, UpAsync, 0)] == [Press(k), KeyEvent(k, UpAsync, 0)];
  }

  lemma FlushedTimeout(p: Parser, t: Value, isNot: bool)
    requires p.isInput
    ensures p.AddTimeout(t, isNot) == p.Flush(true).AddTimeout(t, isNot)
  {
    hide Parser.Flush;
    C.FlushKeeps(p);
    FlushNothing(p.Flush(true));
  }

  lemma CompileAlone(k: Key, t: Value, isNot: bool)
    requires IsDeviceKey(k)
    ensures Compile(TimeoutTokens(k, t, isNot, false), true) == Ok(TimeoutExpression(k, t, isNot, false))
  {
    hide Parser.Finish, Parser.Flush, Parser.AddTimeout;
    var tokens := TimeoutTokens(k, t, isNot, false);
    var named := Start(true).(buffer := [k]);
    var p := Start(true).(sequence := [Press(k), KeyEvent(k, UpAsync, 0)]);
    assert tokens[1..] == [TimeoutToken(t, isNot)] && tokens[1..][1..] == [];
    FlushNothing(Start(true));
    C.NameRead(Start(true), k);
    KeyFlushed(k);
    FlushedTimeout(named, t, isNot);
    TimeoutAdded(p, k, t, isNot);
    var done := p.(sequence := TimeoutExpression(k, t, isNot, false));
    assert p.sequence + [TimeoutEvent(t, isNot, false)] == done.sequence;
    FlushNothing(done);
    assert ParseTokens(named, tokens[1..]) == ParseTokens(done, []) == Ok(done);
    FinishTimeout(done);
  }

  /** An input with a pressed key and a timeout is final, when no other `!` ends it. */
  lemma FinishTimeout(p: Parser)
    requires p.isInput && !p.isNoMightMatch && !p.inTogether && p.inModified == 0
    requires p.sequence != [] && p.sequence[0].state == Down && IsDeviceKey(p.sequence[0].key)
    requires forall i :: 0 <= i < |p.sequence| ==>
      p.sequence[i].key != CONTEXT_ACTIVE && (p.sequence[i].state == Not ==> p.sequence[i].key == TIMEOUT)
    ensures p.Finish() == Ok(p.sequence)
  {
    assert HasUpOrDown(p.sequence);
  }

  /** Behind `k{` */
  function GroupOf(k: Key): Parser {
    Start(true).(sequence := [Press(k)], pressed := [k], pressedBefore := [0], inModified := 1, hasModifier := true)
  }

  lemma GroupOpened(k: Key)
    requires IsDeviceKey(k)
    ensures Start(true).(buffer := [k]).OpenGroup() == GroupOf(k)
  {
    C.HeldOpen(Start(true), k);
    assert [] + [|Start(true).pressed|] == [0] && [] + [Press(k)] == [Press(k)] && [] + [k] == [k];
  }

  lemma GroupClosed(k: Key, t: Value, isNot: bool)
    requires IsDeviceKey(k)
    ensures var p := GroupOf(k).(sequence := [Press(k), TimeoutEvent(t, isNot, true)]);
      p.CloseGroup() == Start(true).(hasModifier := true, sequence := TimeoutExpression(k, t, isNot, true))
  {
    var p := GroupOf(k).(sequence := [Press(k), TimeoutEvent(t, isNot, true)]);
    FlushNothing(p);
    C.ReleaseOne(k);
    assert [k][0..] == [k] && [k][..0] == [] && [0][..0] == [];
    var released := [Press(k), TimeoutEvent(t, isNot, true), KeyEvent(k, UpAsync, 0)];
    assert p.sequence + [KeyEvent(k, UpAsync, 0)] == released;
    assert released[2..] == [KeyEvent(k, UpAsync, 0)];
    assert SyncEvents(released, 3) == SyncEvents(released, 2);
    assert SyncEvents(released, 2) == if isNot then Events(KeysOf(released[2..]), Up) else [];
    assert KeysOf(released[2..]) == [k];
    C.OneEvent(k, Up);
    assert released + [] == released && released + [Release(k)] == [Press(k), TimeoutEvent(t, isNot, true), KeyEvent(k, UpAsync, 0), Release(k)];
  }

  lemma CompileInGroup(k: Key, t: Value, isNot: bool)
    requires IsDeviceKey(k)
    ensures Compile(TimeoutTokens(k, t, isNot, true), true) == Ok(TimeoutExpression(k, t, isNot, true))
  {
    hide Parser.Finish, Parser.Flush, Parser.AddTimeout, Parser.OpenGroup, Parser.CloseGroup;
    var tokens := TimeoutTokens(k, t, isNot, true);
    var named, group := Start(true).(buffer := [k]), GroupOf(k);
    FlushNothing(Start(true));
    C.NameRead(Start(true), k);
    GroupOpened(k);
    TimeoutAdded(group, k, t, isNot);
    assert group.sequence + [TimeoutEvent(t, isNot, true)] == [Press(k), TimeoutEvent(t, isNot, true)];
    GroupClosed(k, t, isNot);
    var p := group.(sequence := [Press(k), TimeoutEvent(t, isNot, true)]);
    C.CloseParsed(p);
    FlushNothing(p.CloseGroup());
    FinishTimeout(p.CloseGroup());
    assert tokens[1..][1..][1..] == [CloseModified];
    assert ParseTokens(named, tokens[1..]) == ParseTokens(group, tokens[1..][1..]);
    assert ParseTokens(group, tokens[1..][1..]) == ParseTokens(p, [CloseModified]);
  }

  lemma TimeoutMerged(p: Parser, t: Value, u: Value)
    requires p.isInput && p.buffer == [] && p.inModified == 0 && p.sequence != [] && p.sequence[|p.sequence| - 1] == TimeoutEvent(t, false, false)
    ensures p.AddTimeout(u, false) == Ok(p.(sequence := p.sequence[..|p.sequence| - 1] + [TimeoutEvent(SumTimeouts(t, u), false, false)]))
  {
    FlushNothing(p);
    var n := |p.sequence|;
    var both := TimeoutEvent(SumTimeouts(t, u), false, false);
    assert p.sequence[n - 1 := both] == p.sequence[..n - 1] + [both];
  }

  /** Timeouts in a row add up, as far as 12 bits go. */
  lemma TimeoutsAddUp(k: Key, t: Value, u: Value)
    requires IsDeviceKey(k)
    ensures Compile([KeyName(k), Timeout(t), Timeout(u)], true)
      == Compile([KeyName(k), Timeout(if t + u < 0x1000 then t + u else 0xFFF)], true)
  {
    hide Parser.Finish, Parser.Flush, Parser.AddTimeout;
    var tokens := [KeyName(k), Timeout(t), Timeout(u)];
    var named := Start(true).(buffer := [k]);
    var p := Start(true).(sequence := [Press(k), KeyEvent(k, UpAsync, 0)]);
    assert tokens[1..] == [Timeout(t), Timeout(u)] && tokens[1..][1..] == [Timeout(u)] && [Timeout(u)][1..] == [];
    FlushNothing(Start(true));
    C.NameRead(Start(true), k);
    KeyFlushed(k);
    FlushedTimeout(named, t, false);
    TimeoutAdded(p, k, t, false);
    var one := p.(sequence := TimeoutExpression(k, t, false, false));
    var both := p.(sequence := TimeoutExpression(k, SumTimeouts(t, u), false, false));
    assert p.sequence + [TimeoutEvent(t, false, false)] == one.sequence;
    TimeoutMerged(one, t, u);
    assert one.sequence[..2] + [TimeoutEvent(SumTimeouts(t, u), false, false)] == both.sequence;
    FlushNothing(both);
    assert ParseTokens(named, tokens[1..]) == ParseTokens(one, [Timeout(u)]);
    assert ParseTokens(one, [Timeout(u)]) == ParseTokens(both, []) == Ok(both);
    FinishTimeout(both);
    CompileAlone(k, SumTimeouts(t, u), false);
  }

  // ---------------------------------------------------------------------------
  // Matching

  /** After the press the input waits for its timeout. */
  lemma PressWaits(k: Key, t: Value, isNot: bool, inGroup: bool, optional: bool)
    requires IsDeviceKey(k)
    ensures Matching(TimeoutExpression(k, t, isNot, inGroup), [Press(k)], optional)
      == Outcome(MightMatch, [], TimeoutEvent(t, isNot, inGroup))
  {
    hide Step, Run;
    var ex, sq: RealEvents := TimeoutExpression(k, t, isNot, inGroup), [Press(k)];
    var c1 := START.(e := 1, s := 1);
    FirstPressIsRead(ex, sq, optional, k);
    if inGroup {
      TimeoutIsAwaited(ex, sq, optional, c1);
    } else {
      AsyncIsRead(ex, sq, optional, c1);
      TimeoutIsAwaited(ex, sq, optional, c1.(e := 2, async := c1.async + [ex[1]]));
    }
  }

  lemma TimeoutIsAwaited(ex: KeySequence, sq: RealEvents, optional: bool, c: Cursor)
    requires c.Within(ex, sq) && c.e < |ex| && c.s == |sq| && ex[c.e].key == TIMEOUT
    requires ex[c.e].state in {Up, Down, Not, NotTimeoutCancelOnUpDown} && c.notKeys == []
    ensures Run(ex, sq, optional, c) == Outcome(MightMatch, c.anyKeys, ex[c.e])
  {
    hide StepIndirect;
    assert Step(ex, sq, optional, c) == Done(Outcome(MightMatch, c.anyKeys, ex[c.e]));
  }

  /** The elapsed time is as the input demands. */
  predicate InTime(v: Value, t: Value, isNot: bool) { if isNot then v < t else v >= t }

  lemma TimeoutRead(k: Key, t: Value, isNot: bool, inGroup: bool, v: Value, more: KeySequence, optional: bool, c: Cursor)
    requires IsDeviceKey(k) && (forall i :: 0 <= i < |more| ==> more[i].key != NONE)
    requires c == if inGroup then START.(e := 1, s := 1) else START.(e := 2, s := 1, async := [KeyEvent(k, UpAsync, 0)])
    ensures var ex, sq := TimeoutExpression(k, t, isNot, inGroup), [Press(k), S.ElapsedEvent(v)] + more;
      && (forall i :: 0 <= i < |sq| ==> sq[i].key != NONE)
      && Step(ex, sq, optional, c) == if InTime(v, t, isNot) then Continue(c.(e := c.e + 1, s := 2)) else Verdict(NoMatch, c)
  {
    var ex, sq := TimeoutExpression(k, t, isNot, inGroup), [Press(k), S.ElapsedEvent(v)] + more;
    assert sq[0] == Press(k) && sq[1] == S.ElapsedEvent(v);
    assert forall i :: 0 <= i < |sq| ==> sq[i].key != NONE;
    assert At(sq, 1) == S.ElapsedEvent(v) && At(ex, c.e) == TimeoutEvent(t, isNot, inGroup);
    NoEvents(c.async, k);
  }

  lemma NoEvents(async: KeySequence, k: Key)
    requires IsDeviceKey(k) && (async == [] || async == [KeyEvent(k, UpAsync, 0)])
    ensures WithoutEventsOf(async, TIMEOUT) == async
    ensures FindPending(async, UpAsync, TIMEOUT) < 0
    ensures forall ee: KeyEvent :: ee.key == TIMEOUT ==> FindUnifiable(async, ee) < 0
  {
    if async != [] {
      assert async[1..] == [];
    }
  }

  lemma ElapsedMatches(k: Key, t: Value, isNot: bool, inGroup: bool, v: Value, optional: bool)
    requires IsDeviceKey(k)
    ensures var r := Matching(TimeoutExpression(k, t, isNot, inGroup), [Press(k), S.ElapsedEvent(v)], optional).result;
      r == if !InTime(v, t, isNot) then NoMatch else if isNot && inGroup then MightMatch else Match
  {
    var ex, sq: RealEvents := TimeoutExpression(k, t, isNot, inGroup), [Press(k), S.ElapsedEvent(v)];
    var release := KeyEvent(k, UpAsync, 0);
    var c1 := START.(e := 1, s := 1);
    var c2 := START.(e := 2, s := 1, async := [] + [release]);
    assert Step(ex, sq, optional, START) == Continue(c1);
    assert !inGroup ==> Step(ex, sq, optional, c1) == Continue(c2);
    var c := if inGroup then c1 else c2;
    assert [Press(k), S.ElapsedEvent(v)] + [] == sq;
    TimeoutRead(k, t, isNot, inGroup, v, [], optional, c);
    hide Step;
    assert Run(ex, sq, optional, START) == Run(ex, sq, optional, c1) == Run(ex, sq, optional, c);
    if InTime(v, t, isNot) {
      assert Run(ex, sq, optional, c) == Run(ex, sq, optional, c.(e := c.e + 1, s := 2));
      if inGroup {
        GroupEnds(k, t, isNot, sq, optional);
      }
    }
  }

  lemma GroupEnds(k: Key, t: Value, isNot: bool, sq: RealEvents, optional: bool)
    requires IsDeviceKey(k) && |sq| == 2
    ensures Run(TimeoutExpression(k, t, isNot, true), sq, optional, START.(e := 2, s := 2)).result == if isNot then MightMatch else Match
  {
    var ex: Expression := TimeoutExpression(k, t, isNot, true);
    var d := START.(e := 2, s := 2);
    var d2 := d.(e := 3, async := d.async + [KeyEvent(k, UpAsync, 0)]);
    assert Step(ex, sq, optional, d) == Continue(d2);
    assert isNot ==> Step(ex, sq, optional, d2) == Verdict(MightMatch, d2) by { ReleaseAwaited(k); }
    hide Step;
    assert Run(ex, sq, optional, d) == Run(ex, sq, optional, d2);
  }

  lemma ReleaseAwaited(k: Key)
    requires IsDeviceKey(k)
    ensures var async := [] + [KeyEvent(k, UpAsync, 0)];
      FindPending(async, UpAsync, NONE) < 0 && FindUnifiable(async, Release(k)) < 0 && FindEvent(async, k, DownAsync) < 0
  {
    var async := [] + [KeyEvent(k, UpAsync, 0)];
    assert async[1..] == [];
  }

  /** In a history the times between the events add up: `? a 100ms b` matches when a was
      tapped and b pressed, exactly if the times before b are at least the duration. */
  lemma HistoryTimesAddUp(a: Key, b: Key, t: Value, v: Value, w: Value, optional: bool)
    requires IsDeviceKey(a) && IsDeviceKey(b) && a != b
    ensures var ex := [KeyEvent(NONE, NoMightMatch, 0), Press(a), KeyEvent(a, UpAsync, 0), TimeoutEvent(t, false, false), Press(b)];
      var h := [Press(a), KeyEvent(TIMEOUT, HistoryTiming, v), Release(a), KeyEvent(TIMEOUT, HistoryTiming, w), Press(b)];
      Matching(ex, h, optional).result == if v + w >= t then Match else NoMatch
  {
    var ex: Expression := [KeyEvent(NONE, NoMightMatch, 0), Press(a), KeyEvent(a, UpAsync, 0), TimeoutEvent(t, false, false), Press(b)];
    var h: RealEvents := [Press(a), KeyEvent(TIMEOUT, HistoryTiming, v), Release(a), KeyEvent(TIMEOUT, HistoryTiming, w), Press(b)];
    var c1 := START.(e := 1, isNoMightMatch := true);
    var c2 := c1.(e := 2, s := 1);
    var c3 := c2.(e := 3, async := [] + [KeyEvent(a, UpAsync, 0)]);
    assert Step(ex, h, optional, START) == Continue(c1);
    assert Step(ex, h, optional, c1) == Continue(c2);
    assert Step(ex, h, optional, c2) == Continue(c3);
    hide Step;
    assert Run(ex, h, optional, START) == Run(ex, h, optional, c1) == Run(ex, h, optional, c2);
    assert Run(ex, h, optional, c2) == Run(ex, h, optional, c3);
    TimesRead(a, b, t, v, w, ex, h, optional, c3);
  }

  lemma TimesRead(a: Key, b: Key, t: Value, v: Value, w: Value, ex: Expression, h: RealEvents, optional: bool, c3: Cursor)
    requires IsDeviceKey(a) && IsDeviceKey(b) && a != b
    requires ex == [KeyEvent(NONE, NoMightMatch, 0), Press(a), KeyEvent(a, UpAsync, 0), TimeoutEvent(t, false, false), Press(b)]
    requires h == [Press(a), KeyEvent(TIMEOUT, HistoryTiming, v), Release(a), KeyEvent(TIMEOUT, HistoryTiming, w), Press(b)]
    requires c3 == START.(e := 3, s := 1, isNoMightMatch := true, async := [KeyEvent(a, UpAsync, 0)])
    ensures Run(ex, h, optional, c3).result == if v + w >= t then Match else NoMatch
  {
    NoEvents(c3.async, a);
    var c4 := c3.(s := 2, historyTimeout := KeyEvent(TIMEOUT, Up, v));
    assert Step(ex, h, optional, c3) == Continue(c4) by { NothingPending(c3.async, a); }
    assert Run(ex, h, optional, c3) == Run(ex, h, optional, c4);
    var c5 := c4.(s := 3, async := [Release(a)]);
    assert c4.async[0 := Release(a)] == [Release(a)];
    assert Step(ex, h, optional, c4) == Continue(c5);
    assert Run(ex, h, optional, c4) == Run(ex, h, optional, c5);
    TimesCompared(a, b, t, SumTimeouts(v, w), v, w, ex, h, optional, c5);
  }

  lemma NothingPending(async: KeySequence, a: Key)
    requires IsDeviceKey(a) && (async == [KeyEvent(a, UpAsync, 0)] || async == [Release(a)])
    ensures forall k: Key :: IsDeviceKey(k) || k == TIMEOUT ==> FindPending(async, DownAsync, k) < 0
    ensures forall ee: KeyEvent :: ee.key == TIMEOUT ==> FindUnifiable(async, ee) < 0 && FindEvent(async, TIMEOUT, DownAsync) < 0
  {
    assert async[1..] == [];
  }

  lemma TimesCompared(a: Key, b: Key, t: Value, sum: Value, v: Value, w: Value, ex: Expression, h: RealEvents, optional: bool, c5: Cursor)
    requires IsDeviceKey(a) && IsDeviceKey(b) && a != b && sum == SumTimeouts(v, w)
    requires ex == [KeyEvent(NONE, NoMightMatch, 0), Press(a), KeyEvent(a, UpAsync, 0), TimeoutEvent(t, false, false), Press(b)]
    requires h == [Press(a), KeyEvent(TIMEOUT, HistoryTiming, v), Release(a), KeyEvent(TIMEOUT, HistoryTiming, w), Press(b)]
    requires c5 == START.(e := 3, s := 3, isNoMightMatch := true, async := [Release(a)], historyTimeout := KeyEvent(TIMEOUT, Up, v))
    ensures Run(ex, h, optional, c5).result == if v + w >= t then Match else NoMatch
  {
    NothingPending(c5.async, a);
    var c6 := c5.(s := 4, historyTimeout := KeyEvent(TIMEOUT, Up, sum));
    assert At(h, 3) == KeyEvent(TIMEOUT, HistoryTiming, w) && At(ex, 3) == TimeoutEvent(t, false, false);
    assert Step(ex, h, optional, c5) == Continue(c6);
    hide Step;
    assert Run(ex, h, optional, c5) == Run(ex, h, optional, c6);
    LastPressCompared(a, b, t, sum, ex, h, optional, c6);
  }

  lemma LastPressCompared(a: Key, b: Key, t: Value, sum: Value, ex: Expression, h: RealEvents, optional: bool, c6: Cursor)
    requires IsDeviceKey(a) && IsDeviceKey(b) && a != b && |ex| == 5 == |h| && ex[3] == TimeoutEvent(t, false, false)
    requires ex[4] == h[4] == Press(b)
    requires c6 == START.(e := 3, s := 4, isNoMightMatch := true, async := [Release(a)], historyTimeout := KeyEvent(TIMEOUT, Up, sum))
    ensures Run(ex, h, optional, c6).result == if sum >= t then Match else NoMatch
  {
    NothingPending(c6.async, a);
    var c7 := c6.(e := 4, historyTimeout := NO_EVENT);
    assert Step(ex, h, optional, c6) == if sum >= t then Continue(c7) else Verdict(NoMatch, c6);
    if sum >= t {
      var c8 := c7.(e := 5, s := 5, async := WithoutEventsOf(c7.async, b));
      assert Step(ex, h, optional, c7) == Continue(c8);
      hide Step;
      assert Run(ex, h, optional, c6) == Run(ex, h, optional, c7) == Run(ex, h, optional, c8);
    }
  }

  // ---------------------------------------------------------------------------
  // From the text to the verdict

  /** `k 100ms`, `k{100ms}`, `k !100ms` and `k{!100ms}`, for every key and duration:
      after the press the stage asks for the timeout; the server cancels it on the next
      press, and in a group on the next release as well; the time that is reported
      then, or when the timeout elapses, matches when it is at least the duration, or
      with `!` less than that. `k{!100ms}` also demands the release. */
  lemma TimeoutMeans(k: Key, t: Value, isNot: bool, inGroup: bool, v: Value, input: KeyEvent, timer: S.Timer, optional: bool)
    requires IsDeviceKey(k) && input.IsNonOptional()
    ensures Compile(TimeoutTokens(k, t, isNot, inGroup), true).Ok?
    ensures Compile(TimeoutTokens(k, t, isNot, inGroup), true).value != []
    ensures var ex := Compile(TimeoutTokens(k, t, isNot, inGroup), true).value;
      var waits := Matching(ex, [Press(k)], optional);
      var asked := S.TimerAfter([waits.timeout], timer);
      && waits.result == MightMatch && waits.timeout.key == TIMEOUT
      && asked.Waiting? && asked.timeout == t
      && (S.Cancels(asked, input) <==> input.state == Down || inGroup)
      && (Matching(ex, [Press(k), S.ElapsedEvent(v)], optional).result
          == if (if isNot then v < t else v >= t) then (if isNot && inGroup then MightMatch else Match) else NoMatch)
  {
    hide Compile, Matching;
    if inGroup {
      CompileInGroup(k, t, isNot);
    } else {
      CompileAlone(k, t, isNot);
    }
    PressWaits(k, t, isNot, inGroup, optional);
    ElapsedMatches(k, t, isNot, inGroup, v, optional);
  }

  // ---------------------------------------------------------------------------
  // Exceeded not-timeouts

  /** What the stage swallows of these events, one after the other. */
  function Swallowed(timeout: Contexts.Option<M.CurrentTimeout>, events: KeySequence): seq<bool>
    decreases |events|
  {
    if events == [] then []
    else
      var (next, swallowed) := M.SwallowTimeout(timeout, events[0]);
      [swallowed] + Swallowed(next, events[1..])
  }

  lemma {:induction false} ExceededSwallows(timeout: M.CurrentTimeout, events: KeySequence)
    requires IsNotTimeoutState(timeout.event.state) && timeout.notExceeded
    requires forall i :: 0 <= i < |events| ==> !(events[i].state == Up && events[i].key == timeout.trigger && events[i].key != TIMEOUT)
    ensures var r := Swallowed(Contexts.Option.Some(timeout), events);
      |r| == |events| && forall i :: 0 <= i < |r| ==> (r[i] <==> events[i].key == TIMEOUT && events[i].value != timeout.event.value)
    decreases |events|
  {
    if events != [] {
      ExceededSwallows(timeout, events[1..]);
    }
  }

  /** Once the time of a not-timeout was exceeded, the shorter ones that follow are
      swallowed until its trigger is released, and not any more after that. */
  lemma NotTimeoutSwallows(timeout: M.CurrentTimeout, events: KeySequence, v: Value)
    requires IsNotTimeoutState(timeout.event.state) && timeout.trigger != TIMEOUT
    requires forall i :: 0 <= i < |events| ==> !(events[i].state == Up && events[i].key == timeout.trigger)
    ensures var exceeded := S.ElapsedEvent(timeout.event.value);
      var r := Swallowed(Contexts.Option.Some(timeout), [exceeded] + events);
      && |r| == 1 + |events| && !r[0]
      && forall i :: 0 <= i < |events| ==> (r[1 + i] <==> events[i].key == TIMEOUT && events[i].value != timeout.event.value)
    ensures Swallowed(Contexts.Option.Some(timeout), [S.ElapsedEvent(timeout.event.value), Release(timeout.trigger), S.ElapsedEvent(v)])
      == [false, false, false]
  {
    var after := timeout.(notExceeded := true);
    var exceeded := S.ElapsedEvent(timeout.event.value);
    ExceededSwallows(after, events);
    assert ([exceeded] + events)[1..] == events;
    var last, released := [S.ElapsedEvent(v)], [Release(timeout.trigger), S.ElapsedEvent(v)];
    assert last[1..] == [] && released[1..] == last && [exceeded, Release(timeout.trigger), S.ElapsedEvent(v)][1..] == released;
    var reset := Contexts.Option.Some(timeout.(notExceeded := false));
    assert Swallowed(reset, last) == [false] + [];
    assert Swallowed(Contexts.Option.Some(after), released) == [false] + Swallowed(reset, last);
  }

  /** So they are after nothing matched while the stage waited for it. */
  lemma UnmatchedSwallows(timeout: M.CurrentTimeout, event: KeyEvent, events: KeySequence)
    requires IsNotTimeoutState(timeout.event.state) && timeout.trigger != TIMEOUT
    requires forall i :: 0 <= i < |events| ==> !(events[i].state == Up && events[i].key == timeout.trigger)
    ensures var r := Swallowed(M.TimeoutOfNone(Contexts.Option.Some(timeout), event), events);
      |r| == |events| && forall i :: 0 <= i < |events| ==> (r[i] <==> events[i].key == TIMEOUT && events[i].value != timeout.event.value)
  {
    ExceededSwallows(timeout.(notExceeded := true), events);
  }

  // ---------------------------------------------------------------------------
  // Requested and matched timeouts

  lemma {:induction false} LastPressIsLast(s: KeySequence)
    ensures var i := M.LastPress(s); -1 <= i < |s| && (i >= 0 ==> s[i].IsPress()) && forall j :: i < j < |s| ==> !s[j].IsPress()
    decreases |s|
  {
    if s != [] && !s[|s| - 1].IsPress() {
      LastPressIsLast(s[..|s| - 1]);
    }
  }

  /** An input that waits for a timeout makes the stage output it, and remember it with
      the last pressed key. */
  lemma TimeoutIsRequested(side: M.Side, timeout: KeyEvent, s: KeySequence, i: nat)
    requires i < |s| && s[i].IsPress() && forall j :: i < j < |s| ==> !s[j].IsPress()
    ensures var r := M.Requested(side, timeout, s);
      && r.ledger == side.ledger.(buffer := side.ledger.buffer + [timeout]) && r.onRelease == side.onRelease
      && r.timeout.Some? && r.timeout.value.event.Same(timeout) && r.timeout.value.trigger == s[i].key
      && (side.timeout.Some? && side.timeout.value.event.Same(timeout) && side.timeout.value.trigger == s[i].key ==> r.timeout == side.timeout)
  {
    LastPressIsLast(s);
  }

  /** After a timeout matched an output, further timeouts are not matched by other
      outputs, unless a virtual key changed; and after any other event that matches
      nothing they are again. */
  lemma MatchedTimeoutDropsOthers(timeout: M.CurrentTimeout, v: Value, w: Value,
                                  output: Mappings.OutputRef, other: Mappings.OutputRef, event: KeyEvent)
    requires !IsNotTimeoutState(timeout.event.state) && timeout.matchedOutput.None? && event.key != TIMEOUT
    ensures var first := Contexts.Option.Some(timeout);
      var matched := M.TimeoutOfMatch(first, S.ElapsedEvent(v), Contexts.Option.Some(output), false);
      && !M.Drops(first, S.ElapsedEvent(v), Contexts.Option.Some(output))
      && (M.Drops(matched, S.ElapsedEvent(w), Contexts.Option.Some(other)) <==> other != output && !timeout.virtualKeysChanged)
      && !M.Drops(matched, event, Contexts.Option.Some(other))
      && !M.Drops(M.TimeoutOfNone(matched, event), S.ElapsedEvent(w), Contexts.Option.Some(other))
      && M.TimeoutOfMatch(first, S.ElapsedEvent(v), Contexts.Option.Some(output), true) == first
  {
  }

  /** The release of the key that a timeout waits with ends it; that of another key does
      not. */
  lemma ReleaseEndsTimeout(side: M.Side, k: Key, contextIndex: int)
    requires side.timeout.Some?
    ensures var after := M.ReleaseSide(side, k, contextIndex).timeout;
      if side.timeout.value.trigger == k then after == Contexts.Option.None else after == side.timeout
  {
  }

  /** An output that presses a virtual key lets other timeouts match again; one that
      presses a key of a device does not. */
  lemma VirtualOutputAllowsOthers(side: M.Side, k: Key, trigger: Outputs.Trigger, contextIndex: int, env: Outputs.Environment,
                                  event: KeyEvent, other: Mappings.OutputRef)
    requires IsVirtualKey(k) || IsDeviceKey(k)
    requires M.Drops(side.timeout, event, Contexts.Option.Some(other))
    ensures Outputs.ValidOutput([Press(k)])
    ensures M.Drops(M.ApplySide(side, [Press(k)], trigger, contextIndex, env).timeout, event, Contexts.Option.Some(other)) <==> !IsVirtualKey(k)
  {
    hide Outputs.Apply;
    var s := [Press(k)];
    assert s[1..] == [];
    assert Outputs.AppliedPart(s, trigger) == [Press(k)] + [] == s;
    assert s[0].key == k;
  }

  // ---------------------------------------------------------------------------
  // Forwarding while a timeout matched

  /** After a timeout matched, a release finds all presses matched. */
  lemma NothingIsForwardedLater(s: KeySequence, k: Key, mightMatch: bool)
    ensures forall i :: 0 <= i < |M.ReleasedIn(s, k, true, mightMatch)| ==> M.ReleasedIn(s, k, true, mightMatch)[i].state != Down
  {
    var matched := Q.AllMatched(s);
    hide Q.AllMatched;
    var i := FindKey(matched, k);
    if !mightMatch && i >= 0 && matched[i].state == DownMatched {
      assert forall j :: 0 <= j < |matched| - 1 ==> Erase(matched, i)[j] == matched[if j < i then j else j + 1];
    }
  }

  /** A press that matches nothing is not output after a timeout matched, unless its
      release follows already. */
  lemma PressAfterTimeout(l: Outputs.Ledger, k: Key, matched: bool)
    requires IsDeviceKey(k)
    ensures M.ForwardedOutput(l, [Press(k)], matched)
      == if matched then l else Outputs.UpdateDown(l, Press(k), Outputs.KeyTrigger(k), -1)
    ensures M.ForwardedOutput(l, [Press(k), Release(k)], matched) == Outputs.UpdateDown(l, Press(k), Outputs.KeyTrigger(k), -1)
  {
    hide Outputs.UpdateDown;
    var one, two := [Press(k)], [Press(k), Release(k)];
    assert !Q.UpFollows(one, 0) && Q.FirstUnsettled(one, 0) == 0;
    assert two[1] == Release(k);
    assert Q.UpFollows(two, 0) && Q.FirstUnsettled(two, 0) == 0;
  }
}
