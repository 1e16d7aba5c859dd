/** The matcher: `src/runtime/MatchKeySequence.cpp`. `Step` is one round of its
    loop on a value, `Run` the whole loop, and `MatchKeySequence.Match` the loop
    itself over the source's temporary buffers. */
module Matcher {
  import opened Keys

  /** What is matched: events of real keys. With a press of `Key::none` in the
      history the source's loop would not end. */
  type RealEvents = s: KeySequence | forall i :: 0 <= i < |s| ==> s[i].key != NONE

  datatype MatchResult = NoMatch | MightMatch | Match

  /** What a call reports: the verdict, the keys unified with Any, and the
      timeout the expression waits for (`NO_EVENT` when there is none). */
  datatype Outcome = Outcome(result: MatchResult, anyKeys: seq<Key>, timeout: KeyEvent)

  function Unmatched(state: KeyState): KeyState {
    match state
    case DownMatched => Down
    case UpMatched => Up
    case _ => state
  }

  predicate UnifiableKeys(a: Key, b: Key) {
    && a != NONE && b != NONE
    && (|| a == b
        || (a != TIMEOUT && b != TIMEOUT
            && ((a == ANY && IsKeyboardKey(b)) || (b == ANY && IsKeyboardKey(a)))))
  }

  predicate TimeoutUnifiable(se: KeyEvent, ee: KeyEvent) {
    && se.state != HistoryTiming
    && ((se.value >= ee.value) != (IsNotTimeoutState(se.state) || IsNotTimeoutState(ee.state)))
  }

  predicate Unifiable(a: KeyEvent, b: KeyEvent) {
    && !(a.key == ANY && b.state == DownMatched)
    && !(b.key == ANY && a.state == DownMatched)
    && UnifiableKeys(a.key, b.key)
    && (if a.key == TIMEOUT then TimeoutUnifiable(a, b) else Unmatched(a.state) == Unmatched(b.state))
  }

  function WithoutKey(keys: seq<Key>, k: Key): seq<Key> {
    if keys == [] then []
    else if keys[0] == k then WithoutKey(keys[1..], k)
    else [keys[0]] + WithoutKey(keys[1..], k)
  }

  function WithoutEventsOf(events: KeySequence, k: Key): KeySequence {
    if events == [] then []
    else if events[0].key == k then WithoutEventsOf(events[1..], k)
    else [events[0]] + WithoutEventsOf(events[1..], k)
  }

  /** First pending async event in the given state whose key unifies with `k`. */
  function FindPending(async: KeySequence, state: KeyState, k: Key): (r: int)
    ensures -1 <= r < |async|
    ensures r >= 0 ==> async[r].state == state && UnifiableKeys(k, async[r].key)
  {
    if async == [] then -1
    else if async[0].state == state && UnifiableKeys(k, async[0].key) then 0
    else
      var r := FindPending(async[1..], state, k);
      if r < 0 then -1 else r + 1
  }

  /** First async event that unifies with an event of the expression. */
  function FindUnifiable(async: KeySequence, ee: KeyEvent): (r: int)
    ensures -1 <= r < |async|
    ensures r >= 0 ==> Unifiable(ee, async[r])
  {
    if async == [] then -1
    else if Unifiable(ee, async[0]) then 0
    else
      var r := FindUnifiable(async[1..], ee);
      if r < 0 then -1 else r + 1
  }

  /** Marks a pending async event as matched. */
  function Marked(async: KeySequence, i: nat, state: KeyState): KeySequence
    requires i < |async|
  {
    async[i := async[i].(state := state)]
  }

  datatype Cursor = Cursor(
    e: nat,
    s: nat,
    isNoMightMatch: bool,
    async: KeySequence,
    notKeys: seq<Key>,
    ignoreUps: seq<Key>,
    historyTimeout: KeyEvent,
    anyKeys: seq<Key>)
  {
    predicate Within(ex: KeySequence, sq: RealEvents) { e <= |ex| && s <= |sq| && NONE !in ignoreUps }

    predicate Running(ex: KeySequence, sq: RealEvents) { e < |ex| || s < |sq| }

    function Left(ex: KeySequence, sq: RealEvents): int { |ex| - e + |sq| - s }
  }

  const START := Cursor(0, 0, false, [], [], [], NO_EVENT, [])

  datatype Progress = Continue(next: Cursor) | Done(outcome: Outcome)

  function At(events: KeySequence, i: nat): KeyEvent {
    if i < |events| then events[i] else NO_EVENT
  }

  function Verdict(result: MatchResult, c: Cursor): Progress {
    Done(Outcome(result, c.anyKeys, NO_EVENT))
  }

  /** One round of the loop. */
  function Step(ex: KeySequence, sq: RealEvents, optional: bool, cursor: Cursor): (p: Progress)
    requires cursor.Within(ex, sq) && cursor.Running(ex, sq)
    ensures p.Continue? ==> p.next.Within(ex, sq) && p.next.Left(ex, sq) < cursor.Left(ex, sq)
  {
    var se := At(sq, cursor.s);
    var ee := At(ex, cursor.e);
    var c := if ee.state == Down then cursor.(notKeys := WithoutKey(cursor.notKeys, ee.key)) else cursor;
    if se.IsPress() && se.key in c.notKeys then
      Verdict(NoMatch, c)
    else if ee.state == DownAsync || ee.state == UpAsync then
      Continue(c.(async := c.async + [ee], e := c.e + 1))
    else if ee.state == Not && ee.key != TIMEOUT then
      Continue(c.(notKeys := c.notKeys + [ee.key], e := c.e + 1))
    else if ee.key == ANY && ee.state == Up && se.key != NONE && se.state == Up then
      if se.key in c.anyKeys then Continue(c.(s := c.s + 1, e := c.e + 1)) else Verdict(NoMatch, c)
    else if Unifiable(se, ee) then
      Continue(c.(s := c.s + 1, e := c.e + 1,
                  anyKeys := if ee.key == ANY && se.state == Down then c.anyKeys + [se.key] else c.anyKeys,
                  async := WithoutEventsOf(c.async, se.key)))
    else if ee.key == TIMEOUT && se.Same(NO_EVENT) then
      Done(Outcome(MightMatch, c.anyKeys, ee))
    else if ee.state == NoMightMatch then
      Continue(c.(isNoMightMatch := true, e := c.e + 1))
    else
      StepIndirect(ex, sq, optional, c, se, ee)
  }

  /** The last branch of the loop: no direct match of the two events. */
  function StepIndirect(ex: KeySequence, sq: RealEvents, optional: bool, c: Cursor,
                        se: KeyEvent, ee: KeyEvent): (p: Progress)
    requires c.Within(ex, sq) && c.Running(ex, sq)
    requires se == At(sq, c.s) && ee == At(ex, c.e)
    ensures p.Continue? ==> p.next.Within(ex, sq) && p.next.Left(ex, sq) < c.Left(ex, sq)
  {
    if c.isNoMightMatch && ee.Same(NO_EVENT) then Verdict(NoMatch, c)
    else
      var helped := StepAsync(optional, c, se, ee);
      if helped.Continue? then helped else StepSurplus(sq, c, se, ee)
  }

  /** The attempts to use a pending async event or to skip an event that was
      matched before; gives up with a `Done`. */
  function StepAsync(optional: bool, c: Cursor, se: KeyEvent, ee: KeyEvent): (p: Progress)
    ensures p.Continue? ==>
      || (p.next.s == c.s + 1 && p.next.e == c.e && (se.key != NONE || se.state != Up))
      || (p.next.e == c.e + 1 && p.next.s == c.s && (ee.key != NONE || ee.state == Down))
    ensures p.Continue? ==> p.next == c.(s := p.next.s, e := p.next.e, async := p.next.async)
  {
    var pending := FindPending(c.async, if se.state == Up then UpAsync else DownAsync, se.key);
    var unified := FindUnifiable(c.async, ee);
    var downAsync := FindEvent(c.async, ee.key, DownAsync);
    if pending >= 0 then
      Continue(c.(async := Marked(c.async, pending, se.state), s := c.s + 1))
    else if (se.state == DownMatched || se.state == UpMatched)
            && (optional || !IsDeviceKey(se.key) || (c.e == 0 && ee.key == ANY)) then
      Continue(c.(s := c.s + 1))
    else if unified >= 0 then
      Continue(c.(async := Erase(c.async, unified), e := c.e + 1))
    else if ee.state == Down && downAsync > 0 && c.async[downAsync - 1].Same(KeyEvent(ee.key, UpAsync, 0)) then
      Continue(c.(e := c.e + 1))
    else
      Verdict(NoMatch, c)
  }

  /** What is left when no async event helps: timeouts, timings of the history
      and events in front of the match in the history. */
  function StepSurplus(sq: RealEvents, c: Cursor, se: KeyEvent, ee: KeyEvent): (p: Progress)
    requires c.s <= |sq| && NONE !in c.ignoreUps && se == At(sq, c.s)
    ensures p.Continue? ==> p.next.s + p.next.e == c.s + c.e + 1 && NONE !in p.next.ignoreUps
    ensures p.Continue? ==> p.next.s <= |sq| && (p.next.e > c.e ==> ee.key == TIMEOUT)
  {
    if se.key == TIMEOUT && ee.key != TIMEOUT
            && exists i :: 0 <= i < c.s && i < |sq| && sq[i].state == Down then
      Continue(c.(s := c.s + 1))
    else if se.state == HistoryTiming then
      Continue(c.(historyTimeout := KeyEvent(TIMEOUT, Up, SumTimeouts(c.historyTimeout.value, se.value)), s := c.s + 1))
    else if ee.key == TIMEOUT && Unifiable(c.historyTimeout, ee) then
      Continue(c.(historyTimeout := NO_EVENT, e := c.e + 1))
    else if c.isNoMightMatch && c.e == 1 then
      if se.Same(NO_EVENT) then Verdict(NoMatch, c)
      else Continue(c.(ignoreUps := if se.state == Down then c.ignoreUps + [se.key] else c.ignoreUps, s := c.s + 1))
    else if c.isNoMightMatch && se.state == Up && se.key in c.ignoreUps then
      Continue(c.(s := c.s + 1))
    else
      Verdict(if c.s >= |sq| then MightMatch else NoMatch, c)
  }

  /** The rest of the loop from a given cursor. */
  function Run(ex: KeySequence, sq: RealEvents, optional: bool, c: Cursor): Outcome
    requires c.Within(ex, sq)
    decreases c.Left(ex, sq)
  {
    if !c.Running(ex, sq) then Outcome(Match, c.anyKeys, NO_EVENT)
    else
      match Step(ex, sq, optional, c)
      case Done(outcome) => outcome
      case Continue(next) => Run(ex, sq, optional, next)
  }

  function Matching(ex: KeySequence, sq: RealEvents, optional: bool): Outcome {
    Run(ex, sq, optional, START)
  }

  /** The matcher object with its reused temporary buffers. */
  class MatchKeySequence {
    var async: KeySequence
    var notKeys: seq<Key>
    var ignoreUps: seq<Key>
    var historyTimeout: KeyEvent

    constructor ()
    {
      async, notKeys, ignoreUps, historyTimeout := [], [], [], NO_EVENT;
    }

    ghost function Now(e: nat, s: nat, isNoMightMatch: bool, anyKeys: seq<Key>): Cursor
      reads this
    {
      Cursor(e, s, isNoMightMatch, async, notKeys, ignoreUps, historyTimeout, anyKeys)
    }

    method Match(expression: Expression, sequence: RealEvents, matchedAreOptional: bool)
      returns (result: MatchResult, anyKeys: seq<Key>, inputTimeout: KeyEvent)
      requires |sequence| > 0
      modifies this
      ensures Outcome(result, anyKeys, inputTimeout) == Matching(expression, sequence, matchedAreOptional)
    {
      var e: nat, s: nat, isNoMightMatch := 0, 0, false;
      async, notKeys, ignoreUps, historyTimeout := [], [], [], NO_EVENT;
      anyKeys, inputTimeout := [], NO_EVENT;
      while e < |expression| || s < |sequence|
        invariant Now(e, s, isNoMightMatch, anyKeys).Within(expression, sequence)
        invariant Run(expression, sequence, matchedAreOptional, Now(e, s, isNoMightMatch, anyKeys))
          == Matching(expression, sequence, matchedAreOptional)
        invariant inputTimeout == NO_EVENT
        decreases |expression| - e + |sequence| - s
      {
        var done;
        done, result, e, s, isNoMightMatch, anyKeys, inputTimeout :=
          Round(expression, sequence, matchedAreOptional, e, s, isNoMightMatch, anyKeys);
        if done {
          return;
        }
      }
      result := MatchResult.Match;
    }

    /** The body of the loop; `done` is its return statement. */
    method Round(expression: Expression, sequence: RealEvents, matchedAreOptional: bool,
                 e0: nat, s0: nat, isNoMightMatch0: bool, anyKeys0: seq<Key>)
      returns (done: bool, result: MatchResult, e: nat, s: nat, isNoMightMatch: bool,
               anyKeys: seq<Key>, inputTimeout: KeyEvent)
      requires Now(e0, s0, isNoMightMatch0, anyKeys0).Within(expression, sequence)
      requires e0 < |expression| || s0 < |sequence|
      modifies this
      ensures Step(expression, sequence, matchedAreOptional, old(Now(e0, s0, isNoMightMatch0, anyKeys0)))
        == if done then Done(Outcome(result, anyKeys, inputTimeout)) else Continue(Now(e, s, isNoMightMatch, anyKeys))
      ensures !done ==> inputTimeout == NO_EVENT
    {
      e, s, isNoMightMatch, anyKeys := e0, s0, isNoMightMatch0, anyKeys0;
      done, result, inputTimeout := false, NoMatch, NO_EVENT;
      var se := if s < |sequence| then sequence[s] else NO_EVENT;
      var ee := if e < |expression| then expression[e] else NO_EVENT;
      if ee.state == Down {
        notKeys := WithoutKey(notKeys, ee.key);
      }
      if (se.state == Down || se.state == DownMatched) && se.key in notKeys {
        done := true;
      } else if ee.state == DownAsync || ee.state == UpAsync {
        async := async + [ee];
        e := e + 1;
      } else if ee.state == Not && ee.key != TIMEOUT {
        notKeys := notKeys + [ee.key];
        e := e + 1;
      } else if ee.key == ANY && ee.state == Up && se.key != NONE && se.state == Up {
        if se.key !in anyKeys {
          done := true;
        } else {
          s, e := s + 1, e + 1;
        }
      } else if Unifiable(se, ee) {
        s, e := s + 1, e + 1;
        if ee.key == ANY && se.state == Down {
          anyKeys := anyKeys + [se.key];
        }
        async := WithoutEventsOf(async, se.key);
      } else if ee.key == TIMEOUT && se.Same(NO_EVENT) {
        inputTimeout := ee;
        done, result := true, MightMatch;
      } else if ee.state == NoMightMatch {
        isNoMightMatch := true;
        e := e + 1;
      } else {
        done, result, e, s := RoundIndirect(sequence, matchedAreOptional, e, s, isNoMightMatch, anyKeys, se, ee, expression);
      }
    }

    /** The last branch of the body: no direct match of the two events. */
    method RoundIndirect(sequence: RealEvents, matchedAreOptional: bool, e0: nat, s0: nat,
                         isNoMightMatch: bool, ghost anyKeys: seq<Key>, se: KeyEvent, ee: KeyEvent,
                         ghost expression: Expression)
      returns (done: bool, result: MatchResult, e: nat, s: nat)
      requires Now(e0, s0, isNoMightMatch, anyKeys).Within(expression, sequence)
      requires e0 < |expression| || s0 < |sequence|
      requires se == At(sequence, s0) && ee == At(expression, e0)
      modifies `async, `ignoreUps, `historyTimeout
      ensures StepIndirect(expression, sequence, matchedAreOptional, old(Now(e0, s0, isNoMightMatch, anyKeys)), se, ee)
        == if done then Done(Outcome(result, anyKeys, NO_EVENT)) else Continue(Now(e, s, isNoMightMatch, anyKeys))
    {
      e, s, done, result := e0, s0, false, NoMatch;
      if isNoMightMatch && ee.Same(NO_EVENT) {
        done := true;
        return;
      }
      var helped;
      helped, e, s := RoundAsync(matchedAreOptional, e, s, isNoMightMatch, anyKeys, se, ee);
      if !helped {
        done, result, e, s := RoundSurplus(sequence, e, s, isNoMightMatch, anyKeys, se, ee);
      }
    }

    /** The attempts to use a pending async event or to skip a matched event. */
    method RoundAsync(matchedAreOptional: bool, e0: nat, s0: nat, ghost isNoMightMatch: bool,
                      ghost anyKeys: seq<Key>, se: KeyEvent, ee: KeyEvent)
      returns (helped: bool, e: nat, s: nat)
      modifies `async
      ensures helped == StepAsync(matchedAreOptional, old(Now(e0, s0, isNoMightMatch, anyKeys)), se, ee).Continue?
      ensures helped ==>
        StepAsync(matchedAreOptional, old(Now(e0, s0, isNoMightMatch, anyKeys)), se, ee)
        == Continue(Now(e, s, isNoMightMatch, anyKeys))
      ensures !helped ==> e == e0 && s == s0 && async == old(async)
    {
      hide FindPending, FindUnifiable, FindEvent, Unifiable, UnifiableKeys, HasEvent;
      helped, e, s := true, e0, s0;
      var it := FindPending(async, if se.state == Up then UpAsync else DownAsync, se.key);
      if it >= 0 {
        async := Marked(async, it, se.state);
        return true, e, s + 1;
      }
      if se.state == DownMatched || se.state == UpMatched {
        if matchedAreOptional || !IsDeviceKey(se.key) || (e == 0 && ee.key == ANY) {
          return true, e, s + 1;
        }
      }
      it := FindUnifiable(async, ee);
      if it >= 0 {
        async := Erase(async, it);
        return true, e + 1, s;
      }
      if ee.state == Down {
        it := FindEvent(async, ee.key, DownAsync);
        if it > 0 && async[it - 1].Same(KeyEvent(ee.key, UpAsync, 0)) {
          return true, e + 1, s;
        }
      }
      helped := false;
    }

    /** Timeouts, timings of the history and events in front of the match. */
    method RoundSurplus(sequence: RealEvents, e0: nat, s0: nat,
                        isNoMightMatch: bool, ghost anyKeys: seq<Key>, se: KeyEvent, ee: KeyEvent)
      returns (done: bool, result: MatchResult, e: nat, s: nat)
      requires s0 <= |sequence| && NONE !in ignoreUps && se == At(sequence, s0)
      modifies `ignoreUps, `historyTimeout
      ensures StepSurplus(sequence, old(Now(e0, s0, isNoMightMatch, anyKeys)), se, ee)
        == if done then Done(Outcome(result, anyKeys, NO_EVENT)) else Continue(Now(e, s, isNoMightMatch, anyKeys))
    {
      e, s, done, result := e0, s0, false, NoMatch;
      if se.key == TIMEOUT && ee.key != TIMEOUT {
        var downMatched := exists i :: 0 <= i < s && i < |sequence| && sequence[i].state == Down;
        if downMatched {
          s := s + 1;
          return;
        }
      }
      if se.state == HistoryTiming {
        historyTimeout := KeyEvent(TIMEOUT, Up, SumTimeouts(historyTimeout.value, se.value));
        s := s + 1;
        return;
      }
      if ee.key == TIMEOUT && Unifiable(historyTimeout, ee) {
        e := e + 1;
        historyTimeout := NO_EVENT;
        return;
      }
      if isNoMightMatch {
        if e == 1 {
          if !se.Same(NO_EVENT) {
            if se.state == Down {
              ignoreUps := ignoreUps + [se.key];
            }
            s := s + 1;
            return;
          }
          done := true;
          return;
        } else if se.state == Up && se.key in ignoreUps {
          s := s + 1;
          return;
        }
      }
      done := true;
      result := if s >= |sequence| then MightMatch else NoMatch;
    }
  }
}
