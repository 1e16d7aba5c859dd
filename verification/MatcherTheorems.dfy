/** What the matcher accepts: a rejected sequence stays rejected, and the exact
    meaning of together groups, of successive keys and of held keys. */
module MatcherTheorems {
  import opened Keys
  import opened Matcher
  import H = History

  // ---------------------------------------------------------------------------
  // A rejection cannot be undone by further input

  predicate WithoutNoMightMatch(ex: KeySequence) {
    forall i :: 0 <= i < |ex| ==> ex[i].state != NoMightMatch
  }

  /** While the cursor is inside of `sq`, further events do not change a round. */
  lemma StepIgnoresLaterInput(ex: KeySequence, sq: RealEvents, more: RealEvents, optional: bool, c: Cursor)
    requires c.Within(ex, sq) && c.s < |sq|
    ensures Step(ex, sq + more, optional, c) == Step(ex, sq, optional, c)
  {
    hide StepAsync, FindPending, FindUnifiable, FindEvent, Unifiable;
    var both := sq + more;
    assert At(both, c.s) == At(sq, c.s);
    assert (exists i :: 0 <= i < c.s && i < |both| && both[i].state == Down)
        == (exists i :: 0 <= i < c.s && i < |sq| && sq[i].state == Down) by {
      if i :| 0 <= i < c.s && i < |both| && both[i].state == Down {
        assert sq[i] == both[i];
      }
      if i :| 0 <= i < c.s && i < |sq| && sq[i].state == Down {
        assert sq[i] == both[i];
      }
    }
  }

  /** Once all input is consumed the verdict is no longer a rejection. */
  lemma {:induction false} NotRejectedAtEnd(ex: KeySequence, sq: RealEvents, optional: bool, c: Cursor)
    requires WithoutNoMightMatch(ex) && !c.isNoMightMatch
    requires c.Within(ex, sq) && c.s == |sq|
    ensures Run(ex, sq, optional, c).result != NoMatch
    decreases c.Left(ex, sq)
  {
    if c.Running(ex, sq) {
      var p := Step(ex, sq, optional, c);
      if p.Continue? {
        NotRejectedAtEnd(ex, sq, optional, p.next);
      }
    }
  }

  lemma StepStaysPlain(ex: KeySequence, sq: RealEvents, optional: bool, c: Cursor)
    requires WithoutNoMightMatch(ex) && !c.isNoMightMatch && c.Within(ex, sq) && c.Running(ex, sq)
    ensures Step(ex, sq, optional, c).Continue? ==> !Step(ex, sq, optional, c).next.isNoMightMatch
  {
    hide StepAsync, FindPending, FindUnifiable, Unifiable, WithoutKey, WithoutEventsOf;
  }

  lemma {:induction false} RejectionPersists(ex: KeySequence, sq: RealEvents, more: RealEvents, optional: bool, c: Cursor)
    requires WithoutNoMightMatch(ex) && !c.isNoMightMatch
    requires c.Within(ex, sq)
    requires Run(ex, sq, optional, c).result == NoMatch
    ensures Run(ex, sq + more, optional, c) == Run(ex, sq, optional, c)
    decreases c.Left(ex, sq)
  {
    hide Step;
    if c.s == |sq| {
      NotRejectedAtEnd(ex, sq, optional, c);
    } else {
      StepIgnoresLaterInput(ex, sq, more, optional, c);
      StepStaysPlain(ex, sq, optional, c);
      var p := Step(ex, sq, optional, c);
      if p.Continue? {
        RejectionPersists(ex, sq, more, optional, p.next);
      }
    }
  }

  /** A sequence that cannot match does not match with any continuation. */
  lemma {:induction false} NoMatchIsIrrevocable(ex: KeySequence, sq: RealEvents, more: RealEvents, optional: bool)
    requires WithoutNoMightMatch(ex)
    requires Matching(ex, sq, optional).result == NoMatch
    ensures Matching(ex, sq + more, optional) == Matching(ex, sq, optional)
  {
    RejectionPersists(ex, sq, more, optional, START);
  }

  /** So what matches could have matched at every earlier moment. */
  lemma {:induction false} PrefixOfMatchMightMatch(ex: KeySequence, sq: RealEvents, n: nat, optional: bool)
    requires WithoutNoMightMatch(ex) && n <= |sq|
    requires Matching(ex, sq, optional).result != NoMatch
    ensures Matching(ex, sq[..n], optional).result != NoMatch
  {
    assert sq[..n] + sq[n..] == sq;
    if Matching(ex, sq[..n], optional).result == NoMatch {
      NoMatchIsIrrevocable(ex, sq[..n], sq[n..], optional);
    }
  }

  // ---------------------------------------------------------------------------
  // With `?` in front a rejection is final exactly if no event can begin a match

  type HistoryEvents = h: KeySequence | H.IsHistory(h)

  /** An expression whose only `?` is the one in front. */
  predicate BeginsWithMark(ex: KeySequence) {
    && ex != [] && ex[0].key == NONE && ex[0].state == NoMightMatch
    && (forall i :: 1 <= i < |ex| ==> ex[i].key != NONE)
    && (forall i :: 1 <= i < |ex| ==>
          || ex[i].state in {Up, Down, Not, UpAsync, DownAsync}
          || (ex[i].key == TIMEOUT && IsNotTimeoutState(ex[i].state)))
  }

  /** An event of a history can match it directly. */
  predicate CanBegin(ee: KeyEvent) {
    && ee.state in {Up, Down}
    && (IsHistoryKey(ee.key) || (ee.key == ANY && ee.state == Down))
  }

  ghost predicate RejectionsAreFinal(ex: KeySequence, optional: bool) {
    forall sq: HistoryEvents, more: HistoryEvents :: sq != [] && Matching(ex, sq, optional).result == NoMatch ==>
      Matching(ex, sq + more, optional) == Matching(ex, sq, optional)
  }

  /** The cursor behind the `?`. */
  const BEHIND_MARK := START.(e := 1, isNoMightMatch := true)

  lemma MarkPassed(ex: KeySequence, sq: RealEvents, optional: bool)
    requires BeginsWithMark(ex)
    ensures Matching(ex, sq, optional) == Run(ex, sq, optional, BEHIND_MARK)
  {
    assert Step(ex, sq, optional, START) == Continue(BEHIND_MARK);
  }

  /** Only a first event that is no async event, `!` or timeout is rejected at the
      end of the input. */
  predicate WaitsAtEnd(ex: KeySequence) {
    |ex| > 1 ==> ex[1].state in {Not, UpAsync, DownAsync} || ex[1].key == TIMEOUT
  }

  lemma {:induction false} MarkedAtEnd(ex: KeySequence, sq: RealEvents, optional: bool, c: Cursor)
    requires BeginsWithMark(ex) && c.Within(ex, sq) && c.s == |sq| && c.e >= 1 && (c.e == 1 ==> WaitsAtEnd(ex))
    ensures Run(ex, sq, optional, c).result != NoMatch
    decreases c.Left(ex, sq)
  {
    if c.Running(ex, sq) {
      var p := Step(ex, sq, optional, c);
      if p.Continue? {
        MarkedAtEnd(ex, sq, optional, p.next);
      }
    }
  }

  lemma StepAdvances(ex: KeySequence, sq: RealEvents, optional: bool, c: Cursor)
    requires c.Within(ex, sq) && c.Running(ex, sq)
    ensures var p := Step(ex, sq, optional, c); p.Continue? ==> p.next.e >= c.e
  {
    hide FindPending, FindUnifiable, FindEvent, Unifiable, WithoutKey, WithoutEventsOf;
  }

  lemma {:induction false} MarkedRejectionPersists(ex: KeySequence, sq: RealEvents, more: RealEvents, optional: bool, c: Cursor)
    requires BeginsWithMark(ex) && WaitsAtEnd(ex) && c.Within(ex, sq) && c.e >= 1
    requires Run(ex, sq, optional, c).result == NoMatch
    ensures Run(ex, sq + more, optional, c) == Run(ex, sq, optional, c)
    decreases c.Left(ex, sq)
  {
    hide Step;
    if c.s == |sq| {
      MarkedAtEnd(ex, sq, optional, c);
    } else {
      StepIgnoresLaterInput(ex, sq, more, optional, c);
      StepAdvances(ex, sq, optional, c);
      var p := Step(ex, sq, optional, c);
      if p.Continue? {
        MarkedRejectionPersists(ex, sq, more, optional, p.next);
      }
    }
  }

  /** Behind the `?` everything is skipped if it cannot begin a match. */
  lemma {:induction false} NeverBegins(ex: KeySequence, sq: HistoryEvents, optional: bool, c: Cursor)
    requires BeginsWithMark(ex) && !WaitsAtEnd(ex) && !CanBegin(ex[1])
    requires c.Within(ex, sq) && c.isNoMightMatch && c.e == 1 && c.async == [] && c.notKeys == [] && c.anyKeys == []
    ensures Run(ex, sq, optional, c) == Outcome(NoMatch, [], NO_EVENT)
    decreases c.Left(ex, sq)
  {
    var p := Step(ex, sq, optional, c);
    if p.Continue? {
      NeverBegins(ex, sq, optional, p.next);
    }
  }

  /** A press of another key, or for a release the press of the key itself. */
  function Other(ee: KeyEvent): (r: KeyEvent)
    requires CanBegin(ee)
    ensures H.IsHistory([r]) && r.state == Down && r.key != ANY && !Unifiable(r, ee)
  {
    if ee.state == Up then Press(ee.key) else if ee.key == 0x0110 then Press(0x0111) else Press(0x0110)
  }

  function Beginning(ee: KeyEvent): (r: KeyEvent)
    requires CanBegin(ee)
    ensures H.IsHistory([r]) && r.state == ee.state && Unifiable(r, ee) && r.key == if ee.key == ANY then 0x001E else ee.key
  {
    KeyEvent(if ee.key == ANY then 0x001E else ee.key, ee.state, 0)
  }

  /** The press of another key is skipped, and rejected at the end. */
  lemma OtherIsSkipped(ex: KeySequence, optional: bool)
    requires BeginsWithMark(ex) && |ex| > 1 && CanBegin(ex[1])
    ensures var one: HistoryEvents := [Other(ex[1])];
      var c := BEHIND_MARK.(ignoreUps := [one[0].key], s := 1);
      && c.Within(ex, one)
      && Step(ex, one, optional, BEHIND_MARK) == Continue(c)
      && Step(ex, one, optional, c) == Verdict(NoMatch, c)
  {
    hide Unifiable, Other, UnifiableKeys;
    var one: HistoryEvents := [Other(ex[1])];
    var c := BEHIND_MARK.(ignoreUps := [one[0].key], s := 1);
    assert [] + [one[0].key] == [one[0].key];
    assert StepAsync(optional, BEHIND_MARK, one[0], ex[1]) == Verdict(NoMatch, BEHIND_MARK);
    assert !Unifiable(NO_EVENT, ex[1]) by { NothingUnifies(ex[1]); }
    assert !Unifiable(BEHIND_MARK.historyTimeout, ex[1]) by { NothingUnifies(ex[1]); }
  }

  lemma NothingUnifies(ee: KeyEvent)
    ensures !Unifiable(NO_EVENT, ee)
  {
  }

  /** `? K` rejects another key first, and no longer once K follows. */
  lemma BeginsLater(ex: KeySequence, optional: bool)
    requires BeginsWithMark(ex) && |ex| > 1 && CanBegin(ex[1])
    ensures !RejectionsAreFinal(ex, optional)
  {
    hide Step, Unifiable, Other, UnifiableKeys;
    var one: HistoryEvents := [Other(ex[1])];
    var last: HistoryEvents := [Beginning(ex[1])];
    var two: RealEvents := one + last;
    var c := BEHIND_MARK.(ignoreUps := [one[0].key], s := 1);
    MarkPassed(ex, one, optional);
    MarkPassed(ex, two, optional);
    OtherIsSkipped(ex, optional);
    StepIgnoresLaterInput(ex, one, last, optional, BEHIND_MARK);
    BeginningMatches(ex, two, optional, c);
    MarkedAtEnd(ex, two, optional, Step(ex, two, optional, c).next);
  }

  lemma BeginningMatches(ex: KeySequence, sq: RealEvents, optional: bool, c: Cursor)
    requires BeginsWithMark(ex) && |ex| > 1 && CanBegin(ex[1])
    requires c.Within(ex, sq) && c.e == 1 && c.s + 1 == |sq| && sq[c.s] == Beginning(ex[1]) && c.notKeys == []
    ensures var p := Step(ex, sq, optional, c); p.Continue? && p.next.e == 2 && p.next.s == |sq|
  {
    hide StepIndirect, Unifiable;
  }

  /** With `?` in front a rejection is final if and only if nothing follows, or
      nothing that an event of the history can match directly: an async event, a
      `!`, a timeout, the release of any key, or a key that is not in a history. */
  lemma MarkedRejectionsFinalIff(ex: KeySequence, optional: bool)
    requires BeginsWithMark(ex)
    ensures RejectionsAreFinal(ex, optional) <==> |ex| == 1 || !CanBegin(ex[1])
  {
    if |ex| > 1 && CanBegin(ex[1]) {
      BeginsLater(ex, optional);
    } else {
      forall sq: HistoryEvents, more: HistoryEvents | sq != [] && Matching(ex, sq, optional).result == NoMatch
        ensures Matching(ex, sq + more, optional) == Matching(ex, sq, optional)
      {
        MarkPassed(ex, sq, optional);
        MarkPassed(ex, sq + more, optional);
        if WaitsAtEnd(ex) {
          MarkedRejectionPersists(ex, sq, more, optional, BEHIND_MARK);
        } else {
          NeverBegins(ex, sq, optional, BEHIND_MARK);
          NeverBegins(ex, sq + more, optional, BEHIND_MARK);
        }
      }
    }
  }

  // ---------------------------------------------------------------------------
  // Pending async events

  lemma {:induction false} PendingFound(async: KeySequence, state: KeyState, k: Key, j: nat)
    requires j < |async| && async[j].state == state && UnifiableKeys(k, async[j].key)
    requires forall i :: 0 <= i < j ==> !(async[i].state == state && UnifiableKeys(k, async[i].key))
    ensures FindPending(async, state, k) == j
  {
    if j > 0 {
      assert async[1..][j - 1] == async[j];
      assert forall i :: 0 <= i < j - 1 ==> async[1..][i] == async[i + 1];
      PendingFound(async[1..], state, k, j - 1);
    }
  }

  lemma {:induction false} NothingPending(async: KeySequence, state: KeyState, k: Key)
    requires forall i :: 0 <= i < |async| ==> !(async[i].state == state && UnifiableKeys(k, async[i].key))
    ensures FindPending(async, state, k) == -1
  {
    if async != [] {
      assert forall i :: 0 <= i < |async| - 1 ==> async[1..][i] == async[i + 1];
      NothingPending(async[1..], state, k);
    }
  }

  lemma {:induction false} NothingUnifiable(async: KeySequence, ee: KeyEvent)
    requires forall i :: 0 <= i < |async| ==> !Unifiable(ee, async[i])
    ensures FindUnifiable(async, ee) == -1
  {
    if async != [] {
      assert forall i :: 0 <= i < |async| - 1 ==> async[1..][i] == async[i + 1];
      NothingUnifiable(async[1..], ee);
    }
  }

  lemma {:induction false} NothingRemoved(async: KeySequence, k: Key)
    requires forall i :: 0 <= i < |async| ==> async[i].key != k
    ensures WithoutEventsOf(async, k) == async
  {
    if async != [] {
      assert forall i :: 0 <= i < |async| - 1 ==> async[1..][i] == async[i + 1];
      NothingRemoved(async[1..], k);
    }
  }

  predicate DeviceKeys(keys: seq<Key>) {
    forall i :: 0 <= i < |keys| ==> IsDeviceKey(keys[i])
  }

  predicate Distinct(keys: seq<Key>) {
    forall i, j :: 0 <= i < j < |keys| ==> keys[i] != keys[j]
  }

  /** A key or no key in the input, against a press or nothing in the
      expression, without `!` keys and history: only async events can help. */
  lemma PlainStep(ex: KeySequence, sq: RealEvents, optional: bool, c: Cursor)
    requires c.Within(ex, sq) && c.Running(ex, sq)
    requires c.notKeys == [] && !c.isNoMightMatch && c.historyTimeout == NO_EVENT
    requires c.s < |sq| ==> IsDeviceKey(sq[c.s].key) && sq[c.s].IsNonOptional()
    requires c.e < |ex| ==> IsDeviceKey(ex[c.e].key) && ex[c.e].state == Down
    requires !(c.s < |sq| && sq[c.s].state == Down && At(ex, c.e).key == sq[c.s].key)
    ensures Step(ex, sq, optional, c) ==
      var helped := StepAsync(optional, c, At(sq, c.s), At(ex, c.e));
      if helped.Continue? then helped else Verdict(if c.s == |sq| then MightMatch else NoMatch, c)
  {
    hide StepAsync;
    assert !Unifiable(At(sq, c.s), At(ex, c.e));
  }

  // ---------------------------------------------------------------------------
  // Together groups accept any order

  /** `(k1 ... kn)` compiles to `*k1 ... *kn +k1 ... +kn ~k1 ... ~kn`. */
  function TogetherExpression(keys: seq<Key>): KeySequence {
    Events(keys, DownAsync) + Events(keys, Down) + Events(keys, UpAsync)
  }

  predicate DistinctPresses(sq: KeySequence) {
    && (forall i :: 0 <= i < |sq| ==> sq[i].state == Down && IsDeviceKey(sq[i].key))
    && Distinct(KeysOf(sq))
  }

  /** What the documentation promises: the keys may come in any order. */
  function TogetherVerdict(keys: seq<Key>, pressed: seq<Key>): MatchResult {
    if exists x :: x in pressed && x !in keys then NoMatch
    else if forall k :: k in keys ==> k in pressed then Match
    else MightMatch
  }

  /** The async events once the first `i` keys were passed and `seen` was read. */
  function TogetherPending(keys: seq<Key>, i: nat, seen: seq<Key>): (r: KeySequence)
    requires i <= |keys|
    ensures |r| == |keys| - i
    ensures forall j :: 0 <= j < |r| ==>
      r[j] == KeyEvent(keys[i + j], if keys[i + j] in seen then Down else DownAsync, 0)
  {
    seq(|keys| - i, j requires 0 <= j < |keys| - i =>
      KeyEvent(keys[i + j], if keys[i + j] in seen then Down else DownAsync, 0))
  }

  function TogetherCursor(keys: seq<Key>, sq: KeySequence, i: nat, s: nat): Cursor
    requires i <= |keys| && s <= |sq|
  {
    START.(e := |keys| + i, s := s, async := TogetherPending(keys, i, KeysOf(sq[..s])))
  }

  lemma {:induction false} TogetherPrologue(keys: seq<Key>, sq: RealEvents, optional: bool, i: nat)
    requires DeviceKeys(keys) && i <= |keys|
    ensures var ex := TogetherExpression(keys);
      Run(ex, sq, optional, START.(e := i, async := Events(keys, DownAsync)[..i]))
      == Run(ex, sq, optional, TogetherCursor(keys, sq, 0, 0))
    decreases |keys| - i
  {
    var ex := TogetherExpression(keys);
    var all := Events(keys, DownAsync);
    var c := START.(e := i, async := all[..i]);
    if i < |keys| {
      assert At(ex, i) == all[i];
      assert all[..i] + [all[i]] == all[..i + 1];
      assert Step(ex, sq, optional, c) == Continue(START.(e := i + 1, async := all[..i + 1]));
      TogetherPrologue(keys, sq, optional, i + 1);
    } else {
      assert all[..i] == TogetherPending(keys, 0, KeysOf(sq[..0]));
    }
  }

  lemma {:induction false} TogetherEpilogue(keys: seq<Key>, sq: RealEvents, optional: bool, s: nat, i: nat)
    requires DeviceKeys(keys) && i <= |keys| && s <= |sq|
    requires s < |sq| ==> sq[s].state == Down && IsDeviceKey(sq[s].key)
    ensures Run(TogetherExpression(keys), sq, optional,
                START.(e := 2 * |keys| + i, s := s, async := Events(keys, UpAsync)[..i])).result
      == if s == |sq| then Match else NoMatch
    decreases |keys| - i
  {
    var ex := TogetherExpression(keys);
    var c := START.(e := 2 * |keys| + i, s := s, async := Events(keys, UpAsync)[..i]);
    if i < |keys| {
      hide StepIndirect;
      assert At(ex, c.e) == Events(keys, UpAsync)[i];
      assert c.async + [Events(keys, UpAsync)[i]] == Events(keys, UpAsync)[..i + 1];
      TogetherEpilogue(keys, sq, optional, s, i + 1);
    } else if s < |sq| {
      hide Step, StepSurplus;
      PlainStep(ex, sq, optional, c);
      NothingPending(c.async, DownAsync, sq[s].key);
      NothingUnifiable(c.async, NO_EVENT);
    }
  }

  /** Passing a key of the group that was already read. */
  lemma TogetherPass(keys: seq<Key>, sq: RealEvents, optional: bool, i: nat, s: nat)
    requires DeviceKeys(keys) && i < |keys| && s <= |sq|
    requires forall j :: i < j < |keys| ==> keys[j] != keys[i]
    requires s < |sq| ==> sq[s].state == Down && IsDeviceKey(sq[s].key) && sq[s].key !in keys
    ensures Step(TogetherExpression(keys), sq, optional, TogetherCursor(keys, sq, i, s))
      == if keys[i] in KeysOf(sq[..s]) then Continue(TogetherCursor(keys, sq, i + 1, s))
         else Verdict(if s == |sq| then MightMatch else NoMatch, TogetherCursor(keys, sq, i, s))
  {
    hide Step, StepSurplus;
    var c := TogetherCursor(keys, sq, i, s);
    assert At(TogetherExpression(keys), c.e) == Press(keys[i]);
    PlainStep(TogetherExpression(keys), sq, optional, c);
    TogetherNotPending(keys, i, KeysOf(sq[..s]), if s < |sq| then DownAsync else UpAsync, At(sq, s).key);
    TogetherUnifiable(keys, i, KeysOf(sq[..s]));
  }

  lemma TogetherNotPending(keys: seq<Key>, i: nat, seen: seq<Key>, state: KeyState, x: Key)
    requires DeviceKeys(keys) && i <= |keys|
    requires x == NONE || (IsDeviceKey(x) && x !in keys)
    ensures FindPending(TogetherPending(keys, i, seen), state, x) == -1
  {
    NothingPending(TogetherPending(keys, i, seen), state, x);
  }

  lemma TogetherUnifiable(keys: seq<Key>, i: nat, seen: seq<Key>)
    requires DeviceKeys(keys) && i < |keys|
    requires forall j :: i < j < |keys| ==> keys[j] != keys[i]
    ensures var async := TogetherPending(keys, i, seen);
      && FindUnifiable(async, Press(keys[i])) == (if keys[i] in seen then 0 else -1)
      && Erase(async, 0) == TogetherPending(keys, i + 1, seen)
      && FindEvent(async, keys[i], DownAsync) <= 0
  {
    var async := TogetherPending(keys, i, seen);
    assert Erase(async, 0) == TogetherPending(keys, i + 1, seen);
    if keys[i] !in seen {
      NothingUnifiable(async, Press(keys[i]));
    }
  }

  /** Reading the key of the group that is next in the expression. */
  lemma TogetherReadNext(keys: seq<Key>, sq: RealEvents, optional: bool, i: nat, s: nat)
    requires DeviceKeys(keys) && i < |keys|
    requires forall j :: i < j < |keys| ==> keys[j] != keys[i]
    requires s < |sq| && sq[s].state == Down && sq[s].key == keys[i]
    ensures Step(TogetherExpression(keys), sq, optional, TogetherCursor(keys, sq, i, s))
      == Continue(TogetherCursor(keys, sq, i + 1, s + 1))
  {
    hide StepIndirect;
    assert At(TogetherExpression(keys), |keys| + i) == Press(keys[i]);
    assert KeysOf(sq[..s + 1]) == KeysOf(sq[..s]) + [keys[i]];
    TogetherNextRemoved(keys, i, KeysOf(sq[..s]));
  }

  lemma TogetherNextRemoved(keys: seq<Key>, i: nat, seen: seq<Key>)
    requires i < |keys|
    requires forall j :: i < j < |keys| ==> keys[j] != keys[i]
    ensures WithoutEventsOf(TogetherPending(keys, i, seen), keys[i]) == TogetherPending(keys, i + 1, seen + [keys[i]])
  {
    var rest := TogetherPending(keys, i + 1, seen + [keys[i]]);
    assert TogetherPending(keys, i, seen)[1..] == rest;
    NothingRemoved(rest, keys[i]);
  }

  /** Reading a key of the group that comes later in the expression. */
  lemma TogetherReadAhead(keys: seq<Key>, sq: RealEvents, optional: bool, i: nat, s: nat, j: nat)
    requires DeviceKeys(keys) && i < j < |keys|
    requires forall k :: 0 <= k < |keys| && k != j ==> keys[k] != keys[j]
    requires s < |sq| && sq[s].state == Down && sq[s].key == keys[j] && keys[j] !in KeysOf(sq[..s])
    ensures Step(TogetherExpression(keys), sq, optional, TogetherCursor(keys, sq, i, s))
      == Continue(TogetherCursor(keys, sq, i, s + 1))
  {
    hide Step, StepSurplus;
    var c := TogetherCursor(keys, sq, i, s);
    assert At(TogetherExpression(keys), c.e) == Press(keys[i]);
    assert KeysOf(sq[..s + 1]) == KeysOf(sq[..s]) + [keys[j]];
    PlainStep(TogetherExpression(keys), sq, optional, c);
    TogetherMarked(keys, i, KeysOf(sq[..s]), j);
  }

  lemma TogetherMarked(keys: seq<Key>, i: nat, seen: seq<Key>, j: nat)
    requires DeviceKeys(keys) && i < j < |keys| && keys[j] !in seen
    requires forall k :: 0 <= k < |keys| && k != j ==> keys[k] != keys[j]
    ensures var async := TogetherPending(keys, i, seen);
      && FindPending(async, DownAsync, keys[j]) == j - i
      && Marked(async, j - i, Down) == TogetherPending(keys, i, seen + [keys[j]])
  {
    var async := TogetherPending(keys, i, seen);
    PendingFound(async, DownAsync, keys[j], j - i);
    assert Marked(async, j - i, Down) == TogetherPending(keys, i, seen + [keys[j]]);
  }

  lemma {:induction false} TogetherLoop(keys: seq<Key>, sq: RealEvents, optional: bool, i: nat, s: nat)
    requires DeviceKeys(keys) && Distinct(keys) && DistinctPresses(sq)
    requires i <= |keys| && s <= |sq|
    requires forall j :: 0 <= j < i ==> keys[j] in KeysOf(sq[..s])
    requires forall j :: 0 <= j < s ==> sq[j].key in keys
    ensures Run(TogetherExpression(keys), sq, optional, TogetherCursor(keys, sq, i, s)).result
      == TogetherVerdict(keys, KeysOf(sq))
    decreases |keys| - i + |sq| - s
  {
    hide Step;
    var pressed := KeysOf(sq);
    assert pressed[..s] == KeysOf(sq[..s]);
    if s < |sq| {
      assert pressed[s] == sq[s].key;
      assert sq[s].key !in KeysOf(sq[..s]);
    }
    if i == |keys| {
      assert TogetherPending(keys, i, KeysOf(sq[..s])) == Events(keys, UpAsync)[..0];
      TogetherEpilogue(keys, sq, optional, s, 0);
      if s < |sq| {
        assert sq[s].key in pressed && sq[s].key !in keys;
      } else {
        assert pressed[..s] == pressed;
      }
    } else if s < |sq| && sq[s].key in keys {
      var j :| 0 <= j < |keys| && keys[j] == sq[s].key;
      if i == j {
        TogetherReadNext(keys, sq, optional, i, s);
      } else {
        TogetherReadAhead(keys, sq, optional, i, s, j);
      }
      assert KeysOf(sq[..s + 1]) == KeysOf(sq[..s]) + [sq[s].key];
      TogetherLoop(keys, sq, optional, if i == j then i + 1 else i, s + 1);
    } else if keys[i] in KeysOf(sq[..s]) {
      TogetherPass(keys, sq, optional, i, s);
      TogetherLoop(keys, sq, optional, i + 1, s);
    } else {
      TogetherStuck(keys, sq, optional, i, s);
    }
  }

  /** The next key was not pressed yet: something is missing, or another key comes. */
  lemma TogetherStuck(keys: seq<Key>, sq: RealEvents, optional: bool, i: nat, s: nat)
    requires DeviceKeys(keys) && Distinct(keys) && DistinctPresses(sq)
    requires i < |keys| && s <= |sq| && keys[i] !in KeysOf(sq[..s])
    requires forall j :: 0 <= j < s ==> sq[j].key in keys
    requires s < |sq| ==> sq[s].key !in keys
    ensures Run(TogetherExpression(keys), sq, optional, TogetherCursor(keys, sq, i, s)).result
      == TogetherVerdict(keys, KeysOf(sq))
  {
    hide Step;
    var pressed := KeysOf(sq);
    TogetherPass(keys, sq, optional, i, s);
    if s < |sq| {
      assert sq[s].key == pressed[s];
    } else {
      assert sq[..s] == sq;
      assert keys[i] in keys && keys[i] !in pressed;
      assert forall x :: x in pressed ==> x in keys;
    }
  }

  /** Pressing distinct keys matches a together group exactly when they are a
      permutation of the group, might match exactly when some are missing and
      none is foreign, and is rejected otherwise. */
  lemma {:induction false} TogetherAcceptsAnyOrder(keys: seq<Key>, sq: RealEvents, optional: bool)
    requires DeviceKeys(keys) && Distinct(keys) && DistinctPresses(sq)
    ensures var r := Matching(TogetherExpression(keys), sq, optional).result;
      && (r == Match <==> multiset(KeysOf(sq)) == multiset(keys))
      && (r == MightMatch <==> multiset(KeysOf(sq)) < multiset(keys))
      && r == TogetherVerdict(keys, KeysOf(sq))
  {
    TogetherPrologue(keys, sq, optional, 0);
    assert Events(keys, DownAsync)[..0] == [];
    TogetherLoop(keys, sq, optional, 0, 0);
    VerdictByMultiset(keys, KeysOf(sq));
  }

  lemma {:induction false} DistinctMultiplicity(keys: seq<Key>, k: Key)
    requires Distinct(keys)
    ensures multiset(keys)[k] == if k in keys then 1 else 0
  {
    if keys != [] {
      var init, last := keys[..|keys| - 1], keys[|keys| - 1];
      assert keys == init + [last];
      DistinctMultiplicity(init, k);
    }
  }

  lemma VerdictByMultiset(keys: seq<Key>, pressed: seq<Key>)
    requires Distinct(keys) && Distinct(pressed)
    ensures TogetherVerdict(keys, pressed) == Match <==> multiset(pressed) == multiset(keys)
    ensures TogetherVerdict(keys, pressed) == MightMatch <==> multiset(pressed) < multiset(keys)
  {
    forall k: Key ensures multiset(keys)[k] == (if k in keys then 1 else 0)
                       && multiset(pressed)[k] == (if k in pressed then 1 else 0) {
      DistinctMultiplicity(keys, k);
      DistinctMultiplicity(pressed, k);
    }
    if x :| x in pressed && x !in keys {
      assert multiset(pressed)[x] > multiset(keys)[x];
    } else {
      assert multiset(pressed) <= multiset(keys);
      if k :| k in keys && k !in pressed {
        assert multiset(pressed)[k] < multiset(keys)[k];
      } else {
        assert multiset(pressed) == multiset(keys);
      }
    }
  }

  // ---------------------------------------------------------------------------
  // Successive and held keys

  predicate IsUpOf(ev: KeyEvent, k: Key) { ev.key == k && ev.state == Up }

  predicate IsDownOf(ev: KeyEvent, k: Key) { ev.key == k && ev.state == Down }

  /** Typing: every key goes down at most once and up at most once, after that. */
  ghost predicate Typing(sq: KeySequence) {
    && (forall i :: 0 <= i < |sq| ==> sq[i].IsNonOptional() && IsDeviceKey(sq[i].key))
    && (forall i, j :: 0 <= i < j < |sq| && sq[i].key == sq[j].key ==> sq[i].state == Down && sq[j].state == Up)
    && (forall j :: 0 <= j < |sq| && sq[j].state == Up ==> sq[j].key in Downs(sq[..j]))
  }

  /** The pressed keys in order. */
  function Downs(sq: KeySequence): seq<Key> {
    if sq == [] then []
    else
      var last := sq[|sq| - 1];
      Downs(sq[..|sq| - 1]) + (if last.state == Down then [last.key] else [])
  }

  lemma {:induction false} DownsGrow(sq: KeySequence, s: nat)
    requires s <= |sq|
    ensures Downs(sq[..s]) <= Downs(sq)
    decreases |sq|
  {
    if s == |sq| {
      assert sq[..s] == sq;
    } else {
      var init := sq[..|sq| - 1];
      assert init[..s] == sq[..s];
      DownsGrow(init, s);
    }
  }

  lemma DownsStep(sq: KeySequence, s: nat)
    requires s < |sq|
    ensures Downs(sq[..s + 1]) == Downs(sq[..s]) + (if sq[s].state == Down then [sq[s].key] else [])
    ensures sq[s].state == Down ==> |Downs(sq[..s])| < |Downs(sq)| && Downs(sq)[|Downs(sq[..s])|] == sq[s].key
  {
    assert sq[..s + 1][..s] == sq[..s];
    DownsGrow(sq, s + 1);
  }

  lemma {:induction false} DownIsInSequence(sq: KeySequence, k: Key)
    requires k in Downs(sq)
    ensures exists i :: 0 <= i < |sq| && IsDownOf(sq[i], k)
  {
    var init, last := sq[..|sq| - 1], sq[|sq| - 1];
    if k in Downs(init) {
      DownIsInSequence(init, k);
      var i :| 0 <= i < |init| && IsDownOf(init[i], k);
      assert IsDownOf(sq[i], k);
    } else {
      assert IsDownOf(last, k);
    }
  }

  /** Releases of the passed keys: pending, or marked once they were read. */
  function UpsPending(keys: seq<Key>, i: nat, read: KeySequence): (r: KeySequence)
    requires i <= |keys|
    ensures |r| == i
    ensures forall j :: 0 <= j < i ==>
      r[j] == KeyEvent(keys[j], if exists n :: 0 <= n < |read| && IsUpOf(read[n], keys[j]) then Up else UpAsync, 0)
  {
    seq(i, j requires 0 <= j < i =>
      KeyEvent(keys[j], if exists n :: 0 <= n < |read| && IsUpOf(read[n], keys[j]) then Up else UpAsync, 0))
  }

  /** `k1 ... kn` compiles to `+k1 ~k1 ... +kn ~kn`. */
  function SuccessiveExpression(keys: seq<Key>): (r: KeySequence)
    ensures |r| == 2 * |keys|
    ensures forall j :: 0 <= j < |keys| ==> r[2 * j] == Press(keys[j]) && r[2 * j + 1] == KeyEvent(keys[j], UpAsync, 0)
  {
    if keys == [] then []
    else
      var n := |keys| - 1;
      SuccessiveExpression(keys[..n]) + [Press(keys[n]), KeyEvent(keys[n], UpAsync, 0)]
  }

  /** What the documentation promises for successive keys: only the order of
      the presses counts. */
  function SuccessiveVerdict(keys: seq<Key>, downs: seq<Key>): MatchResult {
    if downs == keys then Match
    else if downs <= keys then MightMatch
    else NoMatch
  }

  function SuccessiveCursor(keys: seq<Key>, sq: KeySequence, i: nat, s: nat): Cursor
    requires i <= |keys| && s <= |sq|
  {
    START.(e := 2 * i, s := s, async := UpsPending(keys, i, sq[..s]))
  }

  /** Reading the release of a key that was passed. */
  lemma UpRead(keys: seq<Key>, i: nat, read: KeySequence, ev: KeyEvent, j: nat)
    requires DeviceKeys(keys) && Distinct(keys) && j < i <= |keys|
    requires IsUpOf(ev, keys[j])
    requires forall n :: 0 <= n < |read| ==> !IsUpOf(read[n], keys[j])
    ensures var async := UpsPending(keys, i, read);
      && FindPending(async, UpAsync, keys[j]) == j
      && Marked(async, j, Up) == UpsPending(keys, i, read + [ev])
  {
    var async := UpsPending(keys, i, read);
    PendingFound(async, UpAsync, keys[j], j);
    var now := read + [ev];
    assert IsUpOf(now[|read|], keys[j]);
    assert forall n :: 0 <= n < |read| ==> now[n] == read[n];
    forall m | 0 <= m < i
      ensures (exists n :: 0 <= n < |now| && IsUpOf(now[n], keys[m]))
        == (m == j || exists n :: 0 <= n < |read| && IsUpOf(read[n], keys[m]))
    {
      if n :| 0 <= n < |read| && IsUpOf(read[n], keys[m]) {
        assert IsUpOf(now[n], keys[m]);
      }
    }
    assert Marked(async, j, Up) == UpsPending(keys, i, now);
  }

  /** Pending releases help neither a press nor the end of the expression. */
  lemma UpsDoNotHelp(keys: seq<Key>, i: nat, read: KeySequence, se: KeyEvent, ee: KeyEvent, optional: bool, c: Cursor)
    requires DeviceKeys(keys) && i <= |keys| && c.async == UpsPending(keys, i, read)
    requires se == NO_EVENT || se.state == Down
    requires ee == NO_EVENT || (ee.state == Down && IsDeviceKey(ee.key))
    ensures StepAsync(optional, c, se, ee) == Verdict(NoMatch, c)
  {
    NothingPending(c.async, if se.state == Up then UpAsync else DownAsync, se.key);
    NothingUnifiable(c.async, ee);
  }

  lemma UpsExtended(keys: seq<Key>, i: nat, read: KeySequence, ev: KeyEvent)
    requires i < |keys| && ev.state == Down
    requires forall n :: 0 <= n < |read| ==> !IsUpOf(read[n], keys[i])
    ensures UpsPending(keys, i + 1, read + [ev]) == UpsPending(keys, i, read) + [KeyEvent(keys[i], UpAsync, 0)]
  {
    var now := read + [ev];
    forall j | 0 <= j <= i
      ensures (exists n :: 0 <= n < |now| && IsUpOf(now[n], keys[j]))
        == (exists n :: 0 <= n < |read| && IsUpOf(read[n], keys[j]))
    {
      if n :| 0 <= n < |read| && IsUpOf(read[n], keys[j]) {
        assert IsUpOf(now[n], keys[j]);
      }
    }
  }

  /** A press that directly matches the expression, with no async event of its key. */
  lemma PressStep(ex: KeySequence, sq: RealEvents, optional: bool, c: Cursor)
    requires c.Within(ex, sq) && c.s < |sq| && c.e < |ex|
    requires c.notKeys == [] && IsDeviceKey(sq[c.s].key)
    requires sq[c.s].state == Down && ex[c.e].Same(sq[c.s])
    requires forall j :: 0 <= j < |c.async| ==> c.async[j].key != sq[c.s].key
    ensures Step(ex, sq, optional, c) == Continue(c.(s := c.s + 1, e := c.e + 1))
  {
    hide StepIndirect;
    NothingRemoved(c.async, sq[c.s].key);
  }

  /** An async event of the expression becomes pending. */
  lemma AsyncStep(ex: KeySequence, sq: RealEvents, optional: bool, c: Cursor)
    requires c.Within(ex, sq) && c.e < |ex| && c.notKeys == []
    requires ex[c.e].state == UpAsync
    ensures Step(ex, sq, optional, c) == Continue(c.(async := c.async + [ex[c.e]], e := c.e + 1))
  {
    hide StepIndirect;
  }

  /** A press of another key than the expected one, or the end of the input. */
  lemma MismatchStep(ex: KeySequence, sq: RealEvents, optional: bool, c: Cursor,
                     keys: seq<Key>, i: nat, read: KeySequence)
    requires c.Within(ex, sq) && c.Running(ex, sq)
    requires c.notKeys == [] && !c.isNoMightMatch && c.historyTimeout == NO_EVENT
    requires DeviceKeys(keys) && i <= |keys| && c.async == UpsPending(keys, i, read)
    requires c.s < |sq| ==> IsDeviceKey(sq[c.s].key) && sq[c.s].state == Down
    requires c.e < |ex| ==> IsDeviceKey(ex[c.e].key) && ex[c.e].state == Down
    requires !(c.s < |sq| && At(ex, c.e).key == sq[c.s].key)
    ensures Run(ex, sq, optional, c).result == if c.s == |sq| then MightMatch else NoMatch
  {
    hide Step, StepSurplus, StepAsync;
    PlainStep(ex, sq, optional, c);
    UpsDoNotHelp(keys, i, read, At(sq, c.s), At(ex, c.e), optional, c);
  }

  /** The release of a passed key is consumed by its pending event. */
  lemma ReleaseStep(ex: KeySequence, sq: RealEvents, optional: bool, c: Cursor, keys: seq<Key>, i: nat, j: nat)
    requires c.Within(ex, sq) && c.s < |sq|
    requires c.notKeys == [] && !c.isNoMightMatch && c.historyTimeout == NO_EVENT
    requires DeviceKeys(keys) && Distinct(keys) && j < i <= |keys| && c.async == UpsPending(keys, i, sq[..c.s])
    requires IsUpOf(sq[c.s], keys[j])
    requires forall n :: 0 <= n < c.s ==> !IsUpOf(sq[n], keys[j])
    requires c.e < |ex| ==> IsDeviceKey(ex[c.e].key) && ex[c.e].state == Down
    ensures Step(ex, sq, optional, c) == Continue(c.(s := c.s + 1, async := UpsPending(keys, i, sq[..c.s + 1])))
  {
    hide Step, StepSurplus;
    PlainStep(ex, sq, optional, c);
    UpRead(keys, i, sq[..c.s], sq[c.s], j);
    assert sq[..c.s] + [sq[c.s]] == sq[..c.s + 1];
  }

  /** Where the release at `s` was pressed, and that it is the first one. */
  lemma ReleaseOfPassed(keys: seq<Key>, sq: RealEvents, i: nat, s: nat) returns (j: nat)
    requires Typing(sq) && i <= |keys| && s < |sq| && sq[s].state == Up
    requires Downs(sq[..s]) == keys[..i]
    ensures j < i && keys[j] == sq[s].key
    ensures forall n :: 0 <= n < s ==> !IsUpOf(sq[n], keys[j])
  {
    assert sq[s].key in keys[..i];
    j :| 0 <= j < i && keys[j] == sq[s].key;
  }

  lemma SuccessiveRelease(keys: seq<Key>, sq: RealEvents, optional: bool, i: nat, s: nat)
    requires DeviceKeys(keys) && Distinct(keys) && Typing(sq)
    requires i <= |keys| && s < |sq| && Downs(sq[..s]) == keys[..i] && sq[s].state == Up
    ensures Run(SuccessiveExpression(keys), sq, optional, SuccessiveCursor(keys, sq, i, s))
      == Run(SuccessiveExpression(keys), sq, optional, SuccessiveCursor(keys, sq, i, s + 1))
  {
    hide Step, Typing, Downs, UpsPending;
    var j := ReleaseOfPassed(keys, sq, i, s);
    UpIsUp(sq, s, keys[j]);
    if i < |keys| {
      assert SuccessiveExpression(keys)[2 * i] == Press(keys[i]);
    }
    ReleaseStep(SuccessiveExpression(keys), sq, optional, SuccessiveCursor(keys, sq, i, s), keys, i, j);
  }

  lemma SuccessivePress(keys: seq<Key>, sq: RealEvents, optional: bool, i: nat, s: nat)
    requires i < |keys| && s < |sq| && IsDeviceKey(keys[i]) && IsDownOf(sq[s], keys[i])
    requires forall j :: 0 <= j < i ==> keys[j] != keys[i]
    requires forall n :: 0 <= n < s ==> !IsUpOf(sq[n], keys[i])
    ensures Run(SuccessiveExpression(keys), sq, optional, SuccessiveCursor(keys, sq, i, s))
      == Run(SuccessiveExpression(keys), sq, optional, SuccessiveCursor(keys, sq, i + 1, s + 1))
  {
    hide Step;
    var ex, c := SuccessiveExpression(keys), SuccessiveCursor(keys, sq, i, s);
    assert ex[2 * i] == Press(keys[i]) && ex[2 * i + 1] == KeyEvent(keys[i], UpAsync, 0);
    PressStep(ex, sq, optional, c);
    AsyncStep(ex, sq, optional, c.(s := s + 1, e := 2 * i + 1));
    UpsExtended(keys, i, sq[..s], sq[s]);
    assert sq[..s] + [sq[s]] == sq[..s + 1];
  }

  /** The input ends, or a press is not the expected one. */
  lemma SuccessiveStop(keys: seq<Key>, sq: RealEvents, optional: bool, i: nat, s: nat)
    requires DeviceKeys(keys) && i <= |keys| && s <= |sq| && Downs(sq[..s]) == keys[..i]
    requires s < |sq| ==> sq[s].state == Down && IsDeviceKey(sq[s].key) && (i < |keys| ==> sq[s].key != keys[i])
    ensures Run(SuccessiveExpression(keys), sq, optional, SuccessiveCursor(keys, sq, i, s)).result
      == SuccessiveVerdict(keys, Downs(sq))
  {
    hide Step;
    var ex, c := SuccessiveExpression(keys), SuccessiveCursor(keys, sq, i, s);
    if i < |keys| {
      assert ex[2 * i] == Press(keys[i]);
    }
    if s < |sq| {
      DownsStep(sq, s);
      assert Downs(sq)[i] == sq[s].key;
    } else {
      assert sq[..s] == sq;
    }
    if c.Running(ex, sq) {
      MismatchStep(ex, sq, optional, c, keys, i, sq[..s]);
    }
  }

  lemma {:induction false} SuccessiveLoop(keys: seq<Key>, sq: RealEvents, optional: bool, i: nat, s: nat)
    requires DeviceKeys(keys) && Distinct(keys) && Typing(sq)
    requires i <= |keys| && s <= |sq| && Downs(sq[..s]) == keys[..i]
    ensures Run(SuccessiveExpression(keys), sq, optional, SuccessiveCursor(keys, sq, i, s)).result
      == SuccessiveVerdict(keys, Downs(sq))
    decreases |sq| - s
  {
    hide Step, Run, SuccessiveVerdict, SuccessiveCursor, Downs;
    if s < |sq| && sq[s].state == Up {
      SuccessiveRelease(keys, sq, optional, i, s);
      DownsStep(sq, s);
      SuccessiveLoop(keys, sq, optional, i, s + 1);
    } else if s < |sq| && i < |keys| && sq[s].key == keys[i] {
      SuccessivePress(keys, sq, optional, i, s);
      DownsStep(sq, s);
      SuccessiveLoop(keys, sq, optional, i + 1, s + 1);
    } else {
      SuccessiveStop(keys, sq, optional, i, s);
    }
  }

  /** Successive keys: whatever the releases do, the sequence matches exactly
      when the presses are all keys in order, might match exactly when they are
      a proper prefix, and is rejected otherwise. */
  lemma SuccessiveKeysInOrder(keys: seq<Key>, sq: RealEvents, optional: bool)
    requires DeviceKeys(keys) && Distinct(keys) && Typing(sq)
    ensures Matching(SuccessiveExpression(keys), sq, optional).result == SuccessiveVerdict(keys, Downs(sq))
  {
    assert SuccessiveCursor(keys, sq, 0, 0) == START;
    SuccessiveLoop(keys, sq, optional, 0, 0);
  }

  /** `k1{k2{ ... kn}}` compiles to `+k1 ... +kn ~kn ... ~k1`. */
  function HeldExpression(keys: seq<Key>): KeySequence {
    Events(keys, Down) + Events(Reverse(keys), UpAsync)
  }

  function Reverse<T>(s: seq<T>): (r: seq<T>)
    ensures |r| == |s| && forall i :: 0 <= i < |s| ==> r[i] == s[|s| - 1 - i]
  {
    if s == [] then [] else [s[|s| - 1]] + Reverse(s[..|s| - 1])
  }

  /** No key was released before the last press. */
  ghost predicate HeldWhilePressing(sq: KeySequence) {
    forall i, j :: 0 <= i < j < |sq| && sq[j].state == Down ==> sq[i].state == Down
  }

  predicate OnlyPresses(sq: KeySequence) {
    forall i :: 0 <= i < |sq| ==> sq[i].state == Down
  }

  lemma {:induction false} DownsOfPresses(sq: KeySequence)
    requires OnlyPresses(sq)
    ensures Downs(sq) == KeysOf(sq)
  {
    if sq != [] {
      DownsOfPresses(sq[..|sq| - 1]);
      assert KeysOf(sq) == KeysOf(sq[..|sq| - 1]) + [sq[|sq| - 1].key];
    }
  }

  function HeldCursor(keys: seq<Key>, sq: KeySequence, i: nat, s: nat): Cursor
    requires i <= |keys| && s <= |sq|
  {
    START.(e := |keys| + i, s := s, async := UpsPending(Reverse(keys), i, sq[..s]))
  }

  lemma HeldLength(keys: seq<Key>)
    ensures |HeldExpression(keys)| == 2 * |keys|
  {
  }

  lemma UpIsUp(sq: KeySequence, s: nat, k: Key)
    requires s < |sq| && sq[s].state == Up && sq[s].key == k
    ensures IsUpOf(sq[s], k)
  {
  }

  lemma HeldRelease(keys: seq<Key>, sq: RealEvents, optional: bool, s: nat)
    requires DeviceKeys(keys) && Distinct(keys) && Typing(sq)
    requires s < |sq| && Downs(sq[..s]) == keys && sq[s].state == Up
    ensures Run(HeldExpression(keys), sq, optional, HeldCursor(keys, sq, |keys|, s))
      == Run(HeldExpression(keys), sq, optional, HeldCursor(keys, sq, |keys|, s + 1))
  {
    hide Step, Typing, Downs, HeldExpression, UpsPending;
    var rev := Reverse(keys);
    ReverseDistinct(keys);
    assert keys[..|keys|] == keys;
    HeldLength(keys);
    var j := ReleaseOfPassed(keys, sq, |keys|, s);
    UpIsUp(sq, s, keys[j]);
    assert rev[|keys| - 1 - j] == keys[j];
    ReleaseStep(HeldExpression(keys), sq, optional, HeldCursor(keys, sq, |keys|, s), rev, |keys|, |keys| - 1 - j);
  }

  /** Once all keys were pressed: releases follow, a further press is rejected. */
  lemma {:induction false} HeldTail(keys: seq<Key>, sq: RealEvents, optional: bool, s: nat)
    requires DeviceKeys(keys) && Distinct(keys) && Typing(sq)
    requires s <= |sq| && Downs(sq[..s]) == keys
    ensures Run(HeldExpression(keys), sq, optional, HeldCursor(keys, sq, |keys|, s)).result
      == if Downs(sq) == keys then Match else NoMatch
    decreases |sq| - s
  {
    hide Step, Downs;
    if s == |sq| {
      assert sq[..s] == sq;
    } else {
      DownsStep(sq, s);
      if sq[s].state == Up {
        HeldRelease(keys, sq, optional, s);
        HeldTail(keys, sq, optional, s + 1);
      } else {
        ReverseDistinct(keys);
        MismatchStep(HeldExpression(keys), sq, optional, HeldCursor(keys, sq, |keys|, s), Reverse(keys), |keys|, sq[..s]);
      }
    }
  }

  lemma ReverseDistinct(keys: seq<Key>)
    requires Distinct(keys) && DeviceKeys(keys)
    ensures Distinct(Reverse(keys)) && DeviceKeys(Reverse(keys))
  {
  }

  /** The releases at the end of the expression become pending. */
  lemma {:induction false} HeldAsync(keys: seq<Key>, sq: RealEvents, optional: bool, i: nat, s: nat)
    requires DeviceKeys(keys) && i <= |keys| && s <= |sq| && OnlyPresses(sq[..s])
    ensures Run(HeldExpression(keys), sq, optional, HeldCursor(keys, sq, i, s))
      == Run(HeldExpression(keys), sq, optional, HeldCursor(keys, sq, |keys|, s))
    decreases |keys| - i
  {
    hide Step;
    if i < |keys| {
      var rev, c := Reverse(keys), HeldCursor(keys, sq, i, s);
      AsyncStep(HeldExpression(keys), sq, optional, c);
      assert forall n :: 0 <= n < s ==> !IsUpOf(sq[..s][n], rev[i]);
      assert c.async + [KeyEvent(rev[i], UpAsync, 0)] == UpsPending(rev, i + 1, sq[..s]);
      HeldAsync(keys, sq, optional, i + 1, s);
    }
  }

  function HeldVerdict(keys: seq<Key>, sq: KeySequence): MatchResult {
    if |Downs(sq)| >= |keys| && |sq| >= |keys| && OnlyPresses(sq[..|keys|]) then
      (if Downs(sq) == keys then Match else NoMatch)
    else if OnlyPresses(sq) && KeysOf(sq) <= keys then MightMatch
    else NoMatch
  }

  lemma HeldPress(keys: seq<Key>, sq: RealEvents, optional: bool, i: nat)
    requires i < |keys| && i < |sq| && IsDeviceKey(keys[i]) && IsDownOf(sq[i], keys[i])
    ensures Run(HeldExpression(keys), sq, optional, START.(e := i, s := i))
      == Run(HeldExpression(keys), sq, optional, START.(e := i + 1, s := i + 1))
  {
    hide Step;
    PressStep(HeldExpression(keys), sq, optional, START.(e := i, s := i));
  }

  /** The input ends, or a press is not the expected one, or a key is released. */
  lemma HeldStop(keys: seq<Key>, sq: RealEvents, optional: bool, i: nat)
    requires DeviceKeys(keys) && i < |keys| && i <= |sq|
    requires i < |sq| ==> sq[i].IsNonOptional() && IsDeviceKey(sq[i].key) && !IsDownOf(sq[i], keys[i])
    ensures Run(HeldExpression(keys), sq, optional, START.(e := i, s := i)).result
      == if i == |sq| then MightMatch else NoMatch
  {
    hide Step;
    var ex, c := HeldExpression(keys), START.(e := i, s := i);
    assert ex[i] == Press(keys[i]);
    PlainStep(ex, sq, optional, c);
    assert StepAsync(optional, c, At(sq, i), ex[i]) == Verdict(NoMatch, c);
  }

  lemma {:induction false} HeldLoop(keys: seq<Key>, sq: RealEvents, optional: bool, i: nat)
    requires DeviceKeys(keys) && Distinct(keys) && Typing(sq)
    requires i <= |keys| && i <= |sq|
    requires OnlyPresses(sq[..i]) && KeysOf(sq[..i]) == keys[..i]
    ensures Run(HeldExpression(keys), sq, optional, START.(e := i, s := i)).result == HeldVerdict(keys, sq)
    decreases |keys| - i
  {
    hide Step, Run, HeldVerdict;
    if i == |keys| {
      HeldVerdictFull(keys, sq);
      DownsOfPresses(sq[..i]);
      assert keys[..i] == keys;
      assert START.(e := i, s := i) == HeldCursor(keys, sq, 0, i);
      HeldAsync(keys, sq, optional, 0, i);
      HeldTail(keys, sq, optional, i);
    } else if i < |sq| && IsDownOf(sq[i], keys[i]) {
      HeldPress(keys, sq, optional, i);
      assert sq[..i + 1] == sq[..i] + [sq[i]];
      HeldLoop(keys, sq, optional, i + 1);
    } else {
      HeldStop(keys, sq, optional, i);
      HeldVerdictStopped(keys, sq, i);
    }
  }

  lemma HeldVerdictFull(keys: seq<Key>, sq: KeySequence)
    requires |keys| <= |sq| && OnlyPresses(sq[..|keys|])
    ensures HeldVerdict(keys, sq) == if Downs(sq) == keys then Match else NoMatch
  {
    DownsOfPresses(sq[..|keys|]);
    DownsGrow(sq, |keys|);
  }

  lemma HeldVerdictStopped(keys: seq<Key>, sq: KeySequence, i: nat)
    requires i < |keys| && i <= |sq|
    requires OnlyPresses(sq[..i]) && KeysOf(sq[..i]) == keys[..i]
    requires i < |sq| ==> !IsDownOf(sq[i], keys[i])
    ensures HeldVerdict(keys, sq) == if i == |sq| then MightMatch else NoMatch
  {
    if i == |sq| {
      assert sq[..i] == sq;
    } else if sq[i].state == Down {
      assert KeysOf(sq)[i] != keys[i];
      if |sq| >= |keys| && OnlyPresses(sq[..|keys|]) {
        DownsOfPresses(sq[..|keys|]);
        DownsGrow(sq, |keys|);
        assert Downs(sq)[i] == KeysOf(sq[..|keys|])[i] == sq[i].key;
      }
    } else if |sq| >= |keys| {
      assert sq[..|keys|][i] == sq[i];
    }
  }

  /** Held keys: the sequence matches exactly when the presses are all keys in
      order and no key was released before the last press; it might match
      exactly when it is nothing but presses of a proper prefix. */
  lemma HeldKeysStayDown(keys: seq<Key>, sq: RealEvents, optional: bool)
    requires keys != [] && DeviceKeys(keys) && Distinct(keys) && Typing(sq)
    ensures var r := Matching(HeldExpression(keys), sq, optional).result;
      && (r == Match <==> Downs(sq) == keys && HeldWhilePressing(sq))
      && (r == MightMatch <==> OnlyPresses(sq) && KeysOf(sq) < keys)
  {
    HeldLoop(keys, sq, optional, 0);
    HeldVerdictMeaning(keys, sq);
  }

  lemma {:induction false} FewDowns(sq: KeySequence)
    ensures |Downs(sq)| <= |sq|
    ensures |Downs(sq)| == |sq| ==> OnlyPresses(sq)
  {
    if sq != [] {
      FewDowns(sq[..|sq| - 1]);
    }
  }

  lemma {:induction false} DownsSplit(a: KeySequence, b: KeySequence)
    ensures Downs(a + b) == Downs(a) + Downs(b)
  {
    if b == [] {
      assert a + b == a;
    } else {
      assert (a + b)[..|a + b| - 1] == a + b[..|b| - 1];
      DownsSplit(a, b[..|b| - 1]);
    }
  }

  lemma HeldVerdictMeaning(keys: seq<Key>, sq: KeySequence)
    requires keys != [] && forall i :: 0 <= i < |sq| ==> sq[i].IsNonOptional()
    ensures HeldVerdict(keys, sq) == Match <==> Downs(sq) == keys && HeldWhilePressing(sq)
    ensures HeldVerdict(keys, sq) == MightMatch <==> OnlyPresses(sq) && KeysOf(sq) < keys
  {
    FewDowns(sq);
    if |sq| >= |keys| && Downs(sq) == keys {
      HeldPressesFirst(keys, sq);
    }
    if OnlyPresses(sq) {
      DownsOfPresses(sq);
      assert sq[..|sq|] == sq;
    }
  }

  /** Keys are held while pressing exactly when the presses come first. */
  lemma HeldPressesFirst(keys: seq<Key>, sq: KeySequence)
    requires |sq| >= |keys| && Downs(sq) == keys && forall i :: 0 <= i < |sq| ==> sq[i].IsNonOptional()
    ensures HeldWhilePressing(sq) <==> OnlyPresses(sq[..|keys|])
  {
    hide Downs;
    if OnlyPresses(sq[..|keys|]) {
      NoPressLater(keys, sq);
      assert forall j :: 0 <= j < |keys| ==> sq[..|keys|][j] == sq[j];
    } else if HeldWhilePressing(sq) {
      var i :| 0 <= i < |keys| && sq[..|keys|][i].state != Down;
      assert sq[i] == sq[..|keys|][i];
      TooFewPresses(sq, i);
    }
  }

  lemma NoPressLater(keys: seq<Key>, sq: KeySequence)
    requires |sq| >= |keys| && Downs(sq) == keys && OnlyPresses(sq[..|keys|])
    ensures forall j :: |keys| <= j < |sq| ==> sq[j].state != Down
  {
    var a, b := sq[..|keys|], sq[|keys|..];
    assert sq == a + b;
    DownsSplit(a, b);
    DownsOfPresses(a);
    NoDowns(b);
    assert forall j :: |keys| <= j < |sq| ==> sq[j] == b[j - |keys|];
  }

  lemma TooFewPresses(sq: KeySequence, i: nat)
    requires i < |sq| && forall j :: i <= j < |sq| ==> sq[j].state != Down
    ensures |Downs(sq)| <= i
  {
    var a, b := sq[..i], sq[i..];
    assert sq == a + b;
    DownsSplit(a, b);
    NoDownsConverse(b);
    FewDowns(a);
  }

  lemma {:induction false} NoDowns(sq: KeySequence)
    requires Downs(sq) == []
    ensures forall i :: 0 <= i < |sq| ==> sq[i].state != Down
  {
    if sq != [] {
      NoDowns(sq[..|sq| - 1]);
    }
  }

  lemma {:induction false} NoDownsConverse(sq: KeySequence)
    requires forall i :: 0 <= i < |sq| ==> sq[i].state != Down
    ensures Downs(sq) == []
  {
    if sq != [] {
      NoDownsConverse(sq[..|sq| - 1]);
    }
  }
}
