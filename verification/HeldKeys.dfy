/** What keys mean to the matcher that are down already: those which an input
    forbids with `!`, and those which matched before. */
module HeldKeys {
  import opened Keys
  import opened Matcher
  import opened MatcherTheorems

  // ---------------------------------------------------------------------------
  // `!K`: no press of K is read behind it

  predicate IsPressOf(event: KeyEvent, k: Key) { event.IsPress() && event.key == k }

  predicate NoPressFrom(sq: KeySequence, s: nat, k: Key) {
    forall j :: s <= j < |sq| ==> !IsPressOf(sq[j], k)
  }

  /** The expression does not demand the key from event `i` on. */
  predicate NotDemanded(ex: KeySequence, i: nat, k: Key) {
    forall j :: i <= j < |ex| ==> !(ex[j].state == Down && ex[j].key == k)
  }

  lemma {:induction false} StaysForbidden(keys: seq<Key>, k: Key, other: Key)
    requires k in keys && other != k
    ensures k in WithoutKey(keys, other)
    decreases |keys|
  {
    if keys[0] != k {
      StaysForbidden(keys[1..], k, other);
    }
  }

  lemma IndirectKeeps(ex: KeySequence, sq: RealEvents, optional: bool, c: Cursor, se: KeyEvent, ee: KeyEvent)
    requires c.Within(ex, sq) && c.Running(ex, sq) && se == At(sq, c.s) && ee == At(ex, c.e)
    ensures var p := StepIndirect(ex, sq, optional, c, se, ee);
      && (p.Done? ==> p.outcome.result != Match && (p.outcome.result != NoMatch ==> c.s == |sq|))
      && (p.Continue? ==> p.next.notKeys == c.notKeys && c.e <= p.next.e <= c.e + 1 && c.s <= p.next.s <= c.s + 1)
  {
    hide FindPending, FindUnifiable, FindEvent, Unifiable;
  }

  lemma ForbiddenStep(ex: KeySequence, sq: RealEvents, optional: bool, c: Cursor, k: Key)
    requires c.Within(ex, sq) && c.Running(ex, sq) && k in c.notKeys && NotDemanded(ex, c.e, k)
    ensures var p := Step(ex, sq, optional, c);
      && (c.s < |sq| && IsPressOf(sq[c.s], k) ==> p.Done? && p.outcome.result == NoMatch)
      && (p.Done? && p.outcome.result != NoMatch ==> c.s == |sq|)
      && (p.Continue? ==> k in p.next.notKeys && c.e <= p.next.e && c.s <= p.next.s <= c.s + 1)
  {
    hide StepIndirect, Unifiable, WithoutEventsOf, WithoutKey;
    var se, ee := At(sq, c.s), At(ex, c.e);
    if ee.state == Down {
      StaysForbidden(c.notKeys, k, ee.key);
    }
    IndirectKeeps(ex, sq, optional, if ee.state == Down then c.(notKeys := WithoutKey(c.notKeys, ee.key)) else c, se, ee);
  }

  /** Once a key is forbidden, a sequence with a press of it further on is rejected,
      whether the press matched before or not. */
  lemma {:induction false} ForbiddenIsRejected(ex: KeySequence, sq: RealEvents, optional: bool, c: Cursor, k: Key)
    requires c.Within(ex, sq) && k in c.notKeys && NotDemanded(ex, c.e, k)
    ensures Run(ex, sq, optional, c).result != NoMatch ==> NoPressFrom(sq, c.s, k)
    decreases c.Left(ex, sq)
  {
    hide Step;
    if c.Running(ex, sq) {
      ForbiddenStep(ex, sq, optional, c, k);
      var p := Step(ex, sq, optional, c);
      if p.Continue? {
        ForbiddenIsRejected(ex, sq, optional, p.next, k);
      }
    }
  }

  /** How much of the sequence is read when the expression is read up to event `i`. */
  function ReadUpTo(ex: KeySequence, sq: RealEvents, optional: bool, c: Cursor, i: nat): nat
    requires c.Within(ex, sq)
    decreases c.Left(ex, sq)
  {
    if c.e >= i || !c.Running(ex, sq) then c.s
    else
      match Step(ex, sq, optional, c)
      case Done(_) => c.s
      case Continue(next) => ReadUpTo(ex, sq, optional, next, i)
  }

  lemma StepReadsOne(ex: KeySequence, sq: RealEvents, optional: bool, c: Cursor)
    requires c.Within(ex, sq) && c.Running(ex, sq)
    ensures var p := Step(ex, sq, optional, c);
      if p.Continue? then c.e <= p.next.e <= c.e + 1 else p.outcome.result != Match
  {
    hide StepIndirect, Unifiable, WithoutKey, WithoutEventsOf;
    var se, ee := At(sq, c.s), At(ex, c.e);
    IndirectKeeps(ex, sq, optional, if ee.state == Down then c.(notKeys := WithoutKey(c.notKeys, ee.key)) else c, se, ee);
  }

  lemma NotIsForbidden(ex: KeySequence, sq: RealEvents, optional: bool, c: Cursor, k: Key)
    requires c.Within(ex, sq) && c.e < |ex| && ex[c.e].state == Not && ex[c.e].key == k != TIMEOUT
    ensures var p := Step(ex, sq, optional, c);
      p.Continue? ==> p.next.e == c.e + 1 && p.next.s == c.s && k in p.next.notKeys
    ensures Step(ex, sq, optional, c).Done? ==> Step(ex, sq, optional, c).outcome.result == NoMatch
  {
    hide StepIndirect;
  }

  lemma {:induction false} ForbiddenBehind(ex: KeySequence, sq: RealEvents, optional: bool, c: Cursor, i: nat, k: Key)
    requires c.Within(ex, sq) && c.e <= i < |ex|
    requires ex[i].state == Not && ex[i].key == k != TIMEOUT && NotDemanded(ex, i, k)
    requires Run(ex, sq, optional, c).result == Match
    ensures NoPressFrom(sq, ReadUpTo(ex, sq, optional, c, i), k)
    decreases c.Left(ex, sq)
  {
    hide Step;
    var p := Step(ex, sq, optional, c);
    StepReadsOne(ex, sq, optional, c);
    if c.e == i {
      NotIsForbidden(ex, sq, optional, c, k);
      ForbiddenIsRejected(ex, sq, optional, p.next, k);
    } else {
      ForbiddenBehind(ex, sq, optional, p.next, i, k);
    }
  }

  /** What `!K` means at any place of any expression that does not press K further
      on: what matches has no press of K behind the events read up to there, neither
      a new one nor one that matched before. */
  lemma NotMeansNotPressed(ex: KeySequence, sq: RealEvents, optional: bool, i: nat)
    requires i < |ex| && ex[i].state == Not && ex[i].key != TIMEOUT && NotDemanded(ex, i, ex[i].key)
    requires Matching(ex, sq, optional).result == Match
    ensures NoPressFrom(sq, ReadUpTo(ex, sq, optional, START, i), ex[i].key)
  {
    ForbiddenBehind(ex, sq, optional, START, i, ex[i].key);
  }

  // ---------------------------------------------------------------------------
  // `!A` in front, and keys that are held

  /** Presses of device keys that matched before. */
  predicate Held(held: KeySequence) {
    forall i :: 0 <= i < |held| ==> held[i].state == DownMatched && IsDeviceKey(held[i].key)
  }

  /** Presses and releases of device keys in the expression, without `!`. */
  predicate Plain(ex: KeySequence) {
    forall i :: 0 <= i < |ex| ==> ex[i].state in {Down, Up, UpAsync, DownAsync} && IsDeviceKey(ex[i].key)
  }

  predicate TypedKeys(sq: KeySequence) {
    forall i :: 0 <= i < |sq| ==> sq[i].IsNonOptional() && IsDeviceKey(sq[i].key)
  }

  function NotBefore(a: Key, ex: KeySequence): KeySequence { [KeyEvent(a, Not, 0)] + ex }

  /** The cursor behind `!A` and the held keys. */
  function Shifted(c: Cursor, a: Key, held: nat): Cursor { c.(e := c.e + 1, s := c.s + held, notKeys := [a]) }

  lemma SameAsync(c: Cursor, a: Key, held: nat, se: KeyEvent, ee: KeyEvent)
    requires ee.key != ANY
    ensures match StepAsync(true, c, se, ee)
      case Done(outcome) =>
        var p := StepAsync(true, Shifted(c, a, held), se, ee);
        p.Done? && p.outcome.result == outcome.result
      case Continue(next) =>
        && StepAsync(true, Shifted(c, a, held), se, ee) == Continue(Shifted(next, a, held))
        && next.notKeys == c.notKeys && next.isNoMightMatch == c.isNoMightMatch && c.s <= next.s
  {
    hide FindPending, FindUnifiable, FindEvent, Unifiable;
  }

  lemma SameIndirect(ex: KeySequence, sq: RealEvents, ex': KeySequence, sq': RealEvents, a: Key, held: nat, c: Cursor,
                     se: KeyEvent, ee: KeyEvent)
    requires c.Within(ex, sq) && c.Running(ex, sq) && !c.isNoMightMatch && c.notKeys == []
    requires |ex'| == |ex| + 1 && |sq'| == |sq| + held && Shifted(c, a, held).Within(ex', sq')
    requires se == At(sq, c.s) == At(sq', c.s + held) && ee == At(ex, c.e) == At(ex', c.e + 1)
    requires se.key != TIMEOUT && ee.key != TIMEOUT && ee.key != ANY
    ensures match StepIndirect(ex, sq, true, c, se, ee)
      case Done(outcome) =>
        var p := StepIndirect(ex', sq', true, Shifted(c, a, held), se, ee);
        p.Done? && p.outcome.result == outcome.result
      case Continue(next) =>
        && StepIndirect(ex', sq', true, Shifted(c, a, held), se, ee) == Continue(Shifted(next, a, held))
        && next.notKeys == [] && !next.isNoMightMatch && c.s <= next.s
  {
    hide StepAsync, Unifiable;
    SameAsync(c, a, held, se, ee);
  }

  lemma SameStep(ex: KeySequence, sq: RealEvents, a: Key, held: KeySequence, c: Cursor)
    requires Plain(ex) && TypedKeys(sq) && Held(held) && NotDemanded(ex, 0, a) && NoPressFrom(sq, c.s, a)
    requires c.Within(ex, sq) && c.Running(ex, sq) && !c.isNoMightMatch && c.notKeys == []
    ensures Shifted(c, a, |held|).Within(NotBefore(a, ex), held + sq)
    ensures match Step(ex, sq, true, c)
      case Done(outcome) =>
        var p := Step(NotBefore(a, ex), held + sq, true, Shifted(c, a, |held|));
        p.Done? && p.outcome.result == outcome.result
      case Continue(next) =>
        && Step(NotBefore(a, ex), held + sq, true, Shifted(c, a, |held|)) == Continue(Shifted(next, a, |held|))
        && next.notKeys == [] && !next.isNoMightMatch && c.s <= next.s
  {
    hide StepIndirect, Unifiable, WithoutEventsOf, Plain, TypedKeys, NotDemanded, NoPressFrom;
    var ex', d, sq': RealEvents := NotBefore(a, ex), Shifted(c, a, |held|), held + sq;
    var se, ee := At(sq, c.s), At(ex, c.e);
    assert At(ex', d.e) == ee && At(sq', d.s) == se;
    PlainEvents(ex, sq, a, c);
    assert d.Within(ex', sq') && d.Running(ex', sq');
    assert ee.state == Down ==> WithoutKey([a], ee.key) == [a] by { StillForbidden(a, ee.key); }
    SameIndirect(ex, sq, ex', sq', a, |held|, c, se, ee);
  }

  lemma StillForbidden(a: Key, k: Key)
    ensures k != a ==> WithoutKey([a], k) == [a]
    ensures WithoutKey([], k) == []
  {
  }

  lemma PlainEvents(ex: KeySequence, sq: RealEvents, a: Key, c: Cursor)
    requires Plain(ex) && TypedKeys(sq) && NotDemanded(ex, 0, a) && NoPressFrom(sq, c.s, a) && c.s <= |sq|
    ensures var se, ee := At(sq, c.s), At(ex, c.e);
      && se.key != TIMEOUT && ee.key != TIMEOUT && ee.key != ANY && (ee.state == Down ==> ee.key != a)
      && (se.IsPress() ==> se.key != a)
      && ee.state !in {Not, NoMightMatch}
  {
  }

  /** Without a press of A the run is the one for the expression without `!A`, behind
      the held keys. */
  lemma {:induction false} SameRun(ex: KeySequence, sq: RealEvents, a: Key, held: KeySequence, c: Cursor)
    requires Plain(ex) && TypedKeys(sq) && Held(held) && NotDemanded(ex, 0, a) && NoPressFrom(sq, c.s, a)
    requires c.Within(ex, sq) && !c.isNoMightMatch && c.notKeys == []
    ensures Shifted(c, a, |held|).Within(NotBefore(a, ex), held + sq)
    ensures Run(NotBefore(a, ex), held + sq, true, Shifted(c, a, |held|)).result == Run(ex, sq, true, c).result
    decreases c.Left(ex, sq)
  {
    hide Step, Plain, TypedKeys, NotDemanded;
    if c.Running(ex, sq) {
      SameStep(ex, sq, a, held, c);
      var p := Step(ex, sq, true, c);
      if p.Continue? {
        SameRun(ex, sq, a, held, p.next);
      }
    }
  }

  lemma HeldStep(ex: KeySequence, sq: RealEvents, a: Key, held: KeySequence, s: nat)
    requires Plain(ex) && ex != [] && ex[0].state == Down && NotDemanded(ex, 0, a) && Held(held) && s < |held|
    requires held[s].key != a && held[s].key != ex[0].key
    ensures var c := START.(e := 1, s := s, notKeys := [a]);
      && c.Within(NotBefore(a, ex), held + sq)
      && Step(NotBefore(a, ex), held + sq, true, c) == Continue(c.(s := s + 1))
  {
    hide Unifiable;
    assert At(held + sq, s) == held[s] && At(NotBefore(a, ex), 1) == ex[0];
    StillForbidden(a, ex[0].key);
    NotUnifiable(held[s], ex[0]);
  }

  lemma NotUnifiable(se: KeyEvent, ee: KeyEvent)
    requires IsDeviceKey(se.key) && IsDeviceKey(ee.key) && se.key != ee.key
    ensures !Unifiable(se, ee)
  {
  }

  lemma {:induction false} HeldAreSkipped(ex: KeySequence, sq: RealEvents, a: Key, held: KeySequence, s: nat)
    requires Plain(ex) && ex != [] && ex[0].state == Down && NotDemanded(ex, 0, a) && Held(held) && s <= |held|
    requires forall i :: 0 <= i < |held| ==> held[i].key != a && held[i].key != ex[0].key
    ensures Run(NotBefore(a, ex), held + sq, true, START.(e := 1, s := s, notKeys := [a]))
      == Run(NotBefore(a, ex), held + sq, true, START.(e := 1, s := |held|, notKeys := [a]))
    decreases |held| - s
  {
    hide Step, Plain, NotDemanded;
    if s < |held| {
      HeldStep(ex, sq, a, held, s);
      HeldAreSkipped(ex, sq, a, held, s + 1);
    }
  }

  lemma NotFirst(ex: KeySequence, sq: RealEvents, a: Key)
    requires a != TIMEOUT
    ensures Matching(NotBefore(a, ex), sq, true) == Run(NotBefore(a, ex), sq, true, START.(e := 1, notKeys := [a]))
  {
    assert [] + [a] == [a];
    assert Step(NotBefore(a, ex), sq, true, START) == Continue(START.(e := 1, notKeys := [a]));
  }

  /** `!A k1 ... kn` for every n and every typing, while any other keys are held: it is
      rejected as soon as A is or gets pressed, and otherwise matches as `k1 ... kn`. */
  lemma NotKeyBeforeSuccessive(a: Key, keys: seq<Key>, held: KeySequence, sq: RealEvents)
    requires IsDeviceKey(a) && DeviceKeys(keys) && Distinct(keys) && keys != [] && a !in keys
    requires Typing(sq) && Held(held) && forall i :: 0 <= i < |held| ==> held[i].key !in keys
    ensures Matching(NotBefore(a, SuccessiveExpression(keys)), held + sq, true).result
      == if NoPressFrom(held + sq, 0, a) then SuccessiveVerdict(keys, Downs(sq)) else NoMatch
  {
    hide Typing, SuccessiveExpression, Distinct, Step;
    var ex := SuccessiveExpression(keys);
    assert Plain(ex) && ex != [] && ex[0] == Press(keys[0]) && NotDemanded(ex, 0, a) by { SuccessiveIsPlain(keys, a); }
    TypingIsTyped(sq);
    NotFirst(ex, held + sq, a);
    if NoPressFrom(held + sq, 0, a) {
      assert forall i :: 0 <= i < |held| ==> (held + sq)[i] == held[i];
      assert NoPressFrom(sq, 0, a) by {
        forall j | 0 <= j < |sq| ensures !IsPressOf(sq[j], a) { assert (held + sq)[|held| + j] == sq[j]; }
      }
      HeldAreSkipped(ex, sq, a, held, 0);
      SameRun(ex, sq, a, held, START);
      SuccessiveKeysInOrder(keys, sq, true);
    } else {
      var c := START.(e := 1, notKeys := [a]);
      assert NotDemanded(NotBefore(a, ex), 1, a);
      ForbiddenIsRejected(NotBefore(a, ex), held + sq, true, c, a);
    }
  }

  lemma TypingIsTyped(sq: KeySequence)
    requires Typing(sq)
    ensures TypedKeys(sq)
  {
  }

  lemma SuccessiveIsPlain(keys: seq<Key>, a: Key)
    requires DeviceKeys(keys) && keys != [] && a !in keys
    ensures var ex := SuccessiveExpression(keys); Plain(ex) && ex != [] && ex[0] == Press(keys[0]) && NotDemanded(ex, 0, a)
  {
    var ex := SuccessiveExpression(keys);
    hide SuccessiveExpression;
    assert ex[2 * 0] == Press(keys[0]);
    forall j | 0 <= j < |ex|
      ensures ex[j] == if j % 2 == 0 then Press(keys[j / 2]) else KeyEvent(keys[j / 2], UpAsync, 0)
    {
      assert ex[2 * (j / 2)] == Press(keys[j / 2]) && ex[2 * (j / 2) + 1] == KeyEvent(keys[j / 2], UpAsync, 0);
    }
  }

  // ---------------------------------------------------------------------------
  // One key, while others are held

  /** What `K` compiles to. */
  function Tap(k: Key): Expression { [Press(k), KeyEvent(k, UpAsync, 0)] }

  /** Held keys, and one more press or release of another key. */
  predicate HeldAndOne(held: KeySequence, last: KeyEvent) {
    && Held(held) && last.IsNonOptional() && IsDeviceKey(last.key)
    && (forall i :: 0 <= i < |held| ==> held[i].key != last.key)
    && (forall i, j :: 0 <= i < j < |held| ==> held[i].key != held[j].key)
  }

  lemma RealOne(held: KeySequence, last: KeyEvent)
    requires HeldAndOne(held, last)
    ensures forall i :: 0 <= i < |held + [last]| ==> (held + [last])[i].key != NONE
  {
  }

  lemma TapSkips(k: Key, held: KeySequence, last: KeyEvent, optional: bool, s: nat)
    requires IsDeviceKey(k) && HeldAndOne(held, last) && s < |held| && held[s].key != k
    ensures var sq: KeySequence := held + [last];
      && (forall i :: 0 <= i < |sq| ==> sq[i].key != NONE)
      && Step(Tap(k), sq, optional, START.(s := s))
         == (if optional then Continue(START.(s := s + 1)) else Verdict(NoMatch, START.(s := s)))
  {
    hide Unifiable;
    RealOne(held, last);
    assert At(held + [last], s) == held[s];
    NotUnifiable(held[s], Press(k));
    NothingUnifiable([], Press(k));
  }

  lemma TapTakes(k: Key, held: KeySequence, last: KeyEvent, optional: bool, s: nat)
    requires IsDeviceKey(k) && HeldAndOne(held, last) && s <= |held|
    requires var event := (held + [last])[s]; event.key == k && event.IsPress()
    ensures var sq: KeySequence := held + [last];
      && (forall i :: 0 <= i < |sq| ==> sq[i].key != NONE)
      && Run(Tap(k), sq, optional, START.(s := s)) == Run(Tap(k), sq, optional, START.(e := 2, s := s + 1, async := [KeyEvent(k, UpAsync, 0)]))
  {
    RealOne(held, last);
    var sq: RealEvents := held + [last];
    var c := START.(e := 1, s := s + 1);
    hide StepIndirect;
    assert Step(Tap(k), sq, optional, START.(s := s)) == Continue(c);
    assert Run(Tap(k), sq, optional, START.(s := s)) == Run(Tap(k), sq, optional, c);
    hide Step, Run;
    assert [] + [KeyEvent(k, UpAsync, 0)] == [KeyEvent(k, UpAsync, 0)];
    AsyncIsRead(Tap(k), sq, optional, c);
  }

  lemma TapSurplus(k: Key, held: KeySequence, last: KeyEvent, optional: bool, s: nat)
    requires IsDeviceKey(k) && HeldAndOne(held, last) && s <= |held| && (held + [last])[s].key != k
    ensures var sq: KeySequence := held + [last];
      && (forall i :: 0 <= i < |sq| ==> sq[i].key != NONE)
      && var c := START.(e := 2, s := s, async := [KeyEvent(k, UpAsync, 0)]);
         Step(Tap(k), sq, optional, c) == (if s < |held| && optional then Continue(c.(s := s + 1)) else Verdict(NoMatch, c))
  {
    hide Unifiable;
    RealOne(held, last);
    var sq: RealEvents := held + [last];
    var async := [KeyEvent(k, UpAsync, 0)];
    var se := sq[s];
    assert At(sq, s) == se && At(Tap(k), 2) == NO_EVENT;
    NothingPending(async, if se.state == Up then UpAsync else DownAsync, se.key);
    assert !Unifiable(NO_EVENT, async[0]) && !Unifiable(se, NO_EVENT) by { NoneUnifies(se, async[0]); }
    NothingUnifiable(async, NO_EVENT);
  }

  lemma NoneUnifies(a: KeyEvent, b: KeyEvent)
    ensures !Unifiable(NO_EVENT, b) && !Unifiable(a, NO_EVENT)
  {
  }

  lemma {:induction false} TapTaken(k: Key, held: KeySequence, last: KeyEvent, optional: bool, s: nat)
    requires IsDeviceKey(k) && HeldAndOne(held, last) && s <= |held|
    requires forall i :: s <= i < |held| ==> held[i].key != k
    requires last.key != k
    ensures var sq: KeySequence := held + [last];
      && (forall i :: 0 <= i < |sq| ==> sq[i].key != NONE)
      && Run(Tap(k), sq, optional, START.(e := 2, s := s, async := [KeyEvent(k, UpAsync, 0)])) == Outcome(NoMatch, [], NO_EVENT)
    decreases |held| - s
  {
    hide Step;
    RealOne(held, last);
    TapSurplus(k, held, last, optional, s);
    if s < |held| && optional {
      TapTaken(k, held, last, optional, s + 1);
    }
  }

  lemma TapLast(k: Key, held: KeySequence, last: KeyEvent, optional: bool)
    requires IsDeviceKey(k) && HeldAndOne(held, last) && !IsPressOf(last, k)
    ensures var sq: KeySequence := held + [last];
      && (forall i :: 0 <= i < |sq| ==> sq[i].key != NONE)
      && Step(Tap(k), sq, optional, START.(s := |held|)) == Verdict(NoMatch, START.(s := |held|))
  {
    RealOne(held, last);
    assert At(held + [last], |held|) == last;
    NothingUnifiable([], Press(k));
  }

  lemma {:induction false} TapFrom(k: Key, held: KeySequence, last: KeyEvent, optional: bool, s: nat)
    requires IsDeviceKey(k) && HeldAndOne(held, last) && s <= |held|
    ensures var sq: KeySequence := held + [last];
      && (forall i :: 0 <= i < |sq| ==> sq[i].key != NONE)
      && Run(Tap(k), sq, optional, START.(s := s))
         == Outcome(if last == Press(k).(value := last.value) && (optional || s == |held|) then Match else NoMatch, [], NO_EVENT)
    decreases |held| - s
  {
    hide Step;
    RealOne(held, last);
    var sq: RealEvents := held + [last];
    if s < |held| && held[s].key != k {
      TapSkips(k, held, last, optional, s);
      if optional {
        TapFrom(k, held, last, optional, s + 1);
      }
    } else if s < |held| {
      TapTakes(k, held, last, optional, s);
      TapTaken(k, held, last, optional, s + 1);
    } else if IsPressOf(last, k) {
      TapTakes(k, held, last, optional, s);
    } else {
      TapLast(k, held, last, optional);
    }
  }

  /** The input `K` while other keys are held, or K itself is: it matches exactly the
      press of K, when nothing is held or what matched before is optional. */
  lemma TapVerdict(k: Key, held: KeySequence, last: KeyEvent, optional: bool)
    requires IsDeviceKey(k) && HeldAndOne(held, last)
    ensures forall i :: 0 <= i < |held + [last]| ==> (held + [last])[i].key != NONE
    ensures Matching(Tap(k), held + [last], optional)
      == Outcome(if IsPressOf(last, k) && (optional || held == []) then Match else NoMatch, [], NO_EVENT)
  {
    hide Step, Run;
    RealOne(held, last);
    TapFrom(k, held, last, optional, 0);
  }

  // ---------------------------------------------------------------------------
  // A held key which the input does not name

  /** Neither the key nor Any, `!` or `?`. */
  predicate DoesNotName(ex: KeySequence, k: Key) {
    forall j :: 0 <= j < |ex| ==> ex[j].key !in {k, ANY} && ex[j].state != NoMightMatch && (ex[j].state == Not ==> ex[j].key == TIMEOUT)
  }

  /** The cursor in the sequence without event `i`. */
  function Back(c: Cursor, i: nat): Cursor { if c.s > i then c.(s := c.s - 1) else c }

  predicate Steady(c: Cursor, k: Key) {
    c.notKeys == [] && !c.isNoMightMatch && forall j :: 0 <= j < |c.async| ==> c.async[j].key !in {k, ANY}
  }

  lemma {:induction false} StillNotPending(async: KeySequence, k: Key, removed: Key)
    requires forall j :: 0 <= j < |async| ==> async[j].key !in {k, ANY}
    ensures forall j :: 0 <= j < |WithoutEventsOf(async, removed)| ==> WithoutEventsOf(async, removed)[j].key !in {k, ANY}
    decreases |async|
  {
    if async != [] {
      StillNotPending(async[1..], k, removed);
    }
  }

  lemma StaysSteadyAsync(optional: bool, c: Cursor, k: Key, se: KeyEvent, ee: KeyEvent)
    requires Steady(c, k)
    ensures var p := StepAsync(optional, c, se, ee); p.Continue? ==> Steady(p.next, k)
  {
    hide FindUnifiable, FindEvent, Unifiable, UnifiableKeys;
    var pending, unified := FindPending(c.async, if se.state == Up then UpAsync else DownAsync, se.key), FindUnifiable(c.async, ee);
    hide FindPending;
    if pending >= 0 {
      assert forall j :: 0 <= j < |c.async| ==> Marked(c.async, pending, se.state)[j].key == c.async[j].key;
    } else if unified >= 0 {
      assert forall j :: 0 <= j < |c.async| - 1 ==> Erase(c.async, unified)[j] == c.async[if j < unified then j else j + 1];
    }
  }

  lemma StaysSteadySurplus(sq: RealEvents, c: Cursor, k: Key, se: KeyEvent, ee: KeyEvent)
    requires c.s <= |sq| && NONE !in c.ignoreUps && se == At(sq, c.s) && Steady(c, k)
    ensures var p := StepSurplus(sq, c, se, ee); p.Continue? ==> Steady(p.next, k)
  {
    hide Unifiable;
  }

  lemma StaysSteady(optional: bool, ex: KeySequence, sq: RealEvents, c: Cursor, k: Key)
    requires c.Within(ex, sq) && c.Running(ex, sq) && DoesNotName(ex, k) && Steady(c, k) && k != NONE
    ensures var p := Step(ex, sq, optional, c); p.Continue? ==> Steady(p.next, k)
  {
    hide Unifiable, WithoutEventsOf, StepAsync, StepSurplus;
    var se, ee := At(sq, c.s), At(ex, c.e);
    StillForbidden(k, ee.key);
    StillNotPending(c.async, k, se.key);
    var d := if ee.state == Down then c.(notKeys := WithoutKey(c.notKeys, ee.key)) else c;
    StaysSteadyAsync(optional, d, k, se, ee);
    StaysSteadySurplus(sq, d, k, se, ee);
  }

  lemma SamePressed(sq: KeySequence, i: nat, s: nat)
    requires i < |sq| && sq[i].state != Down && s <= |sq|
    ensures HasDown(sq, s) <==> HasDown(Erase(sq, i), if s > i then s - 1 else s)
  {
    var t := Erase(sq, i);
    forall j | 0 <= j < s && sq[j].state == Down ensures t[if j > i then j - 1 else j].state == Down {
    }
    forall j | 0 <= j < |t| && t[j].state == Down ensures sq[if j >= i then j + 1 else j].state == Down {
    }
  }

  /** The cursor by so many events earlier. */
  function Earlier(c: Cursor, n: nat): Cursor
    requires n <= c.s
  {
    c.(s := c.s - n)
  }

  lemma SameAsyncEarlier(optional: bool, n: nat, c: Cursor, se: KeyEvent, ee: KeyEvent)
    requires n <= c.s
    ensures match StepAsync(optional, c, se, ee)
      case Done(_) => StepAsync(optional, Earlier(c, n), se, ee).Done?
      case Continue(next) => n <= next.s && StepAsync(optional, Earlier(c, n), se, ee) == Continue(Earlier(next, n))
  {
    hide FindPending, FindUnifiable, FindEvent, Unifiable, UnifiableKeys, Marked, IsDeviceKey, KeyEvent.Same;
    var d := Earlier(c, n);
    assert d.async == c.async && d.e == c.e;
    var pending := FindPending(c.async, if se.state == Up then UpAsync else DownAsync, se.key);
    if pending >= 0 {
      assert StepAsync(optional, d, se, ee) == Continue(d.(async := Marked(c.async, pending, se.state), s := d.s + 1));
    }
  }

  /** The surplus of both sequences is the same. */
  predicate SameSurplus(sq: RealEvents, t: RealEvents, n: nat, c: Cursor) {
    && n <= c.s <= |sq| && c.s - n <= |t| && (c.s < |sq| <==> c.s - n < |t|)
    && (HasDown(sq, c.s) <==> HasDown(t, c.s - n))
  }

  predicate HasDown(sq: KeySequence, s: nat) { exists j :: 0 <= j < s && j < |sq| && sq[j].state == Down }

  lemma SameSurplusEarlier(sq: RealEvents, t: RealEvents, n: nat, c: Cursor, se: KeyEvent, ee: KeyEvent)
    requires SameSurplus(sq, t, n, c) && !c.isNoMightMatch
    requires se == At(sq, c.s) == At(t, c.s - n) && NONE !in c.ignoreUps
    ensures match StepSurplus(sq, c, se, ee)
      case Done(outcome) => StepSurplus(t, Earlier(c, n), se, ee) == Done(outcome)
      case Continue(next) => n <= next.s && StepSurplus(t, Earlier(c, n), se, ee) == Continue(Earlier(next, n))
  {
    hide Unifiable;
    assert HasDown(sq, c.s) <==> HasDown(t, c.s - n);
  }

  lemma SameIndirectEarlier(optional: bool, ex: KeySequence, sq: RealEvents, t: RealEvents, n: nat, c: Cursor, se: KeyEvent, ee: KeyEvent)
    requires SameSurplus(sq, t, n, c) && !c.isNoMightMatch && c.Within(ex, sq) && c.Running(ex, sq)
    requires se == At(sq, c.s) == At(t, c.s - n) && ee == At(ex, c.e)
    ensures match StepIndirect(ex, sq, optional, c, se, ee)
      case Done(outcome) => StepIndirect(ex, t, optional, Earlier(c, n), se, ee) == Done(outcome)
      case Continue(next) => n <= next.s && StepIndirect(ex, t, optional, Earlier(c, n), se, ee) == Continue(Earlier(next, n))
  {
    hide Unifiable, StepSurplus, StepAsync, HasDown;
    SameAsyncEarlier(optional, n, c, se, ee);
    SameSurplusEarlier(sq, t, n, c, se, ee);
  }

  lemma SameEarlier(optional: bool, ex: KeySequence, sq: RealEvents, t: RealEvents, n: nat, c: Cursor)
    requires SameSurplus(sq, t, n, c) && !c.isNoMightMatch && c.Within(ex, sq) && c.Running(ex, sq)
    requires At(sq, c.s) == At(t, c.s - n) && At(ex, c.e).state != NoMightMatch
    ensures match Step(ex, sq, optional, c)
      case Done(outcome) => Step(ex, t, optional, Earlier(c, n)) == Done(outcome)
      case Continue(next) => n <= next.s && Step(ex, t, optional, Earlier(c, n)) == Continue(Earlier(next, n))
  {
    if At(ex, c.e).state == Down {
      SameDownEarlier(optional, ex, sq, t, n, c);
    } else {
      SameOtherEarlier(optional, ex, sq, t, n, c);
    }
  }

  lemma SameDownEarlier(optional: bool, ex: KeySequence, sq: RealEvents, t: RealEvents, n: nat, c: Cursor)
    requires SameSurplus(sq, t, n, c) && !c.isNoMightMatch && c.Within(ex, sq) && c.Running(ex, sq)
    requires At(sq, c.s) == At(t, c.s - n) && At(ex, c.e).state == Down
    ensures match Step(ex, sq, optional, c)
      case Done(outcome) => Step(ex, t, optional, Earlier(c, n)) == Done(outcome)
      case Continue(next) => n <= next.s && Step(ex, t, optional, Earlier(c, n)) == Continue(Earlier(next, n))
  {
    hide Unifiable, WithoutEventsOf, WithoutKey, StepIndirect, HasDown;
    var se, ee := At(sq, c.s), At(ex, c.e);
    SameIndirectEarlier(optional, ex, sq, t, n, c.(notKeys := WithoutKey(c.notKeys, ee.key)), se, ee);
  }

  lemma SameOtherEarlier(optional: bool, ex: KeySequence, sq: RealEvents, t: RealEvents, n: nat, c: Cursor)
    requires SameSurplus(sq, t, n, c) && !c.isNoMightMatch && c.Within(ex, sq) && c.Running(ex, sq)
    requires At(sq, c.s) == At(t, c.s - n) && At(ex, c.e).state !in {Down, NoMightMatch}
    ensures match Step(ex, sq, optional, c)
      case Done(outcome) => Step(ex, t, optional, Earlier(c, n)) == Done(outcome)
      case Continue(next) => n <= next.s && Step(ex, t, optional, Earlier(c, n)) == Continue(Earlier(next, n))
  {
    hide Unifiable, WithoutEventsOf, WithoutKey, StepIndirect, HasDown;
    SameIndirectEarlier(optional, ex, sq, t, n, c, At(sq, c.s), At(ex, c.e));
  }

  lemma SameElsewhere(optional: bool, ex: KeySequence, sq: RealEvents, t: RealEvents, i: nat, c: Cursor)
    requires i < |sq| && sq[i].state != Down && t == Erase(sq, i) && c.s != i
    requires c.Within(ex, sq) && c.Running(ex, sq) && !c.isNoMightMatch
    requires At(ex, c.e).state != NoMightMatch
    ensures Back(c, i).Within(ex, t) && Back(c, i).Running(ex, t)
    ensures match Step(ex, sq, optional, c)
      case Done(outcome) => Step(ex, t, optional, Back(c, i)) == Done(outcome)
      case Continue(next) => Step(ex, t, optional, Back(c, i)) == Continue(Back(next, i))
  {
    hide Step;
    SamePressed(sq, i, c.s);
    SameEarlier(optional, ex, sq, t, if c.s > i then 1 else 0, c);
    StepMoves(optional, ex, sq, c);
  }

  lemma StepMoves(optional: bool, ex: KeySequence, sq: RealEvents, c: Cursor)
    requires c.Within(ex, sq) && c.Running(ex, sq)
    ensures var p := Step(ex, sq, optional, c); p.Continue? ==> c.s <= p.next.s <= c.s + 1
  {
    hide StepIndirect, Unifiable, WithoutEventsOf, WithoutKey;
    var se, ee := At(sq, c.s), At(ex, c.e);
    IndirectKeeps(ex, sq, optional, if ee.state == Down then c.(notKeys := WithoutKey(c.notKeys, ee.key)) else c, se, ee);
  }

  /** The matched press is skipped, once the async events before it are read. */
  lemma SkippedOrAsync(optional: bool, ex: KeySequence, sq: RealEvents, t: RealEvents, i: nat, c: Cursor, k: Key)
    requires i < |sq| && sq[i] == KeyEvent(k, DownMatched, sq[i].value) && t == Erase(sq, i) && c.s == i && k !in {NONE, TIMEOUT, ANY}
    requires c.Within(ex, sq) && DoesNotName(ex, k) && Steady(c, k) && (optional || !IsDeviceKey(k))
    ensures c.Within(ex, t)
    ensures var p := Step(ex, sq, optional, c);
      || p == Continue(c.(s := i + 1))
      || (p.Continue? && p.next.s == i && c.Running(ex, t) && Step(ex, t, optional, c) == p)
  {
    hide FindUnifiable, FindEvent, WithoutEventsOf;
    var se, ee := At(sq, c.s), At(ex, c.e);
    StillForbidden(k, ee.key);
    NotUnnamed(c.async, k, ee);
  }

  lemma {:induction false} NotUnnamed(async: KeySequence, k: Key, ee: KeyEvent)
    requires forall j :: 0 <= j < |async| ==> async[j].key !in {k, ANY}
    requires k != TIMEOUT && k != ANY
    ensures FindPending(async, DownAsync, k) < 0
    ensures ee.key !in {k, ANY} ==> !Unifiable(KeyEvent(k, DownMatched, 0), ee)
    decreases |async|
  {
    if async != [] {
      NotUnnamed(async[1..], k, ee);
    }
  }

  lemma {:induction false} UnnamedRun(optional: bool, ex: KeySequence, sq: RealEvents, t: RealEvents, i: nat, c: Cursor, k: Key)
    requires i < |sq| && sq[i] == KeyEvent(k, DownMatched, sq[i].value) && t == Erase(sq, i) && k !in {NONE, TIMEOUT, ANY}
    requires c.Within(ex, sq) && DoesNotName(ex, k) && Steady(c, k) && (optional || !IsDeviceKey(k))
    ensures Back(c, i).Within(ex, t) && Run(ex, sq, optional, c) == Run(ex, t, optional, Back(c, i))
    decreases c.Left(ex, sq)
  {
    hide Step, DoesNotName, Steady;
    if c.Running(ex, sq) {
      StaysSteady(optional, ex, sq, c, k);
      var p := Step(ex, sq, optional, c);
      if c.s == i {
        SkippedOrAsync(optional, ex, sq, t, i, c, k);
      } else {
        SteadyThere(ex, c, k);
        SameElsewhere(optional, ex, sq, t, i, c);
      }
      if p.Continue? {
        UnnamedRun(optional, ex, sq, t, i, p.next, k);
      }
    }
  }

  lemma SteadyThere(ex: KeySequence, c: Cursor, k: Key)
    requires DoesNotName(ex, k) && Steady(c, k)
    ensures !c.isNoMightMatch && At(ex, c.e).state != NoMightMatch
  {
  }

  /** When what matched before is optional, a held key makes no difference to an input
      that does not name it: neither to the verdict nor to the timeout it waits for. A
      virtual key never does. */
  lemma UnnamedKeyIsIgnored(optional: bool, ex: Expression, sq: RealEvents, i: nat, t: RealEvents)
    requires i < |sq| && sq[i].state == DownMatched && sq[i].key !in {NONE, TIMEOUT, ANY} && t == Erase(sq, i)
    requires DoesNotName(ex, sq[i].key) && (optional || !IsDeviceKey(sq[i].key))
    ensures Matching(ex, sq, optional) == Matching(ex, t, optional)
  {
    UnnamedRun(optional, ex, sq, t, i, START, sq[i].key);
  }

  /** For one that names it a press can count again: with `A >> X` and `A{B} >> Y` the
      press of A matches the first input, and together with B the second one, which B
      alone does not match. */
  lemma PressMatchesTwice(a: Key, b: Key)
    requires IsDeviceKey(a) && IsDeviceKey(b) && a != b
    ensures Matching(Tap(a), [Press(a)], false).result == Match
    ensures Matching(HeldExpression([a, b]), [KeyEvent(a, DownMatched, 0), Press(b)], false).result == Match
    ensures Matching(HeldExpression([a, b]), [Press(b)], true).result == NoMatch
  {
    hide Step, Run, HeldExpression;
    TapVerdict(a, [], Press(a), false);
    assert [] + [Press(a)] == [Press(a)];
    TwoHeld(a, b);
    HeldAgain(a, b);
    OneAlone(a, b);
  }

  lemma TwoHeld(a: Key, b: Key)
    ensures HeldExpression([a, b]) == [Press(a), Press(b), KeyEvent(b, UpAsync, 0), KeyEvent(a, UpAsync, 0)]
  {
    assert Reverse([a, b]) == [b, a];
  }

  lemma HeldAgain(a: Key, b: Key)
    requires IsDeviceKey(a) && IsDeviceKey(b) && a != b
    ensures Run([Press(a), Press(b), KeyEvent(b, UpAsync, 0), KeyEvent(a, UpAsync, 0)],
                [KeyEvent(a, DownMatched, 0), Press(b)], false, START).result == Match
  {
    var ex := [Press(a), Press(b), KeyEvent(b, UpAsync, 0), KeyEvent(a, UpAsync, 0)];
    var sq: RealEvents := [KeyEvent(a, DownMatched, 0), Press(b)];
    var c1 := START.(e := 1, s := 1);
    var c2 := c1.(e := 2, s := 2);
    var c3 := c2.(e := 3, async := c2.async + [ex[2]]);
    var c4 := c3.(e := 4, async := c3.async + [ex[3]]);
    assert Step(ex, sq, false, START) == Continue(c1);
    assert Step(ex, sq, false, c1) == Continue(c2);
    assert Step(ex, sq, false, c2) == Continue(c3);
    assert Step(ex, sq, false, c3) == Continue(c4);
    hide Step;
    assert Run(ex, sq, false, START) == Run(ex, sq, false, c1) == Run(ex, sq, false, c2);
    assert Run(ex, sq, false, c2) == Run(ex, sq, false, c3) == Run(ex, sq, false, c4);
  }

  lemma OneAlone(a: Key, b: Key)
    requires IsDeviceKey(a) && IsDeviceKey(b) && a != b
    ensures Run([Press(a), Press(b), KeyEvent(b, UpAsync, 0), KeyEvent(a, UpAsync, 0)], [Press(b)], true, START).result == NoMatch
  {
    var ex, sq: RealEvents := [Press(a), Press(b), KeyEvent(b, UpAsync, 0), KeyEvent(a, UpAsync, 0)], [Press(b)];
    NotUnifiable(Press(b), Press(a));
    assert Step(ex, sq, true, START) == Verdict(NoMatch, START);
  }

  // ---------------------------------------------------------------------------
  // Any

  /** `Any` matches the press of every key of a keyboard and of nothing else, and reports
      the key. */
  lemma AnyMatchesKeyboard(k: Key, optional: bool)
    requires IsDeviceKey(k)
    ensures Matching(Tap(ANY), [Press(k)], optional)
      == if IsKeyboardKey(k) then Outcome(Match, [k], NO_EVENT) else Outcome(NoMatch, [], NO_EVENT)
  {
    var ex, sq: RealEvents := Tap(ANY), [Press(k)];
    if IsKeyboardKey(k) {
      var c := START.(e := 1, s := 1, anyKeys := [k]);
      var d := c.(e := 2, async := [] + [KeyEvent(ANY, UpAsync, 0)]);
      assert [] + [k] == [k];
      assert Step(ex, sq, optional, START) == Continue(c);
      assert Step(ex, sq, optional, c) == Continue(d);
      hide Step;
      assert Run(ex, sq, optional, START) == Run(ex, sq, optional, c) == Run(ex, sq, optional, d);
    } else {
      NothingUnifiable([], Press(ANY));
      assert Step(ex, sq, optional, START) == Verdict(NoMatch, START);
    }
  }

  /** `Any !Any` demands the release of a key whose press it matched, and no other. */
  lemma ReleaseOfAny(k: Key, j: Key, optional: bool)
    requires IsKeyboardKey(k) && IsDeviceKey(j)
    ensures Matching([Press(ANY), Release(ANY)], [Press(k), Release(j)], optional)
      == Outcome(if j == k then Match else NoMatch, [k], NO_EVENT)
  {
    var ex: Expression, sq: RealEvents := [Press(ANY), Release(ANY)], [Press(k), Release(j)];
    var c := START.(e := 1, s := 1, anyKeys := [k]);
    assert [] + [k] == [k];
    assert Step(ex, sq, optional, START) == Continue(c);
    assert Step(ex, sq, optional, c) == if j == k then Continue(c.(e := 2, s := 2)) else Verdict(NoMatch, c);
    hide Step;
    assert Run(ex, sq, optional, START) == Run(ex, sq, optional, c);
    assert j == k ==> Run(ex, sq, optional, c) == Run(ex, sq, optional, c.(e := 2, s := 2));
  }

  /** A press that matched before is not matched by Any again: it is skipped, even if what
      matched before is not optional. */
  lemma AnySkipsMatched(k: Key, j: Key, optional: bool)
    requires IsKeyboardKey(k) && IsKeyboardKey(j)
    ensures Matching(Tap(ANY), [KeyEvent(j, DownMatched, 0), Press(k)], optional) == Outcome(Match, [k], NO_EVENT)
  {
    var ex, sq: RealEvents := Tap(ANY), [KeyEvent(j, DownMatched, 0), Press(k)];
    var b := START.(s := 1);
    var c := b.(e := 1, s := 2, anyKeys := [k]);
    var d := c.(e := 2, async := [] + [KeyEvent(ANY, UpAsync, 0)]);
    assert [] + [k] == [k];
    assert Step(ex, sq, optional, START) == Continue(b);
    assert Step(ex, sq, optional, b) == Continue(c);
    assert Step(ex, sq, optional, c) == Continue(d);
    hide Step;
    assert Run(ex, sq, optional, START) == Run(ex, sq, optional, b) == Run(ex, sq, optional, c);
    assert Run(ex, sq, optional, c) == Run(ex, sq, optional, d);
  }

  // ---------------------------------------------------------------------------
  // A key of a group that is down already

  /** What `A (A B)` compiles to. */
  function TapAndGroup(a: Key, b: Key): Expression {
    [Press(a), KeyEvent(a, UpAsync, 0), KeyEvent(a, DownAsync, 0), KeyEvent(b, DownAsync, 0),
     Press(a), Press(b), KeyEvent(a, UpAsync, 0), KeyEvent(b, UpAsync, 0)]
  }

  lemma AsyncIsRead(ex: KeySequence, sq: RealEvents, optional: bool, c: Cursor)
    requires c.Within(ex, sq) && c.e < |ex| && ex[c.e].state in {DownAsync, UpAsync} && c.notKeys == []
    ensures Run(ex, sq, optional, c) == Run(ex, sq, optional, c.(e := c.e + 1, async := c.async + [ex[c.e]]))
  {
    hide StepIndirect, Unifiable;
    assert Step(ex, sq, optional, c) == Continue(c.(e := c.e + 1, async := c.async + [ex[c.e]]));
  }

  lemma FirstPressIsRead(ex: KeySequence, sq: RealEvents, optional: bool, k: Key)
    requires IsDeviceKey(k) && ex != [] && sq != [] && ex[0] == Press(k) == sq[0]
    ensures Run(ex, sq, optional, START) == Run(ex, sq, optional, START.(e := 1, s := 1))
  {
    hide StepIndirect;
    assert Step(ex, sq, optional, START) == Continue(START.(e := 1, s := 1));
  }

  lemma GroupPrefix(a: Key, b: Key, optional: bool)
    requires IsDeviceKey(a) && IsDeviceKey(b) && a != b
    ensures var async := [KeyEvent(a, UpAsync, 0), KeyEvent(a, DownAsync, 0), KeyEvent(b, DownAsync, 0)];
      Run(TapAndGroup(a, b), [Press(a), Press(b)], optional, START)
      == Run(TapAndGroup(a, b), [Press(a), Press(b)], optional, START.(e := 4, s := 1, async := async))
  {
    var ex, sq: RealEvents := TapAndGroup(a, b), [Press(a), Press(b)];
    var c1 := START.(e := 1, s := 1);
    var c2 := c1.(e := 2, async := [] + [ex[1]]);
    var c3 := c2.(e := 3, async := c2.async + [ex[2]]);
    hide Step, Run;
    FirstPressIsRead(ex, sq, optional, a);
    AsyncIsRead(ex, sq, optional, c1);
    AsyncIsRead(ex, sq, optional, c2);
    AsyncIsRead(ex, sq, optional, c3);
    assert c3.async + [ex[3]] == [ex[1], ex[2], ex[3]];
  }

  /** The pending events of the group, before and after B is read. */
  lemma GroupPending(a: Key, b: Key, ee: KeyEvent, state: KeyState)
    requires IsDeviceKey(a) && IsDeviceKey(b) && a != b && state in {DownAsync, Down}
    ensures var async := [KeyEvent(a, UpAsync, 0), KeyEvent(a, DownAsync, 0), KeyEvent(b, state, 0)];
      && FindPending(async, DownAsync, b) == (if state == DownAsync then 2 else -1) && FindPending(async, UpAsync, NONE) == -1
      && FindUnifiable(async, Press(a)) == -1 && FindUnifiable(async, Press(b)) == (if state == Down then 2 else -1)
      && FindEvent(async, a, DownAsync) == 1
  {
    var async := [KeyEvent(a, UpAsync, 0), KeyEvent(a, DownAsync, 0), KeyEvent(b, state, 0)];
    var two, one := async[1..], async[2..];
    assert async[1..] == two && two[1..] == one && one[1..] == [];
    assert FindPending(one, DownAsync, b) == (if state == DownAsync then 0 else -1) && FindPending(one, UpAsync, NONE) == -1;
    assert FindUnifiable(one, Press(a)) == -1 && FindUnifiable(one, Press(b)) == (if state == Down then 0 else -1);
    assert FindPending(two, DownAsync, b) == (if state == DownAsync then 1 else -1) && FindPending(two, UpAsync, NONE) == -1;
    assert FindUnifiable(two, Press(a)) == -1 && FindUnifiable(two, Press(b)) == (if state == Down then 1 else -1);
  }

  lemma GroupRest(a: Key, b: Key, optional: bool)
    requires IsDeviceKey(a) && IsDeviceKey(b) && a != b
    ensures var async := [KeyEvent(a, UpAsync, 0), KeyEvent(a, DownAsync, 0), KeyEvent(b, DownAsync, 0)];
      Run(TapAndGroup(a, b), [Press(a), Press(b)], optional, START.(e := 4, s := 1, async := async)).result == Match
  {
    hide FindPending, FindUnifiable, FindEvent;
    var ex, sq: RealEvents := TapAndGroup(a, b), [Press(a), Press(b)];
    var async := [KeyEvent(a, UpAsync, 0), KeyEvent(a, DownAsync, 0), KeyEvent(b, DownAsync, 0)];
    var marked := [KeyEvent(a, UpAsync, 0), KeyEvent(a, DownAsync, 0), Press(b)];
    GroupPending(a, b, Press(a), DownAsync);
    GroupPending(a, b, Press(a), Down);
    var c := START.(e := 4, s := 1, async := async);
    var c5 := c.(s := 2, async := marked);
    assert async[2 := Press(b)] == marked;
    assert Step(ex, sq, optional, c) == Continue(c5);
    hide Step;
    assert Run(ex, sq, optional, c) == Run(ex, sq, optional, c5);
    GroupKeysRead(a, b, optional, c5);
  }

  /** The presses of the group are read from what is pending. */
  lemma GroupKeysRead(a: Key, b: Key, optional: bool, c5: Cursor)
    requires IsDeviceKey(a) && IsDeviceKey(b) && a != b
    requires c5 == START.(e := 4, s := 2, async := [KeyEvent(a, UpAsync, 0), KeyEvent(a, DownAsync, 0), Press(b)])
    ensures Run(TapAndGroup(a, b), [Press(a), Press(b)], optional, c5).result == Match
  {
    hide FindPending, FindUnifiable, FindEvent;
    var ex, sq: RealEvents := TapAndGroup(a, b), [Press(a), Press(b)];
    GroupPending(a, b, Press(a), Down);
    var c6 := c5.(e := 5);
    assert Step(ex, sq, optional, c5) == Continue(c6);
    assert Run(ex, sq, optional, c5) == Run(ex, sq, optional, c6);
    var c7 := c6.(e := 6, async := Erase(c5.async, 2));
    assert Step(ex, sq, optional, c6) == Continue(c7);
    hide Step;
    assert Run(ex, sq, optional, c6) == Run(ex, sq, optional, c7);
    AsyncIsRead(ex, sq, optional, c7);
    AsyncIsRead(ex, sq, optional, c7.(e := 7, async := c7.async + [ex[6]]));
  }

  /** `A (A B)` matches the press of A and then that of B: A need not be released in
      between. */
  lemma GroupKeyMayBeDown(a: Key, b: Key, optional: bool)
    requires IsDeviceKey(a) && IsDeviceKey(b) && a != b
    ensures Matching(TapAndGroup(a, b), [Press(a), Press(b)], optional).result == Match
  {
    hide Step, Run, TapAndGroup;
    GroupPrefix(a, b, optional);
    GroupRest(a, b, optional);
  }
}
