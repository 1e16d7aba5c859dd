/** A held back output can outlive the key that triggers it: `apply_input` of
    `src/runtime/Stage.cpp`, followed through four events. */
module HeldBack {
  import opened Keys
  import opened Matcher
  import opened Outputs
  import opened InputSequence
  import opened Contexts
  import opened Mappings
  import opened StageModel
  import opened HeldKeys
  import MT = MatcherTheorems
  import R = Remapping
  import H = History
  import L = LedgerTheorems

  /** `a b` */
  function Both(a: Key, b: Key): (r: Expression)
    ensures r == [Press(a), KeyEvent(a, UpAsync, 0), Press(b), KeyEvent(b, UpAsync, 0)]
  {
    [Press(a), KeyEvent(a, UpAsync, 0), Press(b), KeyEvent(b, UpAsync, 0)]
  }

  /** `a b >> y` and `a >> a` */
  function Config(a: Key, b: Key, y: Key): seq<Context> {
    [Context([Input(Both(a, b), 0), Input(Tap(a), 1)], [[Press(y)], [Press(a)]], [], false, AllDevices, [], false, false)]
  }

  predicate ThreeKeys(a: Key, b: Key, c: Key, y: Key) {
    IsDeviceKey(a) && IsDeviceKey(b) && IsDeviceKey(c) && IsDeviceKey(y) && a != b && a != c && b != c
  }

  lemma ConfigIsValid(a: Key, b: Key, y: Key)
    requires IsDeviceKey(a) && IsDeviceKey(b) && IsDeviceKey(y)
    ensures ValidConfig(Config(a, b, y)) && R.IsSingle(Config(a, b, y)) && !HasMarkedInput(Config(a, b, y))
  {
    var context := Config(a, b, y)[0];
    R.TapIsNotMarked(a);
    assert context.inputs[0].input[0] == Press(a);
    assert forall i :: 0 <= i < |context.outputs| ==> GoodOutput(context.outputs[i], false);
  }

  // ---------------------------------------------------------------------------
  // Verdicts

  lemma BothIsSuccessive(a: Key, b: Key)
    ensures MT.SuccessiveExpression([a, b]) == Both(a, b) && MT.SuccessiveExpression([a]) == Tap(a)
  {
    var ab, e := MT.SuccessiveExpression([a, b]), MT.SuccessiveExpression([a]);
    hide MT.SuccessiveExpression;
    assert ab[2 * 0] == Press(a) && ab[2 * 0 + 1] == KeyEvent(a, UpAsync, 0) && ab[2 * 1] == Press(b) && ab[2 * 1 + 1] == KeyEvent(b, UpAsync, 0);
    assert e[2 * 0] == Press(a) && e[2 * 0 + 1] == KeyEvent(a, UpAsync, 0);
  }

  lemma {:induction false} WithoutTimeout(ex: KeySequence, sq: RealEvents, optional: bool, c: Cursor)
    requires c.Within(ex, sq) && forall i :: 0 <= i < |ex| ==> ex[i].key != TIMEOUT
    ensures Run(ex, sq, optional, c).timeout == NO_EVENT
    decreases c.Left(ex, sq)
  {
    hide Step;
    if c.Running(ex, sq) {
      DoneWithoutTimeout(ex, sq, optional, c);
      var p := Step(ex, sq, optional, c);
      if p.Continue? {
        WithoutTimeout(ex, sq, optional, p.next);
      }
    }
  }

  lemma DoneWithoutTimeout(ex: KeySequence, sq: RealEvents, optional: bool, c: Cursor)
    requires c.Within(ex, sq) && c.Running(ex, sq) && forall i :: 0 <= i < |ex| ==> ex[i].key != TIMEOUT
    ensures var p := Step(ex, sq, optional, c); p.Done? ==> p.outcome.timeout == NO_EVENT
  {
    hide Unifiable, FindPending, FindUnifiable, FindEvent, WithoutEventsOf, WithoutKey;
  }

  /** The presses of these sequences. */
  lemma Typed(a: Key, c: Key)
    requires IsDeviceKey(a) && IsDeviceKey(c) && a != c
    ensures MT.Typing([Press(a)]) && MT.Downs([Press(a)]) == [a]
    ensures MT.Typing([Press(a), Release(a)]) && MT.Downs([Press(a), Release(a)]) == [a]
    ensures MT.Typing([Press(a), Release(a), Press(c)]) && MT.Downs([Press(a), Release(a), Press(c)]) == [a, c]
  {
    var s1, s2, s3 := [Press(a)], [Press(a), Release(a)], [Press(a), Release(a), Press(c)];
    assert s1[..0] == [] && s2[..1] == s1 && s3[..2] == s2 && s3[..1] == s1;
    assert MT.Downs(s1) == MT.Downs([]) + [a] == [a];
    assert MT.Downs(s2) == MT.Downs(s1) + [] == [a];
    assert MT.Downs(s3) == MT.Downs(s2) + [c] == [a, c];
  }

  lemma Verdicts(a: Key, b: Key, sq: RealEvents, downs: seq<Key>, optional: bool)
    requires IsDeviceKey(a) && IsDeviceKey(b) && a != b && MT.Typing(sq) && MT.Downs(sq) == downs
    ensures Matching(Both(a, b), sq, optional).result == MT.SuccessiveVerdict([a, b], downs)
    ensures Matching(Tap(a), sq, optional).result == MT.SuccessiveVerdict([a], downs)
    ensures Matching(Both(a, b), sq, optional).timeout == NO_EVENT
  {
    hide Matching, MT.SuccessiveExpression, MT.Typing, MT.Downs, Tap, Both, MT.SuccessiveVerdict;
    BothIsSuccessive(a, b);
    assert MT.DeviceKeys([a, b]) && MT.Distinct([a, b]) && MT.DeviceKeys([a]) && MT.Distinct([a]);
    MT.SuccessiveKeysInOrder([a, b], sq, optional);
    MT.SuccessiveKeysInOrder([a], sq, optional);
    BothWithoutTimeout(a, b, sq, optional);
  }

  lemma BothWithoutTimeout(a: Key, b: Key, sq: RealEvents, optional: bool)
    requires IsDeviceKey(a) && IsDeviceKey(b)
    ensures Matching(Both(a, b), sq, optional).timeout == NO_EVENT
  {
    WithoutTimeout(Both(a, b), sq, optional, START);
  }

  // ---------------------------------------------------------------------------
  // Searches

  predicate IsSearch(search: Search, a: Key, b: Key, y: Key) {
    search.contexts == Config(a, b, y) && search.active == [0]
  }

  /** The two mappings in order. */
  lemma Selected(search: Search, a: Key, b: Key, y: Key)
    requires IsDeviceKey(a) && IsDeviceKey(b) && IsDeviceKey(y) && IsSearch(search, a, b, y) && search.Valid()
    ensures var both, one := Matching(Both(a, b), search.sequence, search.matchedAreOptional), Matching(Tap(a), search.sequence, search.matchedAreOptional);
      var s := search.Select();
      && (search.first && both.result == MightMatch ==> s.result == MightMatch && s.timeout == both.timeout)
      && ((both.result == NoMatch || (!search.first && both.result == MightMatch)) && one.result == Match ==>
            s == Selection(MatchResult.Match, Option.Some(Direct(0, 1)), Option.Some(Tap(a)), 0, NO_EVENT))
      && (both.result == NoMatch && one.result == NoMatch ==> s == NOTHING)
  {
    hide Matching, Tap, Both;
    R.TapIsNotMarked(a);
    assert !IsNoMightMatchInput(Both(a, b));
    var inputs := Config(a, b, y)[0].inputs;
    assert inputs[0] == Input(Both(a, b), 0) && inputs[1] == Input(Tap(a), 1) && |inputs| == 2;
    TriedInOrder(search, a, b, y);
    assert Fallthrough(search.contexts, search.active[0]) == 0;
    assert MatchesDevice(search.contexts[0], search.device);
    assert search.From(1) == NOTHING;
  }

  lemma TriedInOrder(search: Search, a: Key, b: Key, y: Key)
    requires IsSearch(search, a, b, y) && search.Valid()
    ensures var inputs := Config(a, b, y)[0].inputs;
      search.InContext(0, 0)
      == if search.Try(0, inputs[0]).Some? then search.Try(0, inputs[0])
         else if search.Try(0, inputs[1]).Some? then search.Try(0, inputs[1]) else None
  {
    hide Search.Try;
    assert search.InContext(0, 2) == None;
    assert search.InContext(0, 1) == if search.Try(0, Config(a, b, y)[0].inputs[1]).Some? then search.Try(0, Config(a, b, y)[0].inputs[1]) else None;
  }

  // ---------------------------------------------------------------------------
  // The states

  const NO_SIDE := Side(Ledger([], [], false), [], None)

  /** The stage with this sequence and output. */
  predicate Is(m: Machine, sequence: KeySequence, mightMatch: bool, down: seq<OutputDown>, output: KeySequence) {
    && m.client == [0] == m.active && m.sequence == sequence && m.mightMatch == mightMatch
    && m.history == [] && m.side == Side(Ledger(down, output, false), [], None)
  }

  lemma IsSound(m: Machine, a: Key, b: Key, y: Key, sequence: KeySequence, mightMatch: bool, down: seq<OutputDown>, output: KeySequence)
    requires IsDeviceKey(a) && IsDeviceKey(b) && IsDeviceKey(y) && Is(m, sequence, mightMatch, down, output) && SeqInv(sequence)
    ensures Sound(Config(a, b, y), m)
  {
    hide SeqInv, ValidConfig;
    ConfigIsValid(a, b, y);
  }

  predicate NoneSuppressed(down: seq<OutputDown>) { forall i :: 0 <= i < |down| ==> !down[i].suppressed }

  /** Nothing is held by the key of a release. */
  predicate Untouched(down: seq<OutputDown>, event: KeyEvent) {
    event.state == Up ==> Kept(down, event.key, -1) == down && Triggered(down, event.key, -1) == []
  }

  lemma NothingUnsuppressed(down: seq<OutputDown>)
    requires NoneSuppressed(down)
    ensures Unsuppressed(down) == down
  {
  }

  /** Up to the search: the event is appended, and a release erases the matched press of
      its key unless the sequence is held back. */
  lemma Taking(m: Machine, a: Key, b: Key, y: Key, sequence: KeySequence, mightMatch: bool, down: seq<OutputDown>, output: KeySequence,
               event: KeyEvent, device: int, elapsed: Value)
    requires IsDeviceKey(a) && IsDeviceKey(b) && IsDeviceKey(y) && Is(m, sequence, mightMatch, down, output) && SeqInv(sequence)
    requires event.IsNonOptional() && IsDeviceKey(event.key) && NoneSuppressed(down)
    requires event.state == Down ==> !IsRepeat(sequence, event.key)
    ensures Sound(Config(a, b, y), m) && IsInputEvent(event)
    ensures var (taken, ignored) := Taken(Config(a, b, y), m, event, device, elapsed);
      && !ignored
      && Is(Searching(Config(a, b, y), taken, event),
            if event.state == Up && !mightMatch then WithoutMatchedPress(sequence + [event], event.key) else sequence + [event],
            mightMatch, down, output)
  {
    hide Sound, ContinueSide, IsRepeat, FindOnRelease, WithContexts, WithoutMatchedPress, Unsuppressed, NoneSuppressed, SeqInv;
    IsSound(m, a, b, y, sequence, mightMatch, down, output);
    ConfigIsValid(a, b, y);
    R.DeviceKeyIsInput(event);
    R.NothingWaits(m.side, event, m.Env());
    var taken := Taken(Config(a, b, y), m, event, device, elapsed).0;
    assert Is(taken, sequence + [event], mightMatch, down, output);
    R.ContextsStay(Config(a, b, y), taken);
    NothingUnsuppressed(down);
  }

  /** The end of an input. */
  lemma Ending(m: Machine, a: Key, b: Key, y: Key, sequence: KeySequence, mightMatch: bool, down: seq<OutputDown>, output: KeySequence, event: KeyEvent)
    requires Sound(Config(a, b, y), m) && R.IsSingle(Config(a, b, y)) && Is(m, sequence, mightMatch, down, output) && Untouched(down, event)
    requires sequence != [] ==> sequence[0].state != UpMatched
    ensures Ended(Config(a, b, y), m, event) == m
  {
    hide Sound, WithContexts, Tidied, Kept, Triggered;
    if event.state == Up {
      assert Releases([]) == [] && output + [] == output;
    }
    R.ContextsStay(Config(a, b, y), m);
    NothingTidied(m, a, b, y, sequence, mightMatch, down, output);
  }

  lemma NothingTidied(m: Machine, a: Key, b: Key, y: Key, sequence: KeySequence, mightMatch: bool, down: seq<OutputDown>, output: KeySequence)
    requires Is(m, sequence, mightMatch, down, output) && (sequence != [] ==> sequence[0].state != UpMatched)
    ensures Tidied(Config(a, b, y), m) == m
  {
    hide Blocking;
  }

  // ---------------------------------------------------------------------------
  // The first two events are held back

  lemma HoldingBack(m: Machine, a: Key, b: Key, y: Key, mightMatch: bool, event: KeyEvent, device: int)
    requires IsDeviceKey(a) && IsDeviceKey(b) && IsDeviceKey(y) && a != b && IsDeviceKey(event.key) && event.IsNonOptional()
    requires Is(m, m.sequence, mightMatch, [], []) && SeqInv(m.sequence) && HasNonOptional(m.sequence)
    requires MT.Typing(m.sequence) && MT.Downs(m.sequence) == [a]
    ensures Sound(Config(a, b, y), m) && IsInputEvent(event)
    ensures Is(Rounds(Config(a, b, y), m, event, device, false), m.sequence, true, [], [])
  {
    hide Sound, Round, MT.Typing, MT.Downs, SeqInv, HasNonOptional, Search.Select, Is;
    var contexts := Config(a, b, y);
    IsSound(m, a, b, y, m.sequence, mightMatch, [], []);
    R.DeviceKeyIsInput(event);
    RoundIsHeldBack(m, a, b, y, mightMatch, event, device);
    RoundKeeps(contexts, m, event, device, false);
    var r := Round(contexts, m, event, device, false);
    SameFields(r.m, m.sequence, mightMatch, [], []);
    RoundKeeps(contexts, r.m, event, device, true);
  }

  lemma MightMatches(m: Machine, a: Key, b: Key, y: Key, device: int, optional: bool)
    requires IsDeviceKey(a) && IsDeviceKey(b) && IsDeviceKey(y) && a != b && Sound(Config(a, b, y), m)
    requires m.active == [0] && MT.Typing(m.sequence) && MT.Downs(m.sequence) == [a]
    ensures var s := SearchOf(Config(a, b, y), m, optional, device).Select(); s.result == MightMatch && s.timeout == NO_EVENT
  {
    hide Sound, MT.Typing, MT.Downs, Matching, Search.Select, Both, Tap;
    var search := SearchOf(Config(a, b, y), m, optional, device);
    Verdicts(a, b, m.sequence, [a], optional);
    assert [a] < [a, b];
    Selected(search, a, b, y);
  }

  lemma RoundIsHeldBack(m: Machine, a: Key, b: Key, y: Key, mightMatch: bool, event: KeyEvent, device: int)
    requires IsDeviceKey(a) && IsDeviceKey(b) && IsDeviceKey(y) && a != b && IsDeviceKey(event.key) && event.IsNonOptional()
    requires Is(m, m.sequence, mightMatch, [], []) && Sound(Config(a, b, y), m) && HasNonOptional(m.sequence)
    requires MT.Typing(m.sequence) && MT.Downs(m.sequence) == [a]
    ensures IsInputEvent(event)
    ensures var r := Round(Config(a, b, y), m, event, device, false);
      && !r.done && r.optional && Is(r.m, m.sequence, mightMatch, [], []) && Sound(Config(a, b, y), r.m)
      && var r2 := Round(Config(a, b, y), r.m, event, device, true);
         r2.done && Is(r2.m, m.sequence, true, [], [])
  {
    hide Sound, Round, MT.Typing, MT.Downs, HasNonOptional, Search.Select, Search.KeysFrom;
    var contexts := Config(a, b, y);
    R.DeviceKeyIsInput(event);
    MightMatches(m, a, b, y, device, false);
    RoundWaits(contexts, m, event, device, false);
    RoundKeeps(contexts, m, event, device, false);
    var r := Round(contexts, m, event, device, false);
    MightMatches(r.m, a, b, y, device, true);
    RoundWaits(contexts, r.m, event, device, true);
  }

  lemma PressSound(a: Key)
    requires IsDeviceKey(a)
    ensures SeqInv([Press(a)]) && HasNonOptional([Press(a)]) && !IsRepeat([], a)
    ensures SeqInv([Press(a), Release(a)]) && HasNonOptional([Press(a), Release(a)])
    ensures RFindKey([Press(a)], a) == 0
  {
    var s := [Press(a), Release(a)];
    assert [Press(a)][0].IsNonOptional() && s[0].IsNonOptional();
  }

  /** The press of a might become `a b`. */
  lemma FirstEvent(m: Machine, a: Key, b: Key, y: Key, device: int, elapsed: Value)
    requires IsDeviceKey(a) && IsDeviceKey(b) && IsDeviceKey(y) && a != b && Is(m, [], false, [], [])
    ensures Sound(Config(a, b, y), m) && IsInputEvent(Press(a))
    ensures Is(AfterInput(Config(a, b, y), m, Press(a), device, elapsed).0, [Press(a)], true, [], [])
  {
    hide Sound, Taken, Searching, Rounds, Ended, Is, SeqInv, HasNonOptional, MT.Typing, MT.Downs, IsRepeat;
    var contexts := Config(a, b, y);
    PressSound(a);
    EmptyIsSound();
    Typed(a, b);
    ConfigIsValid(a, b, y);
    assert Untouched([], Press(a));
    Taking(m, a, b, y, [], false, [], [], Press(a), device, elapsed);
    assert [] + [Press(a)] == [Press(a)];
    var searching := Searching(contexts, Taken(contexts, m, Press(a), device, elapsed).0, Press(a));
    SameFields(searching, [Press(a)], false, [], []);
    HoldingBack(searching, a, b, y, false, Press(a), device);
    RoundsKeep(contexts, searching, Press(a), device, false);
    Ending(Rounds(contexts, searching, Press(a), device, false), a, b, y, [Press(a)], true, [], [], Press(a));
  }

  lemma EmptyIsSound()
    ensures SeqInv([])
  {
  }

  lemma SameFields(m: Machine, sequence: KeySequence, mightMatch: bool, down: seq<OutputDown>, output: KeySequence)
    requires Is(m, sequence, mightMatch, down, output)
    ensures m.sequence == sequence && m.mightMatch == mightMatch && m.active == [0] && m.side.timeout == None
  {
  }

  /** The release of a still might. */
  lemma SecondEvent(m: Machine, a: Key, b: Key, y: Key, device: int, elapsed: Value)
    requires IsDeviceKey(a) && IsDeviceKey(b) && IsDeviceKey(y) && a != b && Is(m, [Press(a)], true, [], [])
    ensures Sound(Config(a, b, y), m) && IsInputEvent(Release(a))
    ensures Is(AfterInput(Config(a, b, y), m, Release(a), device, elapsed).0, [Press(a), Release(a)], true, [], [])
  {
    hide Sound, Taken, Searching, Rounds, Ended, Is, SeqInv, HasNonOptional, MT.Typing, MT.Downs;
    var contexts := Config(a, b, y);
    PressSound(a);
    Typed(a, b);
    ConfigIsValid(a, b, y);
    assert Untouched([], Release(a));
    IsSound(m, a, b, y, [Press(a)], true, [], []);
    Taking(m, a, b, y, [Press(a)], true, [], [], Release(a), device, elapsed);
    assert [Press(a)] + [Release(a)] == [Press(a), Release(a)];
    var searching := Searching(contexts, Taken(contexts, m, Release(a), device, elapsed).0, Release(a));
    SameFields(searching, [Press(a), Release(a)], true, [], []);
    HoldingBack(searching, a, b, y, true, Release(a), device);
    RoundsKeep(contexts, searching, Release(a), device, false);
    Ending(Rounds(contexts, searching, Release(a), device, false), a, b, y, [Press(a), Release(a)], true, [], [], Release(a));
  }

  // ---------------------------------------------------------------------------
  // The third event ends the waiting

  function EntryA(a: Key): OutputDown { OutputDown(a, InputTrigger(Tap(a)), false, false, false, 0) }

  function EntryC(c: Key): OutputDown { OutputDown(c, KeyTrigger(c), false, false, false, -1) }

  function Three(a: Key, c: Key): KeySequence { [Press(a), Release(a), Press(c)] }

  lemma NothingMatches(m: Machine, a: Key, b: Key, y: Key, c: Key, device: int, optional: bool)
    requires ThreeKeys(a, b, c, y) && Sound(Config(a, b, y), m) && m.active == [0]
    requires m.sequence in {Three(a, c), [Press(c)], [Release(c)]}
    ensures SearchOf(Config(a, b, y), m, optional, device).Select() == NOTHING
  {
    hide Sound, MT.Typing, MT.Downs, Matching, Search.Select, Both, Tap;
    var search := SearchOf(Config(a, b, y), m, optional, device);
    if m.sequence == [Release(c)] {
      ReleaseVerdict(a, b, c, optional);
    } else if m.sequence == [Press(c)] {
      Typed(c, a);
      Verdicts(a, b, m.sequence, [c], optional);
    } else {
      Typed(a, c);
      Verdicts(a, b, m.sequence, [a, c], optional);
    }
    Selected(search, a, b, y);
  }

  lemma ReleaseVerdict(a: Key, b: Key, c: Key, optional: bool)
    requires IsDeviceKey(a) && IsDeviceKey(b) && IsDeviceKey(c) && a != c
    ensures Matching(Both(a, b), [Release(c)], optional).result == NoMatch
    ensures Matching(Tap(a), [Release(c)], optional).result == NoMatch
  {
    var sq: RealEvents := [Release(c)];
    assert [] + sq == sq;
    TapVerdict(a, [], Release(c), optional);
    hide Tap;
    assert Step(Both(a, b), sq, optional, START) == Verdict(NoMatch, START);
  }

  /** What was held back is the longest prefix that matches: the second mapping. */
  lemma PrefixMatches(m: Machine, a: Key, b: Key, y: Key, c: Key, device: int)
    requires ThreeKeys(a, b, c, y) && Sound(Config(a, b, y), m) && m.active == [0] && m.sequence == Three(a, c)
    ensures var search := SearchOf(Config(a, b, y), m, true, device);
      && LongestPrefix(search, 3) == 2
      && InPrefix(search, 2).Select() == Selection(MatchResult.Match, Option.Some(Direct(0, 1)), Option.Some(Tap(a)), 0, NO_EVENT)
  {
    hide Sound, MT.Typing, MT.Downs, Matching, Search.Select, Both, Tap;
    var search := SearchOf(Config(a, b, y), m, true, device);
    var prefix := InPrefix(search, 2);
    assert prefix.sequence == [Press(a), Release(a)];
    Typed(a, b);
    Verdicts(a, b, prefix.sequence, [a], true);
    assert [a] < [a, b];
    Selected(prefix, a, b, y);
    assert search.sequence[..2] == [Press(a), Release(a)] && search.sequence[..2][0].IsNonOptional();
  }

  lemma KeptTrigger(a: Key, c: Key)
    requires IsDeviceKey(a) && IsDeviceKey(c) && a != c
    ensures ChooseTrigger(Tap(a), [Press(a)], Press(c), Three(a, c), None) == InputTrigger(Tap(a))
  {
    hide Tap;
    R.TapTrigger(a);
    var s := Three(a, c);
    assert s[1] == Release(a) && s[2].key == c;
    assert RFindKey(s, a) == 1 by { L.RFindUnique(s, a, 1); }
    assert HasEvent(s, a, Up);
    assert !HasOutputOnRelease([Press(a)]);
  }

  lemma Applied(a: Key, env: Environment)
    requires IsDeviceKey(a)
    ensures ValidOutput([Press(a)])
    ensures ApplySide(NO_SIDE, [Press(a)], InputTrigger(Tap(a)), 0, env) == Side(Ledger([EntryA(a)], [Press(a)], false), [], None)
  {
    hide Tap;
    var output := [Press(a)];
    assert output[1..] == [];
    var l := Ledger([], [], false);
    assert Reapply(l, a, 0) == (l, false);
    assert [] + [Press(a)] == [Press(a)] && [] + [EntryA(a)] == [EntryA(a)];
    assert UpdateDown(l, Press(a), InputTrigger(Tap(a)), 0) == Ledger([EntryA(a)], [Press(a)], false);
    hide UpdateDown;
    assert ApplyEvent(l, Press(a), InputTrigger(Tap(a)), 0, env) == UpdateDown(l, Press(a), InputTrigger(Tap(a)), 0);
    var next := OutputState(Ledger([EntryA(a)], [Press(a)], false), []);
    assert Apply(next, [], InputTrigger(Tap(a)), 0, env) == next;
    assert Apply(OutputState(l, []), output, InputTrigger(Tap(a)), 0, env) == Apply(next, [], InputTrigger(Tap(a)), 0, env);
  }

  lemma BothFinished(a: Key, c: Key)
    requires IsDeviceKey(a) && IsDeviceKey(c) && a != c
    ensures Finish(Three(a, c), 0, 2) == [Press(c)]
  {
    var s := Three(a, c);
    assert s[1] == Release(a);
    assert UpFollows(s, 0);
    assert Erase(s, 0) == [Release(a), Press(c)];
    assert Erase([Release(a), Press(c)], 0) == [Press(c)];
    assert Finish([Release(a), Press(c)], 0, 1) == Finish([Press(c)], 0, 0) == [Press(c)];
  }

  lemma PrefixRound(m: Machine, a: Key, b: Key, y: Key, c: Key, device: int)
    requires ThreeKeys(a, b, c, y) && Sound(Config(a, b, y), m) && Is(m, Three(a, c), true, [], []) && HasNonOptional(m.sequence)
    ensures IsInputEvent(Press(c))
    ensures var r := Round(Config(a, b, y), m, Press(c), device, true);
      !r.done && r.optional && Is(r.m, [Press(c)], true, [EntryA(a)], [Press(a)])
  {
    hide Sound, Round, Search.Select, Search.KeysFrom, LongestPrefix, HasNonOptional, ApplySide, ChooseTrigger, Finish, Tap, KeysOfAny;
    var contexts := Config(a, b, y);
    R.DeviceKeyIsInput(Press(c));
    NothingMatches(m, a, b, y, c, device, true);
    PrefixMatches(m, a, b, y, c, device);
    var search := SearchOf(contexts, m, true, device);
    var selection := InPrefix(search, 2).Select();
    var keys := KeysOfAny(InPrefix(search, 2), selection);
    RoundConcludes(contexts, m, Press(c), device, true, 2, selection, keys);
    KeptTrigger(a, c);
    var n := m.(anyKeys := keys);
    Applied(a, n.Env());
    BothFinished(a, c);
    assert contexts[0].outputs[1] == [Press(a)];
  }

  lemma ForwardedPress(a: Key, c: Key)
    requires IsDeviceKey(a) && IsDeviceKey(c) && a != c
    ensures FirstUnsettled([Press(c)], 0) == 0 && Forwarded([Press(c)]) == [KeyEvent(c, DownMatched, 0)]
    ensures !HasNonOptional([KeyEvent(c, DownMatched, 0)])
    ensures ForwardedOutput(Ledger([EntryA(a)], [Press(a)], false), [Press(c)], false)
      == Ledger([EntryA(a), EntryC(c)], [Press(a), Press(c)], false)
  {
    hide Tap;
    var l := Ledger([EntryA(a)], [Press(a)], false);
    assert !UpFollows([Press(c)], 0);
    assert Reapply(l, c, 1) == (l, false) && Reapply(l, c, 0) == (l, false);
    assert l.down[1..] == [];
    assert FindDown(l.down, c) == -1;
    assert [EntryA(a)] + [EntryC(c)] == [EntryA(a), EntryC(c)] && [Press(a)] + [Press(c)] == [Press(a), Press(c)];
  }

  lemma LastRound(m: Machine, a: Key, b: Key, y: Key, c: Key, device: int)
    requires ThreeKeys(a, b, c, y) && Sound(Config(a, b, y), m) && Is(m, [Press(c)], true, [EntryA(a)], [Press(a)]) && HasNonOptional(m.sequence)
    ensures IsInputEvent(Press(c))
    ensures var r := Round(Config(a, b, y), m, Press(c), device, true);
      !r.done && Is(r.m, [KeyEvent(c, DownMatched, 0)], false, [EntryA(a), EntryC(c)], [Press(a), Press(c)])
  {
    hide Sound, Round, Search.Select, Search.KeysFrom, HasNonOptional, Forwarded, FirstUnsettled, ForwardedOutput, Tap, KeysOfPrefixes;
    var contexts := Config(a, b, y);
    R.DeviceKeyIsInput(Press(c));
    NothingMatches(m, a, b, y, c, device, true);
    var search := SearchOf(contexts, m, true, device);
    assert LongestPrefix(search, 1) == 0;
    RoundConcludes(contexts, m, Press(c), device, true, 1, NOTHING, KeysOfPrefixes(search, 1, search.KeysFrom(0, m.anyKeys)));
    ForwardedPress(a, c);
  }

  lemma RetryRound(m: Machine, a: Key, b: Key, y: Key, c: Key, event: KeyEvent, device: int)
    requires ThreeKeys(a, b, c, y) && Sound(Config(a, b, y), m) && m.active == [0] && HasNonOptional(m.sequence)
    requires m.sequence in {Three(a, c), [Press(c)], [Release(c)]} && IsDeviceKey(event.key) && event.IsNonOptional()
    ensures IsInputEvent(event)
    ensures var r := Round(Config(a, b, y), m, event, device, false);
      !r.done && r.optional && r.m == m.(anyKeys := r.m.anyKeys)
  {
    hide Sound, Round, Search.Select, Search.KeysFrom, HasNonOptional;
    R.DeviceKeyIsInput(event);
    NothingMatches(m, a, b, y, c, device, false);
    RoundWaits(Config(a, b, y), m, event, device, false);
  }

  lemma ThreeSound(a: Key, c: Key)
    requires IsDeviceKey(a) && IsDeviceKey(c) && a != c
    ensures SeqInv([Press(a), Release(a)]) && SeqInv(Three(a, c)) && HasNonOptional(Three(a, c)) && HasNonOptional([Press(c)])
    ensures !IsRepeat([Press(a), Release(a)], c) && [Press(a), Release(a)] + [Press(c)] == Three(a, c)
  {
    var s := [Press(a), Release(a)];
    assert s[0].key == a && s[1].key == a;
    assert Three(a, c)[0].IsNonOptional() && [Press(c)][0].IsNonOptional();
    assert RFindKey(s, c) < 0;
  }

  lemma ThirdRounds(m: Machine, a: Key, b: Key, y: Key, c: Key, device: int)
    requires ThreeKeys(a, b, c, y) && Sound(Config(a, b, y), m) && Is(m, Three(a, c), true, [], [])
    ensures IsInputEvent(Press(c))
    ensures Is(Rounds(Config(a, b, y), m, Press(c), device, false),
               [KeyEvent(c, DownMatched, 0)], false, [EntryA(a), EntryC(c)], [Press(a), Press(c)])
  {
    hide Sound, Round, HasNonOptional, Tap;
    var contexts := Config(a, b, y);
    ThreeSound(a, c);
    R.DeviceKeyIsInput(Press(c));
    RetryRound(m, a, b, y, c, Press(c), device);
    RoundKeeps(contexts, m, Press(c), device, false);
    var r := Round(contexts, m, Press(c), device, false);
    PrefixRound(r.m, a, b, y, c, device);
    RoundKeeps(contexts, r.m, Press(c), device, true);
    var r2 := Round(contexts, r.m, Press(c), device, true);
    LastRound(r2.m, a, b, y, c, device);
    RoundKeeps(contexts, r2.m, Press(c), device, true);
    var r3 := Round(contexts, r2.m, Press(c), device, true);
    ForwardedPress(a, c);
    assert Rounds(contexts, r3.m, Press(c), device, r3.optional) == r3.m;
    assert Rounds(contexts, r2.m, Press(c), device, true) == r3.m;
    assert Rounds(contexts, r.m, Press(c), device, true) == r3.m;
  }

  lemma ThirdEvent(m: Machine, a: Key, b: Key, y: Key, c: Key, device: int, elapsed: Value)
    requires ThreeKeys(a, b, c, y) && Is(m, [Press(a), Release(a)], true, [], [])
    ensures Sound(Config(a, b, y), m) && IsInputEvent(Press(c))
    ensures Is(AfterInput(Config(a, b, y), m, Press(c), device, elapsed).0,
               [KeyEvent(c, DownMatched, 0)], false, [EntryA(a), EntryC(c)], [Press(a), Press(c)])
  {
    hide Sound, Taken, Searching, Rounds, Ended, Is, SeqInv, HasNonOptional, Tap;
    var contexts := Config(a, b, y);
    ThreeSound(a, c);
    ConfigIsValid(a, b, y);
    Taking(m, a, b, y, [Press(a), Release(a)], true, [], [], Press(c), device, elapsed);
    var searching := Searching(contexts, Taken(contexts, m, Press(c), device, elapsed).0, Press(c));
    ThirdRounds(searching, a, b, y, c, device);
    RoundsKeep(contexts, searching, Press(c), device, false);
    Ending(Rounds(contexts, searching, Press(c), device, false), a, b, y, [KeyEvent(c, DownMatched, 0)], false,
           [EntryA(a), EntryC(c)], [Press(a), Press(c)], Press(c));
  }

  // ---------------------------------------------------------------------------
  // The fourth event leaves no key down, and the output of a

  lemma ForwardedRelease(a: Key, c: Key)
    requires IsDeviceKey(a) && IsDeviceKey(c) && a != c
    ensures FirstUnsettled([Release(c)], 0) == 0 && Forwarded([Release(c)]) == [] && HasNonOptional([Release(c)]) && !HasNonOptional([])
    ensures ForwardedOutput(Ledger([EntryA(a), EntryC(c)], [Press(a), Press(c)], false), [Release(c)], false)
      == Ledger([EntryA(a)], [Press(a), Press(c), Release(c)], false)
    ensures Untouched([EntryA(a)], Release(c))
  {
    hide Tap;
    R.TapTrigger(a);
    var down := [EntryA(a), EntryC(c)];
    assert [Release(c)][0].IsNonOptional();
    assert Erase([Release(c)], 0) == [];
    assert down[1..] == [EntryC(c)] && [EntryC(c)][1..] == [] && [EntryA(a)][1..] == [];
    assert Kept([EntryC(c)], c, -1) == [] && Triggered([EntryC(c)], c, -1) == [EntryC(c)];
    assert Kept(down, c, -1) == [EntryA(a)] + [] == [EntryA(a)] && Triggered(down, c, -1) == [] + [EntryC(c)] == [EntryC(c)];
    assert Kept([EntryA(a)], c, -1) == [EntryA(a)] + [] && Triggered([EntryA(a)], c, -1) == [] + [];
    assert Releases([EntryC(c)]) == [] + [Release(c)] == [Release(c)];
    assert [Press(a), Press(c)] + [Release(c)] == [Press(a), Press(c), Release(c)];
  }

  lemma ReleaseRound(m: Machine, a: Key, b: Key, y: Key, c: Key, device: int)
    requires ThreeKeys(a, b, c, y) && Sound(Config(a, b, y), m) && HasNonOptional(m.sequence)
    requires Is(m, [Release(c)], false, [EntryA(a), EntryC(c)], [Press(a), Press(c)])
    ensures IsInputEvent(Release(c))
    ensures var r := Round(Config(a, b, y), m, Release(c), device, true);
      !r.done && Is(r.m, [], false, [EntryA(a)], [Press(a), Press(c), Release(c)])
  {
    hide Sound, Round, Search.Select, Search.KeysFrom, HasNonOptional, Forwarded, FirstUnsettled, ForwardedOutput, Tap;
    R.DeviceKeyIsInput(Release(c));
    NothingMatches(m, a, b, y, c, device, true);
    RoundConcludes(Config(a, b, y), m, Release(c), device, true, 1, NOTHING, SearchOf(Config(a, b, y), m, true, device).KeysFrom(0, m.anyKeys));
    ForwardedRelease(a, c);
  }

  lemma FourthRounds(m: Machine, a: Key, b: Key, y: Key, c: Key, device: int)
    requires ThreeKeys(a, b, c, y) && Sound(Config(a, b, y), m)
    requires Is(m, [Release(c)], false, [EntryA(a), EntryC(c)], [Press(a), Press(c)])
    ensures IsInputEvent(Release(c))
    ensures Is(Rounds(Config(a, b, y), m, Release(c), device, false), [], false, [EntryA(a)], [Press(a), Press(c), Release(c)])
  {
    hide Sound, Round, HasNonOptional, Tap;
    var contexts := Config(a, b, y);
    ForwardedRelease(a, c);
    R.DeviceKeyIsInput(Release(c));
    RetryRound(m, a, b, y, c, Release(c), device);
    RoundKeeps(contexts, m, Release(c), device, false);
    var r := Round(contexts, m, Release(c), device, false);
    ReleaseRound(r.m, a, b, y, c, device);
    RoundKeeps(contexts, r.m, Release(c), device, true);
    var r2 := Round(contexts, r.m, Release(c), device, true);
    assert Rounds(contexts, r2.m, Release(c), device, r2.optional) == r2.m;
  }

  lemma HeldSound(c: Key)
    requires IsDeviceKey(c)
    ensures SeqInv([KeyEvent(c, DownMatched, 0)])
    ensures WithoutMatchedPress([KeyEvent(c, DownMatched, 0)] + [Release(c)], c) == [Release(c)]
  {
    var s := [KeyEvent(c, DownMatched, 0)] + [Release(c)];
    assert FindKey(s, c) == 0 && Erase(s, 0) == [Release(c)];
  }

  lemma FourthEvent(m: Machine, a: Key, b: Key, y: Key, c: Key, device: int, elapsed: Value)
    requires ThreeKeys(a, b, c, y) && Is(m, [KeyEvent(c, DownMatched, 0)], false, [EntryA(a), EntryC(c)], [Press(a), Press(c)])
    ensures Sound(Config(a, b, y), m) && IsInputEvent(Release(c))
    ensures Is(AfterInput(Config(a, b, y), m, Release(c), device, elapsed).0, [], false, [EntryA(a)], [Press(a), Press(c), Release(c)])
  {
    hide Sound, Taken, Searching, Rounds, Ended, Is, SeqInv, HasNonOptional, Tap, WithoutMatchedPress;
    var contexts := Config(a, b, y);
    HeldSound(c);
    ConfigIsValid(a, b, y);
    ForwardedRelease(a, c);
    Taking(m, a, b, y, [KeyEvent(c, DownMatched, 0)], false, [EntryA(a), EntryC(c)], [Press(a), Press(c)], Release(c), device, elapsed);
    var searching := Searching(contexts, Taken(contexts, m, Release(c), device, elapsed).0, Release(c));
    FourthRounds(searching, a, b, y, c, device);
    RoundsKeep(contexts, searching, Release(c), device, false);
    Ending(Rounds(contexts, searching, Release(c), device, false), a, b, y, [], false, [EntryA(a)], [Press(a), Press(c), Release(c)], Release(c));
  }

  // ---------------------------------------------------------------------------
  // The whole run

  /** With `a b >> y` and `a >> a`, after a was tapped and then c, no key is down any
      more, but a is output and stays so: nothing in the sequence will release it. The
      output of a was held back until c came, and was still held by a, whose release the
      match took. */
  lemma HeldBackOutputSticks(m: Machine, a: Key, b: Key, y: Key, c: Key, device: int, elapsed: Value)
    requires ThreeKeys(a, b, c, y) && Is(m, [], false, [], [])
    ensures var contexts, events := Config(a, b, y), [Press(a), Release(a), Press(c), Release(c)];
      && Sound(contexts, m) && (forall i :: 0 <= i < |events| ==> IsInputEvent(events[i]))
      && var last := AfterInputs(contexts, m, events, device, elapsed);
        && last.sequence == [] && last.side.ledger.buffer == [Press(a), Press(c), Release(c)]
        && last.side.ledger.down == [OutputDown(a, InputTrigger(Tap(a)), false, false, false, 0)]
  {
    hide Sound, AfterInput, Is, Tap;
    var contexts := Config(a, b, y);
    FirstEvent(m, a, b, y, device, elapsed);
    var m1 := AfterInput(contexts, m, Press(a), device, elapsed).0;
    SecondEvent(m1, a, b, y, device, elapsed);
    var m2 := AfterInput(contexts, m1, Release(a), device, elapsed).0;
    ThirdEvent(m2, a, b, y, c, device, elapsed);
    var m3 := AfterInput(contexts, m2, Press(c), device, elapsed).0;
    FourthEvent(m3, a, b, y, c, device, elapsed);
    var m4 := AfterInput(contexts, m3, Release(c), device, elapsed).0;
    var e4, e3, e2 := [Release(c)], [Press(c), Release(c)], [Release(a), Press(c), Release(c)];
    assert e4[1..] == [] && e3[1..] == e4 && e2[1..] == e3 && [Press(a), Release(a), Press(c), Release(c)][1..] == e2;
    assert AfterInputs(contexts, m3, e4, device, elapsed) == AfterInputs(contexts, m4, [], device, elapsed) == m4;
    assert AfterInputs(contexts, m2, e3, device, elapsed) == m4;
    assert AfterInputs(contexts, m1, e2, device, elapsed) == m4;
    Fields(m4, [], false, [EntryA(a)], [Press(a), Press(c), Release(c)]);
  }

  lemma Fields(m: Machine, sequence: KeySequence, mightMatch: bool, down: seq<OutputDown>, output: KeySequence)
    requires Is(m, sequence, mightMatch, down, output)
    ensures m.sequence == sequence && m.side.ledger.buffer == output && m.side.ledger.down == down
  {
  }

  // ---------------------------------------------------------------------------
  // What was held back is replaced

  function EntryY(a: Key, b: Key, y: Key): OutputDown { OutputDown(y, InputTrigger(Both(a, b)), false, false, false, 0) }

  lemma BothTyped(a: Key, b: Key)
    requires IsDeviceKey(a) && IsDeviceKey(b) && a != b
    ensures MT.Typing([Press(a), Press(b)]) && MT.Downs([Press(a), Press(b)]) == [a, b]
    ensures SeqInv([Press(a)]) && HasNonOptional([Press(a), Press(b)]) && !IsRepeat([Press(a)], b)
    ensures [Press(a)] + [Press(b)] == [Press(a), Press(b)]
  {
    var s1, s2 := [Press(a)], [Press(a), Press(b)];
    assert s1[..0] == [] && s2[..1] == s1;
    assert MT.Downs(s1) == MT.Downs([]) + [a] == [a];
    assert MT.Downs(s2) == MT.Downs(s1) + [b] == [a, b];
    assert s2[0].IsNonOptional();
    assert RFindKey(s1, b) < 0;
  }

  lemma BothTrigger(a: Key, b: Key, y: Key)
    requires IsDeviceKey(a) && IsDeviceKey(b) && a != b
    ensures ChooseTrigger(Both(a, b), [Press(y)], Press(b), [Press(a), Press(b)], None) == InputTrigger(Both(a, b))
  {
    var both := Both(a, b);
    assert LastNonOptional(both[..3]) == 2 && both[..3][2] == Press(b);
    assert LastNonOptional(both) == LastNonOptional(both[..3]);
    assert TriggerEvent(InputTrigger(both)) == Press(b);
    hide Both;
    assert RFindKey([Press(a), Press(b)], b) == 1;
    assert !HasOutputOnRelease([Press(y)]);
  }

  lemma BothApplied(a: Key, b: Key, y: Key, env: Environment)
    requires IsDeviceKey(y)
    ensures ValidOutput([Press(y)])
    ensures ApplySide(NO_SIDE, [Press(y)], InputTrigger(Both(a, b)), 0, env) == Side(Ledger([EntryY(a, b, y)], [Press(y)], false), [], None)
  {
    hide Both;
    var output, trigger := [Press(y)], InputTrigger(Both(a, b));
    assert output[1..] == [];
    var l := Ledger([], [], false);
    assert Reapply(l, y, 0) == (l, false);
    assert [] + [Press(y)] == [Press(y)] && [] + [EntryY(a, b, y)] == [EntryY(a, b, y)];
    assert UpdateDown(l, Press(y), trigger, 0) == Ledger([EntryY(a, b, y)], [Press(y)], false);
    hide UpdateDown;
    assert ApplyEvent(l, Press(y), trigger, 0, env) == UpdateDown(l, Press(y), trigger, 0);
    var next := OutputState(Ledger([EntryY(a, b, y)], [Press(y)], false), []);
    assert Apply(next, [], trigger, 0, env) == next;
    assert Apply(OutputState(l, []), output, trigger, 0, env) == Apply(next, [], trigger, 0, env);
  }

  lemma BothMatched(a: Key, b: Key)
    requires IsDeviceKey(a) && IsDeviceKey(b) && a != b
    ensures Finish([Press(a), Press(b)], 0, 2) == [KeyEvent(a, DownMatched, 0), KeyEvent(b, DownMatched, 0)]
    ensures !HasNonOptional([KeyEvent(a, DownMatched, 0), KeyEvent(b, DownMatched, 0)])
  {
    var s, half := [Press(a), Press(b)], [KeyEvent(a, DownMatched, 0), Press(b)];
    assert !UpFollows(s, 0) && !UpFollows(half, 1);
    assert s[0 := KeyEvent(a, DownMatched, 0)] == half;
    assert half[1 := KeyEvent(b, DownMatched, 0)] == [KeyEvent(a, DownMatched, 0), KeyEvent(b, DownMatched, 0)];
    assert Finish(half, 1, 2) == Finish([KeyEvent(a, DownMatched, 0), KeyEvent(b, DownMatched, 0)], 2, 2);
  }

  lemma BothSelected(m: Machine, a: Key, b: Key, y: Key, device: int)
    requires IsDeviceKey(a) && IsDeviceKey(b) && IsDeviceKey(y) && a != b && Sound(Config(a, b, y), m) && m.active == [0]
    requires m.sequence == [Press(a), Press(b)]
    ensures SearchOf(Config(a, b, y), m, false, device).Select()
      == Selection(MatchResult.Match, Option.Some(Direct(0, 0)), Option.Some(Both(a, b)), 0, NO_EVENT)
  {
    hide Sound, MT.Typing, MT.Downs, Matching, Search.Select, Both, Tap;
    var search := SearchOf(Config(a, b, y), m, false, device);
    BothTyped(a, b);
    Verdicts(a, b, m.sequence, [a, b], false);
    FirstSelected(search, a, b, y);
  }

  lemma FirstSelected(search: Search, a: Key, b: Key, y: Key)
    requires IsDeviceKey(a) && IsDeviceKey(b) && IsDeviceKey(y) && IsSearch(search, a, b, y) && search.Valid()
    requires Matching(Both(a, b), search.sequence, search.matchedAreOptional).result == Match
    ensures search.Select() == Selection(MatchResult.Match, Option.Some(Direct(0, 0)), Option.Some(Both(a, b)), 0, NO_EVENT)
  {
    hide Matching, Tap;
    assert !IsNoMightMatchInput(Both(a, b));
    hide Both;
    TriedInOrder(search, a, b, y);
    assert Fallthrough(search.contexts, search.active[0]) == 0;
    assert MatchesDevice(search.contexts[0], search.device);
  }

  lemma BothRound(m: Machine, a: Key, b: Key, y: Key, device: int)
    requires IsDeviceKey(a) && IsDeviceKey(b) && IsDeviceKey(y) && a != b && Sound(Config(a, b, y), m)
    requires Is(m, [Press(a), Press(b)], true, [], []) && HasNonOptional(m.sequence)
    ensures IsInputEvent(Press(b))
    ensures var r := Round(Config(a, b, y), m, Press(b), device, false);
      !r.done && Is(r.m, [KeyEvent(a, DownMatched, 0), KeyEvent(b, DownMatched, 0)], false, [EntryY(a, b, y)], [Press(y)])
  {
    hide Sound, Round, Search.Select, Search.KeysFrom, HasNonOptional, ApplySide, ChooseTrigger, Finish, Tap, Both, KeysOfAny;
    var contexts := Config(a, b, y);
    R.DeviceKeyIsInput(Press(b));
    BothSelected(m, a, b, y, device);
    var search := SearchOf(contexts, m, false, device);
    var keys := KeysOfAny(search, search.Select());
    RoundConcludes(contexts, m, Press(b), device, false, 2, search.Select(), keys);
    BothTrigger(a, b, y);
    var n := m.(anyKeys := keys);
    BothApplied(a, b, y, n.Env());
    BothMatched(a, b);
    assert contexts[0].outputs[0] == [Press(y)];
  }

  /** `a b >> y`: while a is held back nothing is output; when b completes the input, y is
      output and nothing else, and nothing is held back any more. */
  lemma HeldBackIsReplaced(m: Machine, a: Key, b: Key, y: Key, device: int, elapsed: Value, elapsed2: Value)
    requires IsDeviceKey(a) && IsDeviceKey(b) && IsDeviceKey(y) && a != b && Is(m, [], false, [], [])
    ensures Sound(Config(a, b, y), m) && IsInputEvent(Press(a)) && IsInputEvent(Press(b))
    ensures var first := AfterInput(Config(a, b, y), m, Press(a), device, elapsed).0;
      && Is(first, [Press(a)], true, [], [])
      && Is(AfterInput(Config(a, b, y), first, Press(b), device, elapsed2).0,
            [KeyEvent(a, DownMatched, 0), KeyEvent(b, DownMatched, 0)], false, [EntryY(a, b, y)], [Press(y)])
  {
    hide Sound, Taken, Searching, Rounds, Ended, Is, SeqInv, HasNonOptional, Tap, Both, IsRepeat, MT.Typing, MT.Downs;
    var contexts := Config(a, b, y);
    FirstEvent(m, a, b, y, device, elapsed);
    var first := AfterInput(contexts, m, Press(a), device, elapsed).0;
    BothTyped(a, b);
    ConfigIsValid(a, b, y);
    R.DeviceKeyIsInput(Press(b));
    Taking(first, a, b, y, [Press(a)], true, [], [], Press(b), device, elapsed2);
    var searching := Searching(contexts, Taken(contexts, first, Press(b), device, elapsed2).0, Press(b));
    BothRounds(searching, a, b, y, device);
    RoundsKeep(contexts, searching, Press(b), device, false);
    Ending(Rounds(contexts, searching, Press(b), device, false), a, b, y,
           [KeyEvent(a, DownMatched, 0), KeyEvent(b, DownMatched, 0)], false, [EntryY(a, b, y)], [Press(y)], Press(b));
  }

  lemma BothRounds(m: Machine, a: Key, b: Key, y: Key, device: int)
    requires IsDeviceKey(a) && IsDeviceKey(b) && IsDeviceKey(y) && a != b && Sound(Config(a, b, y), m)
    requires Is(m, [Press(a), Press(b)], true, [], [])
    ensures IsInputEvent(Press(b))
    ensures Is(Rounds(Config(a, b, y), m, Press(b), device, false),
               [KeyEvent(a, DownMatched, 0), KeyEvent(b, DownMatched, 0)], false, [EntryY(a, b, y)], [Press(y)])
  {
    hide Sound, Round, HasNonOptional, Tap, Both, MT.Typing, MT.Downs;
    BothTyped(a, b);
    R.DeviceKeyIsInput(Press(b));
    BothRound(m, a, b, y, device);
    RoundKeeps(Config(a, b, y), m, Press(b), device, false);
    BothMatched(a, b);
    var r := Round(Config(a, b, y), m, Press(b), device, false);
    assert Rounds(Config(a, b, y), r.m, Press(b), device, r.optional) == r.m;
  }
}
