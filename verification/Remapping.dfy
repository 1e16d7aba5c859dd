/** A stage whose mappings give keys to keys, `K1 >> X1`, `K2 >> X2`, ...: whatever is
    typed, the output is what was typed with the keys replaced. This follows an event
    through all of `apply_input` of `src/runtime/Stage.cpp`. */
module Remapping {
  import opened Keys
  import opened Matcher
  import opened Outputs
  import opened InputSequence
  import opened Contexts
  import opened Mappings
  import opened StageModel
  import opened HeldKeys
  import MT = MatcherTheorems
  import L = LedgerTheorems
  import H = History

  /** `from >> to` */
  datatype Remap = Remap(from: Key, to: Key)

  predicate ValidRemaps(maps: seq<Remap>) {
    && (forall i :: 0 <= i < |maps| ==> IsDeviceKey(maps[i].from) && IsDeviceKey(maps[i].to))
    && (forall i, j :: 0 <= i < j < |maps| ==> maps[i].from != maps[j].from)
  }

  function InputsOf(maps: seq<Remap>): (r: seq<Input>)
    ensures |r| == |maps| && forall i :: 0 <= i < |r| ==> r[i] == Input(Tap(maps[i].from), i)
  {
    seq(|maps|, i requires 0 <= i < |maps| => Input(Tap(maps[i].from), i))
  }

  function OutputsOf(maps: seq<Remap>): (r: seq<KeySequence>)
    ensures |r| == |maps| && forall i :: 0 <= i < |r| ==> r[i] == [Press(maps[i].to)]
  {
    seq(|maps|, i requires 0 <= i < |maps| => [Press(maps[i].to)])
  }

  function ContextOf(maps: seq<Remap>): Context {
    Context(InputsOf(maps), OutputsOf(maps), [], false, AllDevices, [], false, false)
  }

  function Config(maps: seq<Remap>): seq<Context> { [ContextOf(maps)] }

  /** The mapping of a key, or -1. */
  function FindMap(maps: seq<Remap>, k: Key): (r: int)
    ensures -1 <= r < |maps|
    ensures r >= 0 ==> maps[r].from == k && forall i :: 0 <= i < r ==> maps[i].from != k
    ensures r < 0 ==> forall i :: 0 <= i < |maps| ==> maps[i].from != k
  {
    if maps == [] then -1
    else if maps[0].from == k then 0
    else
      var r := FindMap(maps[1..], k);
      if r < 0 then -1 else r + 1
  }

  /** What a key is replaced by. */
  function Target(maps: seq<Remap>, k: Key): Key {
    var i := FindMap(maps, k);
    if i >= 0 then maps[i].to else k
  }

  function EntryOf(maps: seq<Remap>, k: Key): OutputDown {
    if FindMap(maps, k) >= 0 then OutputDown(Target(maps, k), InputTrigger(Tap(k)), false, false, false, 0)
    else OutputDown(k, KeyTrigger(k), false, false, false, -1)
  }

  function EntriesOf(maps: seq<Remap>, held: seq<Key>): (r: seq<OutputDown>)
    ensures |r| == |held| && forall i :: 0 <= i < |r| ==> r[i] == EntryOf(maps, held[i])
  {
    seq(|held|, i requires 0 <= i < |held| => EntryOf(maps, held[i]))
  }

  /** Keys that are held at once: different ones, with different outputs. */
  predicate Holdable(maps: seq<Remap>, held: seq<Key>) {
    && (forall i :: 0 <= i < |held| ==> IsDeviceKey(held[i]))
    && (forall i, j :: 0 <= i < j < |held| ==> held[i] != held[j] && Target(maps, held[i]) != Target(maps, held[j]))
  }

  function SideOf(maps: seq<Remap>, held: seq<Key>, output: KeySequence): Side {
    Side(Ledger(EntriesOf(maps, held), output, false), [], None)
  }

  /** The stage between two inputs: the keys that are held, those whose outputs are
      down, and what is not handed out yet. */
  predicate IsResting(maps: seq<Remap>, m: Machine, held: seq<Key>, down: seq<Key>, output: KeySequence) {
    && m.client == [0] && m.active == [0]
    && m.sequence == Events(held, DownMatched) && !m.mightMatch
    && m.history == [] && m.side == SideOf(maps, down, output)
  }

  /** The stage while these keys are held. */
  predicate IsHolding(maps: seq<Remap>, m: Machine, held: seq<Key>) { IsResting(maps, m, held, held, []) }

  predicate DistinctDevices(held: seq<Key>) {
    && (forall i :: 0 <= i < |held| ==> IsDeviceKey(held[i]))
    && (forall i, j :: 0 <= i < j < |held| ==> held[i] != held[j])
  }

  // ---------------------------------------------------------------------------
  // The configuration

  lemma ConfigIsValid(maps: seq<Remap>)
    requires ValidRemaps(maps)
    ensures ValidConfig(Config(maps)) && !HasMarkedInput(Config(maps))
  {
    hide Tap;
    forall i | 0 <= i < |maps| ensures GoodOutput([Press(maps[i].to)], false) && !IsNoMightMatchInput(InputsOf(maps)[i].input) {
      TapIsNotMarked(maps[i].from);
    }
  }

  lemma TapIsNotMarked(k: Key)
    ensures !IsNoMightMatchInput(Tap(k)) && Tap(k)[0].key == k
  {
  }

  lemma SequenceIsSound(held: seq<Key>, more: KeySequence)
    requires forall i :: 0 <= i < |held| ==> IsDeviceKey(held[i])
    requires forall i, j :: 0 <= i < j < |held| ==> held[i] != held[j]
    requires |more| <= 1 && forall i :: 0 <= i < |more| ==> more[i].IsNonOptional() && IsDeviceKey(more[i].key)
    requires forall i, j :: 0 <= i < |held| && 0 <= j < |more| ==> held[i] != more[j].key
    ensures SeqInv(Events(held, DownMatched) + more)
  {
  }

  lemma RestingIsSound(maps: seq<Remap>, m: Machine, held: seq<Key>, down: seq<Key>, output: KeySequence)
    requires ValidRemaps(maps) && DistinctDevices(held) && IsResting(maps, m, held, down, output)
    ensures Sound(Config(maps), m)
  {
    hide SeqInv, ValidConfig, Target;
    ConfigIsValid(maps);
    SequenceIsSound(held, []);
    assert m.sequence + [] == m.sequence;
  }

  /** A single context without filters. */
  predicate IsSingle(contexts: seq<Context>) {
    && |contexts| == 1 && !contexts[0].hasDeviceFilter && contexts[0].devices == AllDevices
    && contexts[0].modifierFilter == [] && !contexts[0].invertModifierFilter && !contexts[0].fallsThrough
  }

  lemma ConfigIsSingle(maps: seq<Remap>)
    ensures IsSingle(Config(maps))
  {
  }

  /** The contexts do not change. */
  lemma ContextsStay(contexts: seq<Context>, m: Machine)
    requires IsSingle(contexts) && Sound(contexts, m) && m.client == [0] == m.active
    ensures WithContexts(contexts, m) == m
  {
    hide SeqInv, ValidConfig, GoodOnRelease, H.HistoryInv, NotedAll, Notifications;
    ConfigHasChains(contexts);
    OnlyContext(contexts, m.sequence);
    NothingNotified(contexts, m);
  }

  lemma OnlyContext(contexts: seq<Context>, s: KeySequence)
    requires IsSingle(contexts) && ChainsEnd(contexts)
    ensures Activate(contexts, [0], s, []) == [0]
  {
    assert [0][1..] == [] && [] + [0] == [0];
    assert MatchesModifiers(s, contexts[0].modifierFilter);
    assert Fallthrough(contexts, 0) == 0;
  }

  lemma NothingNotified(contexts: seq<Context>, m: Machine)
    requires ValidConfig(contexts) && ValidIndices(contexts, [0]) && GoodOnRelease(m.side.onRelease, false) && ChainsEnd(contexts)
    ensures Below([0]) && Notifications([0], [0]) == [] && NotedAll(contexts, [0], m.side, [], m.Env()) == m.side
  {
    hide ValidConfig, GoodOnRelease;
    assert Toggled([0], [0], 1, 1, false) == [] && Toggled([0], [0], 1, 1, true) == [];
    assert Toggled([0], [0], 0, 0, false) == [] && Toggled([0], [0], 0, 0, true) == [];
  }

  // ---------------------------------------------------------------------------
  // The search

  /** A search of this stage in held keys and one more event. */
  predicate IsSearch(maps: seq<Remap>, search: Search, held: seq<Key>, last: KeyEvent) {
    && search.contexts == Config(maps) && search.active == [0] && search.first
    && search.sequence == Events(held, DownMatched) + [last]
    && HeldAndOne(Events(held, DownMatched), last)
  }

  /** The mapping which the event selects: that of the pressed key, once matched
      events are optional. */
  function Selected(maps: seq<Remap>, held: seq<Key>, last: KeyEvent, optional: bool): (r: int)
    ensures -1 <= r < |maps|
  {
    if last.IsPress() && (optional || held == []) then FindMap(maps, last.key) else -1
  }

  function SelectionOf(maps: seq<Remap>, i: nat): Selection
    requires i < |maps|
  {
    Selection(MatchResult.Match, Option.Some(Direct(0, i)), Option.Some(Tap(maps[i].from)), 0, NO_EVENT)
  }

  lemma TriedInput(maps: seq<Remap>, search: Search, held: seq<Key>, last: KeyEvent, i: nat)
    requires ValidRemaps(maps) && IsSearch(maps, search, held, last) && search.Valid() && i < |maps|
    ensures search.Try(0, InputsOf(maps)[i])
      == if IsPressOf(last, maps[i].from) && (search.matchedAreOptional || held == []) then Option.Some(SelectionOf(maps, i)) else None
  {
    hide Matching, Tap, HeldAndOne;
    TapIsNotMarked(maps[i].from);
    TapVerdict(maps[i].from, Events(held, DownMatched), last, search.matchedAreOptional);
    assert (Events(held, DownMatched) == []) == (held == []);
  }

  lemma {:induction false} SelectedInContext(maps: seq<Remap>, search: Search, held: seq<Key>, last: KeyEvent, i: nat)
    requires ValidRemaps(maps) && IsSearch(maps, search, held, last) && search.Valid() && i <= |maps|
    requires var n := Selected(maps, held, last, search.matchedAreOptional); n < 0 || i <= n
    ensures var n := Selected(maps, held, last, search.matchedAreOptional);
      search.InContext(0, i) == if n >= 0 then Option.Some(SelectionOf(maps, n)) else None
    decreases |maps| - i
  {
    hide Search.Try, IsSearch, Tap;
    assert search.contexts == Config(maps) by { SearchContexts(maps, search, held, last); }
    if i < |maps| {
      TriedInput(maps, search, held, last, i);
      assert ContextOf(maps).inputs[i] == InputsOf(maps)[i];
      var n := Selected(maps, held, last, search.matchedAreOptional);
      if i != n {
        NotSelected(maps, held, last, search.matchedAreOptional, i);
        SelectedInContext(maps, search, held, last, i + 1);
      }
    }
  }

  lemma SearchContexts(maps: seq<Remap>, search: Search, held: seq<Key>, last: KeyEvent)
    requires IsSearch(maps, search, held, last)
    ensures search.contexts == Config(maps) && search.active == [0]
  {
  }

  lemma NotSelected(maps: seq<Remap>, held: seq<Key>, last: KeyEvent, optional: bool, i: nat)
    requires ValidRemaps(maps) && i < |maps| && i != Selected(maps, held, last, optional)
    ensures !(IsPressOf(last, maps[i].from) && (optional || held == []))
  {
  }

  lemma SelectedMapping(maps: seq<Remap>, search: Search, held: seq<Key>, last: KeyEvent)
    requires ValidRemaps(maps) && IsSearch(maps, search, held, last) && search.Valid()
    ensures var n := Selected(maps, held, last, search.matchedAreOptional);
      search.Select() == if n >= 0 then SelectionOf(maps, n) else NOTHING
  {
    hide Search.InContext, IsSearch, Selected;
    SearchContexts(maps, search, held, last);
    SelectedInContext(maps, search, held, last, 0);
    assert Fallthrough(search.contexts, search.active[0]) == 0;
    assert MatchesDevice(search.contexts[0], search.device);
    assert search.From(1) == NOTHING;
  }

  // ---------------------------------------------------------------------------
  // The rounds

  /** The state in which an event of a key is searched, while others are held. */
  predicate IsSearching(maps: seq<Remap>, m: Machine, held: seq<Key>, down: seq<Key>, output: KeySequence, last: KeyEvent) {
    && m.client == [0] == m.active
    && m.sequence == Events(held, DownMatched) + [last] && !m.mightMatch
    && m.history == [] && m.side == SideOf(maps, down, output)
    && HeldAndOne(Events(held, DownMatched), last)
  }

  lemma SearchingIsSound(maps: seq<Remap>, m: Machine, held: seq<Key>, down: seq<Key>, output: KeySequence, last: KeyEvent)
    requires ValidRemaps(maps) && IsSearching(maps, m, held, down, output, last)
    ensures Sound(Config(maps), m) && HasNonOptional(m.sequence)
  {
    hide SeqInv, ValidConfig, Target;
    ConfigIsValid(maps);
    var events := Events(held, DownMatched);
    assert forall i :: 0 <= i < |held| ==> events[i].key == held[i];
    SequenceIsSound(held, [last]);
    assert m.sequence[|held|] == last;
  }

  lemma SearchOfIsSearch(maps: seq<Remap>, m: Machine, held: seq<Key>, down: seq<Key>, output: KeySequence, last: KeyEvent,
                         optional: bool, device: int)
    requires ValidRemaps(maps) && IsSearching(maps, m, held, down, output, last)
    ensures Sound(Config(maps), m)
    ensures var search := SearchOf(Config(maps), m, optional, device);
      IsSearch(maps, search, held, last) && search.matchedAreOptional == optional
  {
    SearchingIsSound(maps, m, held, down, output, last);
  }

  /** What the round decides. */
  lemma DecidedRound(maps: seq<Remap>, m: Machine, held: seq<Key>, down: seq<Key>, output: KeySequence, last: KeyEvent, optional: bool, device: int)
    requires ValidRemaps(maps) && IsSearching(maps, m, held, down, output, last)
    ensures Sound(Config(maps), m)
    ensures var n := Selected(maps, held, last, optional);
      Decide(SearchOf(Config(maps), m, optional, device), false, false)
      == if n >= 0 then Output(|held| + 1, SelectionOf(maps, n), [])
         else if !optional then Retry else ForwardFirst
  {
    hide Search.Select, IsSearch, Selected, Matching;
    SearchOfIsSearch(maps, m, held, down, output, last, optional, device);
    var search := SearchOf(Config(maps), m, optional, device);
    SelectedMapping(maps, search, held, last);
    var n := Selected(maps, held, last, optional);
    if n >= 0 {
      SelectedKeys(maps, search, held, last, n);
    }
  }

  lemma SelectedKeys(maps: seq<Remap>, search: Search, held: seq<Key>, last: KeyEvent, n: nat)
    requires ValidRemaps(maps) && IsSearch(maps, search, held, last) && n < |maps|
    ensures KeysOfAny(search, SelectionOf(maps, n)) == []
  {
    hide Matching, Tap, HeldAndOne;
    TapIsNotMarked(maps[n].from);
    TapVerdict(maps[n].from, Events(held, DownMatched), last, search.matchedAreOptional);
  }

  // ---------------------------------------------------------------------------
  // What the rounds do to the sequence

  lemma NothingFollows(held: seq<Key>, last: KeyEvent, i: nat)
    requires HeldAndOne(Events(held, DownMatched), last) && i < |held|
    ensures !UpFollows(Events(held, DownMatched) + [last], i)
  {
    var events := Events(held, DownMatched);
    var s := events + [last];
    assert events[i].key == held[i];
    forall m | i <= m < |s| && s[m].key == s[i].key ensures s[m].state != Up {
      if m < |held| {
        assert s[m] == events[m];
      }
    }
  }

  lemma {:induction false} HeldFinished(held: seq<Key>, k: Key, i: nat)
    requires HeldAndOne(Events(held, DownMatched), Press(k)) && i <= |held|
    ensures Finish(Events(held, DownMatched) + [Press(k)], i, |held| + 1) == Events(held + [k], DownMatched)
    decreases |held| - i
  {
    var s := Events(held, DownMatched) + [Press(k)];
    if i < |held| {
      NothingFollows(held, Press(k), i);
      assert s[i := s[i].(state := DownMatched)] == s;
      HeldFinished(held, k, i + 1);
    } else {
      assert !UpFollows(s, i);
      assert s[i := s[i].(state := DownMatched)] == Events(held + [k], DownMatched);
    }
  }

  lemma {:induction false} FirstIsLast(held: seq<Key>, last: KeyEvent, i: nat)
    requires HeldAndOne(Events(held, DownMatched), last) && i <= |held|
    ensures FirstUnsettled(Events(held, DownMatched) + [last], i) == |held|
    decreases |held| - i
  {
    if i < |held| {
      NothingFollows(held, last, i);
      FirstIsLast(held, last, i + 1);
    }
  }

  lemma PressForwarded(held: seq<Key>, k: Key)
    requires HeldAndOne(Events(held, DownMatched), Press(k))
    ensures var s := Events(held, DownMatched) + [Press(k)];
      !UpFollows(s, |held|) && Forwarded(s) == Events(held + [k], DownMatched)
  {
    var s := Events(held, DownMatched) + [Press(k)];
    FirstIsLast(held, Press(k), 0);
    assert !UpFollows(s, |held|);
    assert s[|held| := s[|held|].(state := DownMatched)] == Events(held + [k], DownMatched);
  }

  lemma ReleaseForwarded(held: seq<Key>, k: Key)
    requires HeldAndOne(Events(held, DownMatched), Release(k))
    ensures Forwarded(Events(held, DownMatched) + [Release(k)]) == Events(held, DownMatched)
  {
    var s := Events(held, DownMatched) + [Release(k)];
    FirstIsLast(held, Release(k), 0);
    assert Erase(s, |held|) == Events(held, DownMatched);
  }

  lemma AllSettled(held: seq<Key>)
    ensures !HasNonOptional(Events(held, DownMatched))
  {
  }

  // ---------------------------------------------------------------------------
  // What they do to the output

  /** No entry is released temporarily, so a press of a new key is just emitted. */
  lemma PressEmits(maps: seq<Remap>, held: seq<Key>, event: KeyEvent, trigger: Trigger, contextIndex: int)
    requires event.state == Down && event.key != TIMEOUT
    requires forall i :: 0 <= i < |held| ==> Target(maps, held[i]) != event.key
    ensures UpdateDown(Ledger(EntriesOf(maps, held), [], false), event, trigger, contextIndex)
      == Ledger(EntriesOf(maps, held) + [OutputDown(event.key, trigger, false, false, false, contextIndex)], [event], false)
  {
    var l := Ledger(EntriesOf(maps, held), [], false);
    forall i | 0 <= i < |held| ensures l.down[i].key != event.key && !l.down[i].temporarilyReleased {
      assert l.down[i] == EntryOf(maps, held[i]);
    }
    NothingReapplied(l, event.key, 0);
    assert [] + [event] == [event];
  }

  lemma {:induction false} NothingReapplied(l: Ledger, k: Key, i: nat)
    requires forall j :: 0 <= j < |l.down| ==> !l.down[j].temporarilyReleased
    ensures Reapply(l, k, i) == (l, false)
    decreases |l.down| - i
  {
    if i < |l.down| {
      NothingReapplied(l, k, i + 1);
    }
  }

  lemma EntriesGrow(maps: seq<Remap>, held: seq<Key>, k: Key)
    ensures EntriesOf(maps, held) + [EntryOf(maps, k)] == EntriesOf(maps, held + [k])
  {
  }

  /** The output of the selected mapping: its key is pressed, held by the input. */
  lemma OutputApplied(maps: seq<Remap>, held: seq<Key>, k: Key, env: Environment)
    requires ValidRemaps(maps) && FindMap(maps, k) >= 0
    requires forall i :: 0 <= i < |held| ==> Target(maps, held[i]) != Target(maps, k)
    ensures ValidOutput([Press(Target(maps, k))])
    ensures ApplySide(SideOf(maps, held, []), [Press(Target(maps, k))], InputTrigger(Tap(k)), 0, env)
      == SideOf(maps, held + [k], [Press(Target(maps, k))])
  {
    var x := Target(maps, k);
    var output := [Press(x)];
    assert output[1..] == [];
    PressEmits(maps, held, Press(x), InputTrigger(Tap(k)), 0);
    EntriesGrow(maps, held, k);
    hide UpdateDown, Tap;
    var l := Ledger(EntriesOf(maps, held), [], false);
    assert ApplyEvent(l, Press(x), InputTrigger(Tap(k)), 0, env) == UpdateDown(l, Press(x), InputTrigger(Tap(k)), 0);
    var next := SideOf(maps, held + [k], [Press(x)]).Outputs();
    assert EntryOf(maps, k) == OutputDown(x, InputTrigger(Tap(k)), false, false, false, 0);
    assert Apply(next, [], InputTrigger(Tap(k)), 0, env) == next;
    assert Apply(OutputState(l, []), output, InputTrigger(Tap(k)), 0, env) == Apply(next, [], InputTrigger(Tap(k)), 0, env);
  }

  lemma TapTrigger(k: Key)
    requires IsDeviceKey(k)
    ensures TriggerEvent(InputTrigger(Tap(k))) == Press(k) && TriggerKey(InputTrigger(Tap(k))) == k
  {
    assert Tap(k)[..1] == [Press(k)];
    assert LastNonOptional(Tap(k)) == LastNonOptional([Press(k)]) == 0;
  }

  /** The input itself holds the output: its key is pressed. */
  lemma TriggerIsInput(maps: seq<Remap>, held: seq<Key>, k: Key, s: KeySequence)
    requires IsDeviceKey(k) && s == Events(held, DownMatched) + [Press(k)]
    ensures ChooseTrigger(Tap(k), [Press(Target(maps, k))], Press(k), s, None) == InputTrigger(Tap(k))
  {
    hide Tap;
    TapTrigger(k);
    var output := [Press(Target(maps, k))];
    assert !HasOutputOnRelease(output);
    assert s[|held|] == Press(k) && |s| == |held| + 1;
  }

  function Without(held: seq<Key>, k: Key): (r: seq<Key>)
    ensures forall x :: x in r <==> x in held && x != k
  {
    if held == [] then []
    else if held[0] == k then Without(held[1..], k)
    else [held[0]] + Without(held[1..], k)
  }

  lemma {:induction false} NothingWithout(held: seq<Key>, k: Key)
    requires k !in held
    ensures Without(held, k) == held
  {
    if held != [] {
      NothingWithout(held[1..], k);
    }
  }

  lemma EntryTrigger(maps: seq<Remap>, k: Key)
    requires IsDeviceKey(k)
    ensures TriggerKey(EntryOf(maps, k).trigger) == k
  {
    TapTrigger(k);
  }

  lemma EntriesFirst(maps: seq<Remap>, held: seq<Key>)
    requires held != []
    ensures EntriesOf(maps, held)[1..] == EntriesOf(maps, held[1..]) && EntriesOf(maps, held)[0] == EntryOf(maps, held[0])
    ensures EntriesOf(maps, held) == [EntryOf(maps, held[0])] + EntriesOf(maps, held[1..])
  {
  }

  /** The release of a key releases exactly its own entry. */
  lemma {:induction false} HeldReleased(maps: seq<Remap>, held: seq<Key>, k: Key)
    requires forall i :: 0 <= i < |held| ==> IsDeviceKey(held[i])
    requires forall i, j :: 0 <= i < j < |held| ==> held[i] != held[j]
    requires IsDeviceKey(k)
    ensures Kept(EntriesOf(maps, held), k, -1) == EntriesOf(maps, Without(held, k))
    ensures Triggered(EntriesOf(maps, held), k, -1) == if k in held then [EntryOf(maps, k)] else []
    decreases |held|
  {
    hide EntryOf;
    if held != [] {
      EntriesFirst(maps, held);
      EntryTrigger(maps, held[0]);
      HeldReleased(maps, held[1..], k);
      assert [] + Kept(EntriesOf(maps, held[1..]), k, -1) == Kept(EntriesOf(maps, held[1..]), k, -1);
      assert [] + Triggered(EntriesOf(maps, held[1..]), k, -1) == Triggered(EntriesOf(maps, held[1..]), k, -1);
      if held[0] == k {
        assert k !in held[1..];
        assert [EntryOf(maps, k)] + [] == [EntryOf(maps, k)];
        NothingWithout(held[1..], k);
      } else {
        EntriesFirst(maps, Without(held, k));
      }
    } else {
      assert EntriesOf(maps, []) == [];
    }
  }

  lemma ReleaseEmits(maps: seq<Remap>, held: seq<Key>, k: Key, output: KeySequence)
    requires Holdable(maps, held) && IsDeviceKey(k)
    ensures ReleaseSide(SideOf(maps, held, output), k, -1)
      == SideOf(maps, Without(held, k), output + (if k in held then [Release(Target(maps, k))] else []))
  {
    HeldReleased(maps, held, k);
    assert [EntryOf(maps, k)][1..] == [];
    assert Releases([EntryOf(maps, k)]) == [] + [Release(EntryOf(maps, k).key)] == [Release(Target(maps, k))];
    assert Releases([]) == [];
  }

  lemma HoldableRest(maps: seq<Remap>, held: seq<Key>)
    requires held != [] && Holdable(maps, held)
    ensures Holdable(maps, held[1..]) && IsDeviceKey(held[0])
    ensures forall x :: x in held[1..] ==> x != held[0] && Target(maps, x) != Target(maps, held[0])
  {
    hide Target, IsDeviceKey;
  }

  lemma HoldableMore(maps: seq<Remap>, k: Key, held: seq<Key>)
    requires Holdable(maps, held) && IsDeviceKey(k)
    requires forall x :: x in held ==> x != k && Target(maps, x) != Target(maps, k)
    ensures Holdable(maps, [k] + held)
  {
    hide Target, IsDeviceKey;
    var all := [k] + held;
    assert forall j :: 0 < j < |all| ==> all[j] == held[j - 1] && all[j] in held;
  }

  lemma {:induction false} WithoutHoldable(maps: seq<Remap>, held: seq<Key>, k: Key)
    requires Holdable(maps, held)
    ensures Holdable(maps, Without(held, k))
    decreases |held|
  {
    hide Target, IsDeviceKey, Holdable;
    if held != [] {
      HoldableRest(maps, held);
      WithoutHoldable(maps, held[1..], k);
      if held[0] != k {
        HoldableMore(maps, held[0], Without(held[1..], k));
      }
    }
  }

  lemma {:induction false} WithoutDistinct(held: seq<Key>, k: Key)
    requires DistinctDevices(held)
    ensures DistinctDevices(Without(held, k))
    decreases |held|
  {
    if held != [] {
      var rest := held[1..];
      assert forall i :: 0 <= i < |rest| ==> rest[i] == held[i + 1];
      WithoutDistinct(rest, k);
      var r := Without(rest, k);
      forall j | 0 <= j < |r| ensures r[j] != held[0] {
        assert r[j] in rest;
      }
    }
  }

  lemma {:induction false} WithoutAt(held: seq<Key>, n: nat)
    requires n < |held| && forall i, j :: 0 <= i < j < |held| ==> held[i] != held[j]
    ensures Without(held, held[n]) == held[..n] + held[n + 1..]
    decreases |held|
  {
    var rest := held[1..];
    if n == 0 {
      NothingWithout(rest, held[0]);
    } else {
      WithoutAt(rest, n - 1);
      assert held[..n] == [held[0]] + rest[..n - 1] && held[n + 1..] == rest[n..];
    }
  }

  /** The press of the released key is erased from the sequence. */
  lemma PressErased(held: seq<Key>, k: Key)
    requires DistinctDevices(held)
    ensures WithoutMatchedPress(Events(held, DownMatched) + [Release(k)], k) == Events(Without(held, k), DownMatched) + [Release(k)]
  {
    var s := Events(held, DownMatched) + [Release(k)];
    var n := FindKey(s, k);
    assert s[|held|].key == k;
    assert forall i :: 0 <= i < |held| ==> s[i].key == held[i];
    hide FindKey, Without, IsDeviceKey;
    if n == |held| {
      assert forall i :: 0 <= i < |held| ==> s[i].key != k;
      NothingWithout(held, k);
    } else {
      WithoutAt(held, n);
      PressErasedAt(held, k, n);
    }
  }

  lemma PressErasedAt(held: seq<Key>, k: Key, n: nat)
    requires n < |held|
    ensures Erase(Events(held, DownMatched) + [Release(k)], n) == Events(held[..n] + held[n + 1..], DownMatched) + [Release(k)]
  {
  }

  // ---------------------------------------------------------------------------
  // Whole rounds

  lemma DeviceKeyIsInput(event: KeyEvent)
    requires event.IsNonOptional() && IsDeviceKey(event.key)
    ensures IsInputEvent(event) && !IsVirtualKey(event.key) && event.key != TIMEOUT
  {
  }

  lemma OutputRound(maps: seq<Remap>, m: Machine, held: seq<Key>, k: Key, device: int, optional: bool)
    requires ValidRemaps(maps) && IsSearching(maps, m, held, held, [], Press(k)) && Selected(maps, held, Press(k), optional) >= 0
    requires forall i :: 0 <= i < |held| ==> Target(maps, held[i]) != Target(maps, k)
    ensures Sound(Config(maps), m) && HasNonOptional(m.sequence) && IsInputEvent(Press(k))
    ensures var r := Round(Config(maps), m, Press(k), device, optional);
      !r.done && IsResting(maps, r.m, held + [k], held + [k], [Press(Target(maps, k))])
  {
    hide Sound, Tap, HeldAndOne, ValidRemaps, Search.KeysFrom, Decide, ApplySide, ChooseTrigger, Target, HasNonOptional, Finish;
    SearchingIsSound(maps, m, held, held, [], Press(k));
    assert IsDeviceKey(k) by { LastIsDevice(held, Press(k)); }
    DeviceKeyIsInput(Press(k));
    DecidedRound(maps, m, held, held, [], Press(k), optional, device);
    DecisionIsValid(Config(maps), m, optional, device, false);
    HeldFinished(held, k, 0);
    TriggerIsInput(maps, held, k, m.sequence);
    OutputApplied(maps, held, k, Environment(m.sequence, [], m.toggle));
    SelectedOutput(maps, k, Selected(maps, held, Press(k), optional));
  }

  lemma SelectedOutput(maps: seq<Remap>, k: Key, n: nat)
    requires n < |maps| && n == FindMap(maps, k)
    ensures maps[n].from == k && ValidRef(Config(maps), Direct(0, n)) && OutputAt(Config(maps), Direct(0, n)) == [Press(Target(maps, k))]
  {
  }

  lemma LastIsDevice(held: seq<Key>, last: KeyEvent)
    requires HeldAndOne(Events(held, DownMatched), last)
    ensures IsDeviceKey(last.key) && last.IsNonOptional()
  {
  }

  lemma ForwardRound(maps: seq<Remap>, m: Machine, held: seq<Key>, k: Key, device: int)
    requires ValidRemaps(maps) && IsSearching(maps, m, held, held, [], Press(k)) && FindMap(maps, k) < 0
    requires forall i :: 0 <= i < |held| ==> Target(maps, held[i]) != k
    ensures Sound(Config(maps), m) && HasNonOptional(m.sequence) && IsInputEvent(Press(k))
    ensures var r := Round(Config(maps), m, Press(k), device, true);
      !r.done && IsResting(maps, r.m, held + [k], held + [k], [Press(k)])
  {
    hide Sound, Tap, HeldAndOne, ValidRemaps, Search.KeysFrom, Decide, Target, HasNonOptional, UpdateDown;
    SearchingIsSound(maps, m, held, held, [], Press(k));
    assert IsDeviceKey(k) by { LastIsDevice(held, Press(k)); }
    DeviceKeyIsInput(Press(k));
    DecidedRound(maps, m, held, held, [], Press(k), true, device);
    PressForwarded(held, k);
    FirstIsLast(held, Press(k), 0);
    PressEmits(maps, held, Press(k), KeyTrigger(k), -1);
    EntriesGrow(maps, held, k);
    hide Forwarded, FirstUnsettled;
    assert m.sequence[|held|] == Press(k);
  }

  /** What is output when a key goes up: the release of its output, if that is down. */
  function OutputOfRelease(maps: seq<Remap>, down: seq<Key>, k: Key): KeySequence {
    if k in down then [Release(Target(maps, k))] else []
  }

  lemma ForwardReleaseRound(maps: seq<Remap>, m: Machine, held: seq<Key>, down: seq<Key>, output: KeySequence, k: Key, device: int)
    requires ValidRemaps(maps) && IsSearching(maps, m, held, down, output, Release(k)) && Holdable(maps, down)
    ensures Sound(Config(maps), m) && HasNonOptional(m.sequence) && IsInputEvent(Release(k))
    ensures var r := Round(Config(maps), m, Release(k), device, true);
      !r.done && IsResting(maps, r.m, held, Without(down, k), output + OutputOfRelease(maps, down, k))
  {
    hide Sound, Tap, HeldAndOne, ValidRemaps, Search.KeysFrom, Decide, Target, HasNonOptional, Holdable, Outputs.ReleaseTriggered;
    SearchingIsSound(maps, m, held, down, output, Release(k));
    assert IsDeviceKey(k) by { LastIsDevice(held, Release(k)); }
    DeviceKeyIsInput(Release(k));
    DecidedRound(maps, m, held, down, output, Release(k), true, device);
    ReleaseForwarded(held, k);
    FirstIsLast(held, Release(k), 0);
    ReleaseEmits(maps, down, k, output);
    AllSettled(held);
    hide Forwarded, FirstUnsettled;
    assert m.sequence[|held|] == Release(k);
  }

  /** Nothing matches while matched events are not optional. */
  lemma RetryRound(maps: seq<Remap>, m: Machine, held: seq<Key>, down: seq<Key>, output: KeySequence, last: KeyEvent, device: int)
    requires ValidRemaps(maps) && IsSearching(maps, m, held, down, output, last) && Selected(maps, held, last, false) < 0
    ensures Sound(Config(maps), m) && HasNonOptional(m.sequence) && IsInputEvent(last)
    ensures var r := Round(Config(maps), m, last, device, false);
      !r.done && r.optional && IsSearching(maps, r.m, held, down, output, last)
  {
    hide Sound, HeldAndOne, ValidRemaps, Search.KeysFrom, Decide, HasNonOptional;
    SearchingIsSound(maps, m, held, down, output, last);
    LastIsDevice(held, last);
    DeviceKeyIsInput(last);
    DecidedRound(maps, m, held, down, output, last, false, device);
  }

  lemma SettledRounds(maps: seq<Remap>, m: Machine, held: seq<Key>, down: seq<Key>, output: KeySequence,
                      event: KeyEvent, device: int, optional: bool)
    requires Sound(Config(maps), m) && IsInputEvent(event) && IsResting(maps, m, held, down, output)
    ensures Rounds(Config(maps), m, event, device, optional) == m
  {
    AllSettled(held);
  }

  /** All rounds of a press. */
  lemma PressRounds(maps: seq<Remap>, m: Machine, held: seq<Key>, k: Key, device: int)
    requires ValidRemaps(maps) && IsSearching(maps, m, held, held, [], Press(k))
    requires forall i :: 0 <= i < |held| ==> Target(maps, held[i]) != Target(maps, k)
    ensures Sound(Config(maps), m) && IsInputEvent(Press(k))
    ensures IsResting(maps, Rounds(Config(maps), m, Press(k), device, false), held + [k], held + [k], [Press(Target(maps, k))])
  {
    hide Sound, Round, IsSearching, IsResting, ValidRemaps;
    if Selected(maps, held, Press(k), false) >= 0 {
      OutputRound(maps, m, held, k, device, false);
      RoundKeeps(Config(maps), m, Press(k), device, false);
      SettledRounds(maps, Round(Config(maps), m, Press(k), device, false).m, held + [k], held + [k], [Press(Target(maps, k))], Press(k), device,
                    Round(Config(maps), m, Press(k), device, false).optional);
    } else {
      RetryRound(maps, m, held, held, [], Press(k), device);
      RoundKeeps(Config(maps), m, Press(k), device, false);
      var r := Round(Config(maps), m, Press(k), device, false);
      if FindMap(maps, k) >= 0 {
        OutputRound(maps, r.m, held, k, device, true);
      } else {
        ForwardRound(maps, r.m, held, k, device);
      }
      RoundKeeps(Config(maps), r.m, Press(k), device, true);
      var r2 := Round(Config(maps), r.m, Press(k), device, true);
      SettledRounds(maps, r2.m, held + [k], held + [k], [Press(Target(maps, k))], Press(k), device, r2.optional);
    }
  }

  /** All rounds of a release. */
  lemma ReleaseRounds(maps: seq<Remap>, m: Machine, held: seq<Key>, down: seq<Key>, output: KeySequence, k: Key, device: int)
    requires ValidRemaps(maps) && IsSearching(maps, m, held, down, output, Release(k)) && Holdable(maps, down)
    ensures Sound(Config(maps), m) && IsInputEvent(Release(k))
    ensures IsResting(maps, Rounds(Config(maps), m, Release(k), device, false), held, Without(down, k), output + OutputOfRelease(maps, down, k))
  {
    hide Sound, Round, IsSearching, IsResting, ValidRemaps, Holdable, OutputOfRelease;
    RetryRound(maps, m, held, down, output, Release(k), device);
    RoundKeeps(Config(maps), m, Release(k), device, false);
    var r := Round(Config(maps), m, Release(k), device, false);
    ForwardReleaseRound(maps, r.m, held, down, output, k, device);
    RoundKeeps(Config(maps), r.m, Release(k), device, true);
    var r2 := Round(Config(maps), r.m, Release(k), device, true);
    SettledRounds(maps, r2.m, held, Without(down, k), output + OutputOfRelease(maps, down, k), Release(k), device, r2.optional);
  }

  // ---------------------------------------------------------------------------
  // Whole inputs

  lemma NothingWaits(side: Side, event: KeyEvent, env: Environment)
    requires side.onRelease == []
    ensures FindOnRelease(side.onRelease, event.key, -1) < 0
    ensures GoodOnRelease(side.onRelease, false) && ContinueSide(side, event, -1, env) == side
  {
  }

  lemma NotARepeat(held: seq<Key>, k: Key)
    requires k !in held
    ensures !IsRepeat(Events(held, DownMatched), k)
  {
    var s := Events(held, DownMatched);
    assert forall i :: 0 <= i < |s| ==> s[i].key == held[i];
  }

  lemma EventTaken(maps: seq<Remap>, m: Machine, held: seq<Key>, down: seq<Key>, output: KeySequence,
                   event: KeyEvent, device: int, elapsed: Value)
    requires ValidRemaps(maps) && DistinctDevices(held) && IsResting(maps, m, held, down, output)
    requires event.IsNonOptional() && IsDeviceKey(event.key) && (event.state == Down ==> event.key !in held)
    ensures Sound(Config(maps), m) && IsInputEvent(event)
    ensures var (taken, ignored) := Taken(Config(maps), m, event, device, elapsed);
      && !ignored && taken.client == [0] == taken.active
      && taken.sequence == Events(held, DownMatched) + [event] && !taken.mightMatch
      && taken.history == [] && taken.side == SideOf(maps, down, output)
  {
    hide Sound, ValidRemaps, ContinueSide, IsRepeat, FindOnRelease, DistinctDevices;
    RestingIsSound(maps, m, held, down, output);
    ConfigIsValid(maps);
    DeviceKeyIsInput(event);
    NothingWaits(m.side, event, m.Env());
    if event.state == Down {
      NotARepeat(held, event.key);
    }
  }

  lemma NothingSuppressed(maps: seq<Remap>, held: seq<Key>)
    ensures Unsuppressed(EntriesOf(maps, held)) == EntriesOf(maps, held)
  {
    var entries := EntriesOf(maps, held);
    forall i | 0 <= i < |held| ensures Unsuppressed(entries)[i] == entries[i] {
      assert entries[i] == EntryOf(maps, held[i]) && !entries[i].suppressed;
    }
  }

  lemma HeldAndPress(held: seq<Key>, last: KeyEvent)
    requires last.IsNonOptional() && IsDeviceKey(last.key) && last.key !in held
    requires DistinctDevices(held)
    ensures HeldAndOne(Events(held, DownMatched), last)
  {
  }

  lemma PressSearched(maps: seq<Remap>, m: Machine, held: seq<Key>, k: Key, device: int, elapsed: Value)
    requires ValidRemaps(maps) && DistinctDevices(held) && IsHolding(maps, m, held) && IsDeviceKey(k) && k !in held
    ensures Sound(Config(maps), m) && IsInputEvent(Press(k))
    ensures var (taken, ignored) := Taken(Config(maps), m, Press(k), device, elapsed);
      !ignored && IsSearching(maps, Searching(Config(maps), taken, Press(k)), held, held, [], Press(k))
  {
    hide Sound, Taken, HeldAndOne, Unsuppressed, EntryOf, WithContexts, DistinctDevices;
    EventTaken(maps, m, held, held, [], Press(k), device, elapsed);
    var taken := Taken(Config(maps), m, Press(k), device, elapsed).0;
    ContextsStay(Config(maps), taken);
    NothingSuppressed(maps, held);
    HeldAndPress(held, Press(k));
  }

  lemma ReleaseSearched(maps: seq<Remap>, m: Machine, held: seq<Key>, down: seq<Key>, output: KeySequence, k: Key, device: int, elapsed: Value)
    requires ValidRemaps(maps) && DistinctDevices(held) && IsResting(maps, m, held, down, output) && IsDeviceKey(k)
    ensures Sound(Config(maps), m) && IsInputEvent(Release(k))
    ensures var (taken, ignored) := Taken(Config(maps), m, Release(k), device, elapsed);
      !ignored && IsSearching(maps, Searching(Config(maps), taken, Release(k)), Without(held, k), down, output, Release(k))
  {
    hide Sound, Taken, HeldAndOne, Unsuppressed, EntryOf, WithContexts, WithoutMatchedPress, DistinctDevices;
    EventTaken(maps, m, held, down, output, Release(k), device, elapsed);
    var taken := Taken(Config(maps), m, Release(k), device, elapsed).0;
    ContextsStay(Config(maps), taken);
    NothingSuppressed(maps, down);
    PressErased(held, k);
    WithoutDistinct(held, k);
    HeldAndPress(Without(held, k), Release(k));
  }

  lemma NothingTidied(maps: seq<Remap>, m: Machine, held: seq<Key>, down: seq<Key>, output: KeySequence)
    requires IsResting(maps, m, held, down, output)
    ensures Tidied(Config(maps), m) == m
  {
    hide Blocking;
    assert Events(held, DownMatched) != [] ==> Events(held, DownMatched)[0].state == DownMatched;
  }

  lemma InputEnds(maps: seq<Remap>, m: Machine, held: seq<Key>, down: seq<Key>, output: KeySequence, event: KeyEvent)
    requires Sound(Config(maps), m) && IsResting(maps, m, held, down, output) && Holdable(maps, down)
    requires event.state == Up ==> IsDeviceKey(event.key) && event.key !in down
    ensures Ended(Config(maps), m, event) == m
  {
    hide Sound, Holdable, ReleaseSide, WithContexts, Tidied;
    if event.state == Up {
      ReleaseEmits(maps, down, event.key, output);
      NothingWithout(down, event.key);
      assert output + [] == output;
    }
    ContextsStay(Config(maps), m);
    NothingTidied(maps, m, held, down, output);
  }

  /** One release, also of a key that is not held: it releases what the key holds down,
      and nothing else. */
  lemma ReleaseProcessed(maps: seq<Remap>, m: Machine, held: seq<Key>, down: seq<Key>, output: KeySequence, k: Key, device: int, elapsed: Value)
    requires ValidRemaps(maps) && DistinctDevices(held) && Holdable(maps, down) && IsResting(maps, m, held, down, output) && IsDeviceKey(k)
    ensures Sound(Config(maps), m) && IsInputEvent(Release(k)) && Holdable(maps, Without(down, k))
    ensures var (next, ignored) := AfterInput(Config(maps), m, Release(k), device, elapsed);
      !ignored && IsResting(maps, next, Without(held, k), Without(down, k), output + OutputOfRelease(maps, down, k))
  {
    hide Sound, Taken, Searching, Rounds, Ended, IsSearching, ValidRemaps, IsResting, DistinctDevices, Holdable, OutputOfRelease;
    ReleaseSearched(maps, m, held, down, output, k, device, elapsed);
    WithoutHoldable(maps, down, k);
    var searching := Searching(Config(maps), Taken(Config(maps), m, Release(k), device, elapsed).0, Release(k));
    ReleaseRounds(maps, searching, Without(held, k), down, output, k, device);
    RoundsKeep(Config(maps), searching, Release(k), device, false);
    InputEnds(maps, Rounds(Config(maps), searching, Release(k), device, false), Without(held, k), Without(down, k),
              output + OutputOfRelease(maps, down, k), Release(k));
  }

  /** The keys that are held after an event. */
  function HeldAfter(held: seq<Key>, event: KeyEvent): seq<Key> {
    if event.state == Down then held + [event.key] else Without(held, event.key)
  }

  /** A press of another key, or the release of a held one, such that the keys that
      are held have different outputs. */
  predicate Types(maps: seq<Remap>, held: seq<Key>, event: KeyEvent) {
    || (event == Press(event.key) && Holdable(maps, held + [event.key]))
    || (event == Release(event.key) && event.key in held)
  }

  function Replaced(maps: seq<Remap>, event: KeyEvent): KeyEvent { event.(key := Target(maps, event.key)) }

  /** One event: it comes out with its key replaced, and nothing else does. */
  lemma InputIsReplaced(maps: seq<Remap>, m: Machine, held: seq<Key>, event: KeyEvent, device: int, elapsed: Value)
    requires ValidRemaps(maps) && Holdable(maps, held) && IsHolding(maps, m, held) && Types(maps, held, event)
    ensures Sound(Config(maps), m) && IsInputEvent(event)
    ensures var (next, ignored) := AfterInput(Config(maps), m, event, device, elapsed);
      && !ignored && next.side.ledger.buffer == [Replaced(maps, event)]
      && Holdable(maps, HeldAfter(held, event)) && IsHolding(maps, HandedOut(next), HeldAfter(held, event))
  {
    hide Sound, Taken, Searching, Rounds, Ended, IsSearching, ValidRemaps;
    var k := event.key;
    HoldableIsDistinct(maps, held);
    if event.state == Down {
      TypesPress(maps, held, k);
      PressSearched(maps, m, held, k, device, elapsed);
      var searching := Searching(Config(maps), Taken(Config(maps), m, event, device, elapsed).0, event);
      PressRounds(maps, searching, held, k, device);
      RoundsKeep(Config(maps), searching, event, device, false);
      InputEnds(maps, Rounds(Config(maps), searching, event, device, false), held + [k], held + [k], [Replaced(maps, event)], event);
    } else {
      ReleaseProcessed(maps, m, held, held, [], k, device, elapsed);
      assert [] + [Replaced(maps, event)] == [Replaced(maps, event)];
    }
  }

  lemma HoldableIsDistinct(maps: seq<Remap>, held: seq<Key>)
    requires Holdable(maps, held)
    ensures DistinctDevices(held)
  {
  }

  lemma TypesPress(maps: seq<Remap>, held: seq<Key>, k: Key)
    requires Holdable(maps, held + [k])
    ensures IsDeviceKey(k) && k !in held && forall i :: 0 <= i < |held| ==> Target(maps, held[i]) != Target(maps, k)
  {
    hide Target;
    var all := held + [k];
    assert all[|held|] == k;
    assert forall i :: 0 <= i < |held| ==> all[i] == held[i];
  }

  // ---------------------------------------------------------------------------
  // Whole runs

  datatype Typed = Typed(event: KeyEvent, device: int, elapsed: Value)

  /** Presses and releases in any order, of any number of keys at once. */
  predicate IsTyping(maps: seq<Remap>, held: seq<Key>, run: seq<Typed>)
    decreases |run|
  {
    if run == [] then true
    else Types(maps, held, run[0].event) && IsTyping(maps, HeldAfter(held, run[0].event), run[1..])
  }

  function EventsOf(run: seq<Typed>): (r: KeySequence)
    ensures |r| == |run| && forall i :: 0 <= i < |r| ==> r[i] == run[i].event
  {
    seq(|run|, i requires 0 <= i < |run| => run[i].event)
  }

  function AllReplaced(maps: seq<Remap>, events: KeySequence): (r: KeySequence)
    ensures |r| == |events| && forall i :: 0 <= i < |r| ==> r[i] == Replaced(maps, events[i])
  {
    seq(|events|, i requires 0 <= i < |events| => Replaced(maps, events[i]))
  }

  /** What a stage hands out for a run of events. */
  function HandedOutFor(contexts: seq<Context>, m: Machine, run: seq<Typed>): KeySequence
    requires Sound(contexts, m) && forall i :: 0 <= i < |run| ==> IsInputEvent(run[i].event)
    decreases |run|
  {
    hide GoodOnRelease, ValidConfig, SeqInv, H.HistoryInv, AfterInput;
    if run == [] then []
    else
      var next := AfterInput(contexts, m, run[0].event, run[0].device, run[0].elapsed).0;
      next.side.ledger.buffer + HandedOutFor(contexts, HandedOut(next), run[1..])
  }

  lemma {:induction false} TypingIsInput(maps: seq<Remap>, held: seq<Key>, run: seq<Typed>)
    requires Holdable(maps, held) && IsTyping(maps, held, run)
    ensures forall i :: 0 <= i < |run| ==> IsInputEvent(run[i].event)
    decreases |run|
  {
    hide Target;
    if run != [] {
      var event := run[0].event;
      if event.state == Down {
        TypesPress(maps, held, event.key);
      } else {
        WithoutHoldable(maps, held, event.key);
      }
      TypingIsInput(maps, HeldAfter(held, event), run[1..]);
      assert forall i :: 0 < i < |run| ==> run[i] == run[1..][i - 1];
    }
  }

  /** Over every run of typing, with any devices and times: the output is what was
      typed with the keys replaced. Each press presses its output once, each release
      releases it once, and nothing else is output. */
  lemma {:induction false} TypingIsReplaced(maps: seq<Remap>, m: Machine, held: seq<Key>, run: seq<Typed>)
    requires ValidRemaps(maps) && Holdable(maps, held) && IsHolding(maps, m, held) && IsTyping(maps, held, run)
    ensures Sound(Config(maps), m) && forall i :: 0 <= i < |run| ==> IsInputEvent(run[i].event)
    ensures HandedOutFor(Config(maps), m, run) == AllReplaced(maps, EventsOf(run))
    decreases |run|
  {
    hide Sound, Holdable, IsResting, Types, AfterInput, ValidRemaps, HeldAfter, Replaced;
    HoldableIsDistinct(maps, held);
    RestingIsSound(maps, m, held, held, []);
    TypingIsInput(maps, held, run);
    if run != [] {
      var event := run[0].event;
      InputIsReplaced(maps, m, held, event, run[0].device, run[0].elapsed);
      var next := AfterInput(Config(maps), m, event, run[0].device, run[0].elapsed).0;
      TypingIsReplaced(maps, HandedOut(next), HeldAfter(held, event), run[1..]);
      assert AllReplaced(maps, EventsOf(run)) == [Replaced(maps, event)] + AllReplaced(maps, EventsOf(run[1..]));
    }
  }

  /** The simplest case: nothing is held, and the only mapping is `k >> x`. The press of
      k hands out the press of x, the release of k its release, and then nothing is
      held again. */
  lemma OneMapping(k: Key, x: Key, m: Machine, device: int, elapsed: Value, elapsed2: Value)
    requires IsDeviceKey(k) && IsDeviceKey(x) && IsHolding([Remap(k, x)], m, [])
    ensures Sound(Config([Remap(k, x)]), m) && IsInputEvent(Press(k)) && IsInputEvent(Release(k))
    ensures var contexts := Config([Remap(k, x)]);
      var (pressed, _) := AfterInput(contexts, m, Press(k), device, elapsed);
      var (released, _) := AfterInput(contexts, HandedOut(pressed), Release(k), device, elapsed2);
      && pressed.side.ledger.buffer == [Press(x)] && released.side.ledger.buffer == [Release(x)]
      && IsHolding([Remap(k, x)], HandedOut(released), [])
  {
    hide Sound, AfterInput, IsHolding;
    var maps := [Remap(k, x)];
    assert ValidRemaps(maps) && FindMap(maps, k) == 0 && Target(maps, k) == x;
    assert Holdable(maps, []) && Holdable(maps, [] + [k]) && Types(maps, [], Press(k));
    InputIsReplaced(maps, m, [], Press(k), device, elapsed);
    var pressed := AfterInput(Config(maps), m, Press(k), device, elapsed).0;
    assert HeldAfter([], Press(k)) == [k] && Types(maps, [k], Release(k));
    InputIsReplaced(maps, HandedOut(pressed), [k], Release(k), device, elapsed2);
    assert Without([k], k) == [];
  }

  /** So it is for a new stage once the client has set its context active. */
  lemma NewStageHoldsNothing(maps: seq<Remap>)
    requires ValidRemaps(maps)
    ensures Sound(Config(maps), FRESH) && ValidIndices(Config(maps), [0])
    ensures var m := AfterContexts(Config(maps), FRESH, [0]);
      m.side.ledger.buffer == [] && IsHolding(maps, HandedOut(m), [])
  {
    hide ValidRemaps, ValidConfig;
    ConfigIsValid(maps);
    assert Sound(Config(maps), FRESH);
    var m := FRESH.(client := [0]);
    FirstActivated(maps, m);
    assert Events([], DownMatched) == [] && EntriesOf(maps, []) == [];
  }

  lemma FirstActivated(maps: seq<Remap>, m: Machine)
    requires ValidConfig(Config(maps)) && m == FRESH.(client := [0]) && Sound(Config(maps), m) && ValidRemaps(maps)
    ensures WithContexts(Config(maps), m) == m.(active := [0])
  {
    hide ValidConfig, ValidRemaps, Tap, SeqInv, H.HistoryInv, GoodOnRelease, Activate, NotedAll, Notifications, ContextOf;
    var contexts := Config(maps);
    ConfigHasChains(contexts);
    ConfigIsSingle(maps);
    OnlyContext(contexts, []);
    FirstNotification();
    FirstNoted(maps, m);
  }

  lemma FirstNotification()
    ensures Below([]) && Below([0]) && Notifications([], [0]) == [Notification(0, true)]
  {
    assert Toggled([], [0], 0, 1, false) == [] && Toggled([], [0], 0, 1, true) == [];
    assert Toggled([], [0], 0, 0, false) == [] && Toggled([], [0], 0, 0, true) == [0];
    hide Toggled;
    assert Notes([0], true) == [Notification(0, true)] && Notes([], false) == [];
  }

  lemma FirstNoted(maps: seq<Remap>, m: Machine)
    requires ValidRemaps(maps) && Sound(Config(maps), m)
    ensures var contexts, note := Config(maps), Notification(0, true);
      ValidIndices(contexts, [0]) && NotesInRange(contexts, [note]) && NotedAll(contexts, [0], m.side, [note], m.Env()) == m.side
  {
    hide ValidConfig, ValidRemaps, SeqInv, H.HistoryInv, GoodOnRelease, InputsOf, OutputsOf;
    var contexts, note := Config(maps), Notification(0, true);
    NoContextActive(maps, 0);
    assert InputsOf(maps)[0..] == InputsOf(maps);
    assert Noted(contexts, [0], m.side, note, m.Env()) == m.side;
    assert [note][1..] == [];
  }

  lemma {:induction false} NoContextActive(maps: seq<Remap>, i: nat)
    requires ValidRemaps(maps) && i <= |maps|
    ensures ContextActiveInput(InputsOf(maps)[i..]) < 0
    decreases |maps| - i
  {
    hide Tap;
    if i < |maps| {
      TapIsNotMarked(maps[i].from);
      NoContextActive(maps, i + 1);
      assert InputsOf(maps)[i..][1..] == InputsOf(maps)[i + 1..];
    }
  }

  // ---------------------------------------------------------------------------
  // Validating the state

  /** The outputs of the keys. */
  function Targets(maps: seq<Remap>, held: seq<Key>): (r: seq<Key>)
    ensures |r| == |held| && forall i :: 0 <= i < |r| ==> r[i] == Target(maps, held[i])
  {
    seq(|held|, i requires 0 <= i < |held| => Target(maps, held[i]))
  }

  function WithoutAll(held: seq<Key>, keys: seq<Key>): (r: seq<Key>)
    ensures forall x :: x in r <==> x in held && x !in keys
    decreases |keys|
  {
    if keys == [] then held else WithoutAll(Without(held, keys[0]), keys[1..])
  }

  /** What validating forgets and what it releases when no key is down. */
  function Forgotten(m: Machine, isDown: Key -> bool): Machine {
    m.(sequence := Validated(m.sequence, 0, isDown), mightMatch := false)
  }

  lemma {:induction false} AllForgotten(s: KeySequence, isDown: Key -> bool)
    requires forall i :: 0 <= i < |s| ==> IsDeviceKey(s[i].key) && !isDown(s[i].key)
    ensures Validated(s, 0, isDown) == []
    decreases |s|
  {
    if s != [] {
      AllForgotten(Erase(s, 0), isDown);
    }
  }

  lemma {:induction false} AllReleased(maps: seq<Remap>, held: seq<Key>, isDown: Key -> bool)
    requires ValidRemaps(maps) && (forall i :: 0 <= i < |held| ==> IsDeviceKey(held[i]) && !isDown(held[i]))
    ensures ReleasesOfUnheld(EntriesOf(maps, held), isDown) == Events(Targets(maps, held), Up)
    decreases |held|
  {
    hide EntryOf, TriggerKey, Target, IsDeviceKey, ValidRemaps;
    if held != [] {
      EntriesFirst(maps, held);
      EntryTrigger(maps, held[0]);
      EntryKey(maps, held[0]);
      AllReleased(maps, held[1..], isDown);
      FirstRelease(maps, held);
    } else {
      assert EntriesOf(maps, held) == [] && Events(Targets(maps, held), Up) == [];
    }
  }

  lemma FirstRelease(maps: seq<Remap>, held: seq<Key>)
    requires held != []
    ensures [Release(Target(maps, held[0]))] + Events(Targets(maps, held[1..]), Up) == Events(Targets(maps, held), Up)
  {
  }

  lemma EntryKey(maps: seq<Remap>, k: Key)
    requires ValidRemaps(maps) && IsDeviceKey(k)
    ensures EntryOf(maps, k).key == Target(maps, k) && IsDeviceKey(Target(maps, k))
  {
  }

  lemma {:induction false} ReleasesFed(maps: seq<Remap>, m: Machine, down: seq<Key>, output: KeySequence, keys: seq<Key>, elapsed: Value)
    requires ValidRemaps(maps) && Holdable(maps, down) && IsResting(maps, m, [], down, output)
    requires forall i :: 0 <= i < |keys| ==> IsDeviceKey(keys[i])
    ensures Sound(Config(maps), m) && forall i :: 0 <= i < |keys| ==> IsInputEvent(Events(keys, Up)[i])
    ensures IsResting(maps, AfterInputs(Config(maps), m, Events(keys, Up), ANY_DEVICE, elapsed), [], WithoutAll(down, keys),
                      AfterInputs(Config(maps), m, Events(keys, Up), ANY_DEVICE, elapsed).side.ledger.buffer)
    decreases |keys|
  {
    hide Sound, AfterInput, Holdable, IsResting, ValidRemaps, OutputOfRelease, Target;
    NoneDistinct();
    RestingIsSound(maps, m, [], down, output);
    forall i | 0 <= i < |keys| ensures IsInputEvent(Events(keys, Up)[i]) {
      DeviceKeyIsInput(Release(keys[i]));
    }
    if keys == [] {
      RestingOutput(maps, m, [], down, output);
    } else {
      ReleaseProcessed(maps, m, [], down, output, keys[0], ANY_DEVICE, elapsed);
      var next := AfterInput(Config(maps), m, Release(keys[0]), ANY_DEVICE, elapsed).0;
      assert Without([], keys[0]) == [] && Events(keys, Up)[0] == Release(keys[0]) && Events(keys, Up)[1..] == Events(keys[1..], Up);
      ReleasesFed(maps, next, Without(down, keys[0]), output + OutputOfRelease(maps, down, keys[0]), keys[1..], elapsed);
    }
  }

  lemma NoneDistinct()
    ensures DistinctDevices([])
  {
  }

  lemma RestingOutput(maps: seq<Remap>, m: Machine, held: seq<Key>, down: seq<Key>, output: KeySequence)
    requires IsResting(maps, m, held, down, output)
    ensures m.side.ledger.buffer == output
  {
  }

  /** Validating the state after all keys went up unnoticed: the outputs which stay down
      are those of the held keys that are not outputs of held keys themselves. For the
      releases are those of the output keys, and a release only releases what its own
      key holds. */
  lemma ValidationReleases(maps: seq<Remap>, m: Machine, held: seq<Key>, isDown: Key -> bool, elapsed: Value)
    requires ValidRemaps(maps) && Holdable(maps, held) && IsHolding(maps, m, held)
    requires forall i :: 0 <= i < |held| ==> !isDown(held[i])
    ensures var forgotten, releases := Forgotten(m, isDown), ReleasesOfUnheld(m.side.ledger.down, isDown);
      && Sound(Config(maps), forgotten) && (forall i :: 0 <= i < |releases| ==> IsInputEvent(releases[i]))
      && var after := AfterInputs(Config(maps), forgotten, releases, ANY_DEVICE, elapsed);
        after.sequence == [] && after.side.ledger.down == EntriesOf(maps, WithoutAll(held, Targets(maps, held)))
  {
    hide Sound, AfterInputs, Holdable, ValidRemaps, Target, Validated, WithoutAll;
    HoldableIsDistinct(maps, held);
    assert forall i :: 0 <= i < |m.sequence| ==> m.sequence[i].key == held[i];
    AllForgotten(m.sequence, isDown);
    AllReleased(maps, held, isDown);
    forall i | 0 <= i < |held| ensures IsDeviceKey(Target(maps, held[i])) {
      EntryKey(maps, held[i]);
    }
    assert Events([], DownMatched) == [];
    ReleasesFed(maps, Forgotten(m, isDown), held, [], Targets(maps, held), elapsed);
  }

  /** So all outputs go up if and only if every held key is the output of a held key.
      Keys without a mapping are; after the press of A with the mapping `A >> X`, X
      stays down. */
  lemma ValidationReleasesAllIff(maps: seq<Remap>, m: Machine, held: seq<Key>, isDown: Key -> bool, elapsed: Value)
    requires ValidRemaps(maps) && Holdable(maps, held) && IsHolding(maps, m, held)
    requires forall i :: 0 <= i < |held| ==> !isDown(held[i])
    ensures var forgotten, releases := Forgotten(m, isDown), ReleasesOfUnheld(m.side.ledger.down, isDown);
      && Sound(Config(maps), forgotten) && (forall i :: 0 <= i < |releases| ==> IsInputEvent(releases[i]))
      && (AfterInputs(Config(maps), forgotten, releases, ANY_DEVICE, elapsed).side.ledger.down == []
          <==> forall k :: k in held ==> k in Targets(maps, held))
  {
    hide Sound, AfterInputs, Holdable, ValidRemaps, Target, IsHolding, ReleasesOfUnheld, Forgotten, EntryOf;
    ValidationReleases(maps, m, held, isDown, elapsed);
    var rest := WithoutAll(held, Targets(maps, held));
    if rest != [] {
      assert rest[0] in held;
    }
  }

  lemma {:induction false} NotAmong(a: Key, keys: seq<Key>)
    requires a !in keys
    ensures WithoutAll([a], keys) == [a]
    decreases |keys|
  {
    if keys != [] {
      assert Without([a], keys[0]) == [a] by { NothingWithout([a], keys[0]); }
      NotAmong(a, keys[1..]);
    }
  }

  /** With `a >> x` the output x stays down after a went up unnoticed. */
  lemma RemappedOutputSticks(a: Key, x: Key, m: Machine, isDown: Key -> bool, elapsed: Value)
    requires IsDeviceKey(a) && IsDeviceKey(x) && a != x && IsHolding([Remap(a, x)], m, [a]) && !isDown(a)
    ensures var contexts, forgotten, releases := Config([Remap(a, x)]), Forgotten(m, isDown), ReleasesOfUnheld(m.side.ledger.down, isDown);
      && Sound(contexts, forgotten) && (forall i :: 0 <= i < |releases| ==> IsInputEvent(releases[i]))
      && var after := AfterInputs(contexts, forgotten, releases, ANY_DEVICE, elapsed);
        after.sequence == [] && after.side.ledger.down == [OutputDown(x, InputTrigger(Tap(a)), false, false, false, 0)]
  {
    hide Sound, AfterInputs, IsHolding, ReleasesOfUnheld, Forgotten;
    var maps := [Remap(a, x)];
    assert ValidRemaps(maps) && Holdable(maps, [a]) && FindMap(maps, a) == 0;
    ValidationReleases(maps, m, [a], isDown, elapsed);
    assert Targets(maps, [a]) == [x];
    NotAmong(a, [x]);
    assert EntriesOf(maps, [a]) == [EntryOf(maps, a)];
  }
}
