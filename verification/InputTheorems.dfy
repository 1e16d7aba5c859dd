/** What one input event, and a run of them, does with presses and releases:
    `apply_input` of `src/runtime/Stage.cpp`. */
module InputTheorems {
  import opened Keys
  import opened Matcher
  import opened Outputs
  import opened InputSequence
  import opened Contexts
  import opened Mappings
  import opened StageModel
  import H = History

  // ---------------------------------------------------------------------------
  // A release does not match its own press again

  predicate HasPress(s: KeySequence, k: Key) {
    exists i :: 0 <= i < |s| && s[i].key == k && s[i].IsPress()
  }

  lemma TakenRelease(contexts: seq<Context>, m: Machine, event: KeyEvent, device: int, elapsed: Value)
    requires Sound(contexts, m) && IsInputEvent(event) && event.state == Up && event.key != TIMEOUT
    ensures var (taken, ignored) := Taken(contexts, m, event, device, elapsed);
      !ignored && taken.sequence == m.sequence + [event] && taken.mightMatch == m.mightMatch
  {
    hide SeqInv, H.HistoryInv, ValidConfig, WithHistory, ContinueSide, SwallowTimeout;
    SwallowsTimeouts(ContinueSide(m.side, event, -1, m.Env()).timeout, event);
  }

  lemma SearchedSequence(contexts: seq<Context>, m: Machine, event: KeyEvent)
    requires Sound(contexts, m)
    ensures var s := Searching(contexts, m, event).sequence;
      event.state == Up ==> exists matched :: s == ReleasedIn(m.sequence, event.key, matched, m.mightMatch)
    ensures event.state != Up ==> Searching(contexts, m, event).sequence == m.sequence
  {
    hide SeqInv, H.HistoryInv, ValidConfig, WithContexts, ReleasedIn, Unsuppressed;
    var matched := TimeoutMatched(WithContexts(contexts, m).side.timeout);
    assert event.state == Up ==>
      (Searching(contexts, m, event).sequence == ReleasedIn(m.sequence, event.key, matched, m.mightMatch));
  }

  lemma SamePresses(s: KeySequence, event: KeyEvent, matched: bool)
    requires event.state == Up
    ensures var t := if matched then AllMatched(s + [event]) else s + [event];
      && |t| == |s| + 1 && t[|s|] == event
      && (forall i :: 0 <= i < |s| ==> t[i].key == s[i].key && (t[i].IsPress() <==> s[i].IsPress()))
      && (forall i :: 0 <= i < |s| && s[i].state == DownMatched ==> t[i] == s[i])
  {
  }

  lemma HasPressPointwise(s: KeySequence, t: KeySequence, k: Key)
    requires |s| <= |t| && forall i :: 0 <= i < |s| ==> t[i].key == s[i].key && (t[i].IsPress() <==> s[i].IsPress())
    requires forall i :: |s| <= i < |t| ==> !t[i].IsPress()
    ensures HasPress(s, k) <==> HasPress(t, k)
  {
    if HasPress(s, k) {
      var i :| 0 <= i < |s| && s[i].key == k && s[i].IsPress();
      assert t[i].key == k && t[i].IsPress();
    }
  }

  /** The press of a released key stays exactly if the sequence is held back. */
  lemma PressIsGone(s: KeySequence, event: KeyEvent, matched: bool, mightMatch: bool)
    requires SeqInv(s) && event.state == Up && event.key != TIMEOUT && (HasNonOptional(s) ==> mightMatch)
    ensures HasPress(ReleasedIn(s + [event], event.key, matched, mightMatch), event.key) <==> mightMatch && HasPress(s, event.key)
  {
    hide AllMatched, SeqInv, HasPress, HasNonOptional;
    var t := if matched then AllMatched(s + [event]) else s + [event];
    SamePresses(s, event, matched);
    if mightMatch {
      HasPressPointwise(s, t, event.key);
    } else {
      OnlyPressGoes(s, t, event);
    }
  }

  lemma OnlyPressGoes(s: KeySequence, t: KeySequence, event: KeyEvent)
    requires SeqInv(s) && !HasNonOptional(s) && event.state == Up && event.key != TIMEOUT
    requires |t| == |s| + 1 && t[|s|] == event
    requires forall i :: 0 <= i < |s| ==> t[i].key == s[i].key && (s[i].state == DownMatched ==> t[i] == s[i])
    requires forall i :: 0 <= i < |s| ==> (t[i].IsPress() <==> s[i].IsPress())
    ensures !HasPress(WithoutMatchedPress(t, event.key), event.key)
  {
    var k := event.key;
    var r, it := WithoutMatchedPress(t, k), FindKey(t, k);
    forall i | 0 <= i < |s| && s[i].key == k ensures t[i].state == DownMatched && i == it {
      assert !s[i].IsNonOptional();
      OnePress(s, it, i);
    }
    assert forall i :: 0 <= i < |r| ==> r[i] == t[if it < |s| && i >= it then i + 1 else i];
  }

  lemma PressesAreReleased(s: KeySequence, i: nat, j: nat)
    requires SeqInv(s) && i < j < |s| && s[i].key == s[j].key && s[i].IsPress() && s[j].IsPress()
    ensures HasNonOptional(s)
  {
    assert Released(s, i, j);
    var m :| i < m < j && s[m].key == s[j].key && s[m].state == Up;
    assert s[m].IsNonOptional();
  }

  /** When all is matched there is at most one event of a key, a press. */
  lemma OnePress(s: KeySequence, i: int, j: nat)
    requires SeqInv(s) && j < |s| && s[j].key != TIMEOUT && !HasNonOptional(s)
    requires 0 <= i <= j && s[i].key == s[j].key
    ensures i == j && s[j].state == DownMatched
  {
    assert !s[i].IsNonOptional() && !s[j].IsNonOptional();
    if i < j {
      PressesAreReleased(s, i, j);
    }
  }

  /** When a key is released, a press of it takes part in the search for mappings if
      and only if the sequence is held back and has one. */
  lemma ReleasedPressIsSearchedIff(contexts: seq<Context>, m: Machine, event: KeyEvent, device: int, elapsed: Value)
    requires Sound(contexts, m) && m.Processed()
    requires IsInputEvent(event) && event.state == Up && event.key != TIMEOUT
    ensures var (taken, ignored) := Taken(contexts, m, event, device, elapsed);
      !ignored
      && (HasPress(Searching(contexts, taken, event).sequence, event.key) <==> m.mightMatch && HasPress(m.sequence, event.key))
  {
    hide Sound, Taken, Searching, ReleasedIn, HasPress;
    SoundSequence(contexts, m);
    TakenRelease(contexts, m, event, device, elapsed);
    var taken := Taken(contexts, m, event, device, elapsed).0;
    SearchedSequence(contexts, taken, event);
    var matched :| Searching(contexts, taken, event).sequence == ReleasedIn(taken.sequence, event.key, matched, m.mightMatch);
    PressIsGone(m.sequence, event, matched, m.mightMatch);
  }

  lemma SoundSequence(contexts: seq<Context>, m: Machine)
    requires Sound(contexts, m)
    ensures SeqInv(m.sequence)
  {
  }

  // ---------------------------------------------------------------------------
  // The rounds of one input

  /** The sequences which the rounds search. */
  function Searched(contexts: seq<Context>, m: Machine, event: KeyEvent, device: int, optional: bool): seq<KeySequence>
    requires Sound(contexts, m) && IsInputEvent(event)
    decreases Weight(m.sequence) + (if optional then 0 else 1)
  {
    hide Sound, Round, Weight;
    if !HasNonOptional(m.sequence) then []
    else
      var r := Round(contexts, m, event, device, optional);
      RoundKeeps(contexts, m, event, device, optional);
      [m.sequence] + (if r.done then [] else Searched(contexts, r.m, event, device, r.optional))
  }

  lemma EraseAddsNoPress(s: KeySequence, i: nat, k: Key)
    requires i < |s| && !HasPress(s, k)
    ensures !HasPress(Erase(s, i), k)
  {
    assert forall j :: 0 <= j < |s| - 1 ==> Erase(s, i)[j] == s[if j < i then j else j + 1];
  }

  lemma {:induction false} FinishAddsNoPress(s: KeySequence, i: nat, length: nat, k: Key)
    requires i <= length <= |s| && !HasPress(s, k)
    ensures !HasPress(Finish(s, i, length), k)
    decreases length - i
  {
    if i < length {
      if s[i].IsPress() {
        if UpFollows(s, i) {
          EraseAddsNoPress(s, i, k);
          FinishAddsNoPress(Erase(s, i), i, length - 1, k);
        } else {
          FinishAddsNoPress(s[i := s[i].(state := DownMatched)], i + 1, length, k);
        }
      } else if s[i].key == TIMEOUT {
        FinishAddsNoPress(s[i := s[i].(state := UpMatched)], i + 1, length, k);
      } else {
        EraseAddsNoPress(s, i, k);
        FinishAddsNoPress(Erase(s, i), i, length - 1, k);
      }
    }
  }

  lemma ForwardedAddsNoPress(s: KeySequence, k: Key)
    requires !HasPress(s, k)
    ensures !HasPress(Forwarded(s), k)
  {
    var i := FirstUnsettled(s, 0);
    if i < |s| {
      if s[i].IsPress() && !UpFollows(s, i) {
        var r := s[i := s[i].(state := DownMatched)];
        assert forall j :: 0 <= j < |s| ==> r[j].key == s[j].key && (r[j].IsPress() <==> s[j].IsPress());
      } else {
        EraseAddsNoPress(s, i, k);
      }
    }
  }

  lemma RoundAddsNoPress(contexts: seq<Context>, m: Machine, event: KeyEvent, device: int, optional: bool, k: Key)
    requires Sound(contexts, m) && HasNonOptional(m.sequence) && IsInputEvent(event) && !HasPress(m.sequence, k)
    ensures !HasPress(Round(contexts, m, event, device, optional).m.sequence, k)
  {
    hide Sound, Decide, HasPress, Finish, Forwarded, ChooseTrigger, ApplySide, Drops, HasNonOptional, Requested;
    DecisionIsValid(contexts, m, optional, device, IsVirtualKey(event.key));
    ForwardedAddsNoPress(m.sequence, k);
    match Decide(SearchOf(contexts, m, optional, device), m.mightMatch, IsVirtualKey(event.key))
    case GiveUp => FinishAddsNoPress(m.sequence, 0, |m.sequence|, k);
    case Output(n, _, _) => FinishAddsNoPress(m.sequence, 0, n, k);
    case _ =>
  }

  lemma {:induction false} NoPressSearched(contexts: seq<Context>, m: Machine, event: KeyEvent, device: int, optional: bool, k: Key)
    requires Sound(contexts, m) && IsInputEvent(event) && !HasPress(m.sequence, k)
    ensures forall s :: s in Searched(contexts, m, event, device, optional) ==> !HasPress(s, k)
    decreases Weight(m.sequence) + (if optional then 0 else 1)
  {
    hide Sound, Round, Weight, HasPress;
    if HasNonOptional(m.sequence) {
      RoundKeeps(contexts, m, event, device, optional);
      RoundAddsNoPress(contexts, m, event, device, optional, k);
      var r := Round(contexts, m, event, device, optional);
      if !r.done {
        NoPressSearched(contexts, r.m, event, device, r.optional, k);
      }
    }
  }

  /** So when nothing is held back, the release of a key is matched without any press
      of the key, in every round: a mapping that needs the press cannot match again. */
  lemma ReleaseMatchesWithoutPress(contexts: seq<Context>, m: Machine, event: KeyEvent, device: int, elapsed: Value)
    requires Sound(contexts, m) && m.Processed() && !m.mightMatch
    requires IsInputEvent(event) && event.state == Up && event.key != TIMEOUT
    ensures var taken := Taken(contexts, m, event, device, elapsed).0;
      forall s :: s in Searched(contexts, Searching(contexts, taken, event), event, device, false) ==> !HasPress(s, event.key)
  {
    hide Sound, Taken, Searching, Searched, HasPress;
    ReleasedPressIsSearchedIff(contexts, m, event, device, elapsed);
    NoPressSearched(contexts, Searching(contexts, Taken(contexts, m, event, device, elapsed).0, event), event, device, false, event.key);
  }

  // ---------------------------------------------------------------------------
  // Every input leads to at most one output or forwarded event

  function One(event: KeyEvent): nat { if event.IsNonOptional() then 1 else 0 }

  /** The number of Up and Down events: those which are not matched yet. */
  function Unmatched(s: KeySequence): nat {
    if s == [] then 0 else One(s[0]) + Unmatched(s[1..])
  }

  lemma {:induction false} UnmatchedSum(a: KeySequence, b: KeySequence)
    ensures Unmatched(a + b) == Unmatched(a) + Unmatched(b)
    decreases |a|
  {
    if a == [] {
      assert a + b == b;
    } else {
      assert (a + b)[1..] == a[1..] + b;
      UnmatchedSum(a[1..], b);
    }
  }

  lemma UnmatchedAt(s: KeySequence, i: nat)
    requires i < |s|
    ensures Unmatched(s) == Unmatched(s[..i]) + One(s[i]) + Unmatched(s[i + 1..])
  {
    SplitAround(s, i);
    UnmatchedSum(s[..i], [s[i]] + s[i + 1..]);
    assert ([s[i]] + s[i + 1..])[1..] == s[i + 1..];
  }

  lemma UnmatchedErase(s: KeySequence, i: nat)
    requires i < |s|
    ensures Unmatched(Erase(s, i)) == Unmatched(s) - One(s[i])
  {
    UnmatchedAt(s, i);
    UnmatchedSum(s[..i], s[i + 1..]);
  }

  lemma UnmatchedUpdate(s: KeySequence, i: nat, event: KeyEvent)
    requires i < |s|
    ensures Unmatched(s[i := event]) == Unmatched(s) - One(s[i]) + One(event)
  {
    UnmatchedAt(s, i);
    UnmatchedAt(s[i := event], i);
    assert s[i := event][..i] == s[..i] && s[i := event][i + 1..] == s[i + 1..];
  }

  lemma {:induction false} FinishMatches(s: KeySequence, i: nat, length: nat)
    requires i <= length <= |s|
    ensures Unmatched(Finish(s, i, length)) <= Unmatched(s)
    ensures (exists j :: i <= j < length && s[j].IsNonOptional()) ==> Unmatched(Finish(s, i, length)) < Unmatched(s)
    decreases length - i
  {
    hide UpFollows, Unmatched;
    if i < length {
      var matched := s[i].(state := if s[i].IsPress() then DownMatched else UpMatched);
      if (s[i].IsPress() && !UpFollows(s, i)) || (!s[i].IsPress() && s[i].key == TIMEOUT) {
        var r := s[i := matched];
        UnmatchedUpdate(s, i, matched);
        FinishMatches(r, i + 1, length);
        assert forall j :: i + 1 <= j < length ==> r[j] == s[j];
      } else {
        var r := Erase(s, i);
        UnmatchedErase(s, i);
        FinishMatches(r, i, length - 1);
        assert forall j :: i + 1 <= j < length ==> r[j - 1] == s[j];
      }
    }
  }

  /** Forwarding forwards an Up or Down event, rather than one that matched before. */
  predicate ForwardsNew(s: KeySequence) {
    var i := FirstUnsettled(s, 0);
    i < |s| && s[i].IsNonOptional()
  }

  lemma ForwardMatches(s: KeySequence)
    ensures Unmatched(Forwarded(s)) <= Unmatched(s)
    ensures ForwardsNew(s) ==> Unmatched(Forwarded(s)) < Unmatched(s)
  {
    hide UpFollows, Unmatched;
    var i := FirstUnsettled(s, 0);
    if i < |s| {
      UnmatchedErase(s, i);
      UnmatchedUpdate(s, i, s[i].(state := DownMatched));
    }
  }

  /** The round applies an output or forwards an event that was not matched before. */
  predicate Acts(contexts: seq<Context>, m: Machine, event: KeyEvent, device: int, optional: bool)
    requires Sound(contexts, m) && HasNonOptional(m.sequence)
  {
    match Decide(SearchOf(contexts, m, optional, device), m.mightMatch, IsVirtualKey(event.key))
    case Output(_, selection, _) => !Drops(m.side.timeout, event, selection.output) || ForwardsNew(m.sequence)
    case ForwardFirst => ForwardsNew(m.sequence)
    case _ => false
  }

  /** How often the rounds of one input act. */
  function Actions(contexts: seq<Context>, m: Machine, event: KeyEvent, device: int, optional: bool): nat
    requires Sound(contexts, m) && IsInputEvent(event)
    decreases Weight(m.sequence) + (if optional then 0 else 1)
  {
    hide Sound, Round, Weight, Acts;
    if !HasNonOptional(m.sequence) then 0
    else
      var r := Round(contexts, m, event, device, optional);
      RoundKeeps(contexts, m, event, device, optional);
      (if Acts(contexts, m, event, device, optional) then 1 else 0)
      + (if r.done then 0 else Actions(contexts, r.m, event, device, r.optional))
  }

  lemma RoundMatches(contexts: seq<Context>, m: Machine, event: KeyEvent, device: int, optional: bool)
    requires Sound(contexts, m) && HasNonOptional(m.sequence) && IsInputEvent(event)
    ensures Unmatched(Round(contexts, m, event, device, optional).m.sequence)
         <= Unmatched(m.sequence) - (if Acts(contexts, m, event, device, optional) then 1 else 0)
  {
    hide Sound, Decide, Finish, Forwarded, ChooseTrigger, ApplySide, Drops, HasNonOptional, Requested, Unmatched, ForwardsNew;
    DecisionIsValid(contexts, m, optional, device, IsVirtualKey(event.key));
    ForwardMatches(m.sequence);
    match Decide(SearchOf(contexts, m, optional, device), m.mightMatch, IsVirtualKey(event.key))
    case GiveUp => FinishMatches(m.sequence, 0, |m.sequence|);
    case Output(n, _, _) => FinishMatches(m.sequence, 0, n);
    case _ =>
  }

  lemma {:induction false} RoundsMatch(contexts: seq<Context>, m: Machine, event: KeyEvent, device: int, optional: bool)
    requires Sound(contexts, m) && IsInputEvent(event)
    ensures Actions(contexts, m, event, device, optional) + Unmatched(Rounds(contexts, m, event, device, optional).sequence)
         <= Unmatched(m.sequence)
    decreases Weight(m.sequence) + (if optional then 0 else 1)
  {
    hide Sound, Round, Weight, Acts, Unmatched;
    if HasNonOptional(m.sequence) {
      RoundKeeps(contexts, m, event, device, optional);
      RoundMatches(contexts, m, event, device, optional);
      var r := Round(contexts, m, event, device, optional);
      if !r.done {
        RoundsMatch(contexts, r.m, event, device, r.optional);
      }
    }
  }

  /** The same for a whole input. */
  function InputActions(contexts: seq<Context>, m: Machine, event: KeyEvent, device: int, elapsed: Value): nat
    requires Sound(contexts, m) && IsInputEvent(event)
  {
    hide Sound, Taken, Searching, Actions;
    var (taken, ignored) := Taken(contexts, m, event, device, elapsed);
    if ignored then 0 else Actions(contexts, Searching(contexts, taken, event), event, device, false)
  }

  lemma {:induction false} AllMatchedMatches(s: KeySequence)
    ensures Unmatched(AllMatched(s)) <= Unmatched(s)
    decreases |s|
  {
    if s != [] {
      assert AllMatched(s)[1..] == AllMatched(s[1..]);
      AllMatchedMatches(s[1..]);
    }
  }

  lemma ReleasedInMatches(s: KeySequence, k: Key, matched: bool, mightMatch: bool)
    ensures Unmatched(ReleasedIn(s, k, matched, mightMatch)) <= Unmatched(s)
  {
    hide AllMatched, Unmatched;
    AllMatchedMatches(s);
    var t := if matched then AllMatched(s) else s;
    var i := FindKey(t, k);
    if i >= 0 {
      UnmatchedErase(t, i);
    }
  }

  lemma TakenAddsOne(contexts: seq<Context>, m: Machine, event: KeyEvent, device: int, elapsed: Value)
    requires Sound(contexts, m) && IsInputEvent(event)
    ensures var (taken, ignored) := Taken(contexts, m, event, device, elapsed);
      Unmatched(taken.sequence) <= Unmatched(m.sequence) + (if ignored then 0 else 1)
  {
    hide SeqInv, H.HistoryInv, ValidConfig, GoodOnRelease, WithHistory, ContinueSide, SwallowTimeout, Unmatched, IgnoresRepeat, IsRepeat;
    if IsRepeat(m.sequence, event.key) {
      RepeatIsThere(m.sequence, event.key);
      UnmatchedErase(m.sequence, RFindKey(m.sequence, event.key));
    }
    UnmatchedSum(Merged(m.sequence, event), [event]);
    UnmatchedOne(event);
  }

  lemma RepeatIsThere(s: KeySequence, k: Key)
    requires IsRepeat(s, k)
    ensures 0 <= RFindKey(s, k) < |s|
  {
  }

  lemma UnmatchedOne(event: KeyEvent)
    ensures Unmatched([event]) <= 1
  {
  }

  lemma {:induction false} TidiedMatches(s: KeySequence)
    ensures Unmatched(WithoutMatchedTimeouts(s)) <= Unmatched(s)
    decreases |s|
  {
    if s != [] && s[0].state == UpMatched {
      TidiedMatches(s[1..]);
    }
  }

  lemma EndedMatches(contexts: seq<Context>, m: Machine, event: KeyEvent)
    requires Sound(contexts, m)
    ensures Unmatched(Ended(contexts, m, event).sequence) <= Unmatched(m.sequence)
  {
    hide SeqInv, H.HistoryInv, ValidConfig, GoodOnRelease, WithContexts, WithoutMatchedTimeouts, H.CleanUp, Blocking, ReleaseSide, Unmatched;
    TidiedMatches(m.sequence);
  }

  /** An input acts at most as often as events become matched. */
  lemma InputMatches(contexts: seq<Context>, m: Machine, event: KeyEvent, device: int, elapsed: Value)
    requires Sound(contexts, m) && IsInputEvent(event)
    ensures InputActions(contexts, m, event, device, elapsed) + Unmatched(AfterInput(contexts, m, event, device, elapsed).0.sequence)
         <= Unmatched(m.sequence) + (if AfterInput(contexts, m, event, device, elapsed).1 then 0 else 1)
  {
    hide Sound, Taken, Searching, Rounds, Ended, Actions, Unmatched, ReleasedIn;
    var (taken, ignored) := Taken(contexts, m, event, device, elapsed);
    TakenAddsOne(contexts, m, event, device, elapsed);
    if !ignored {
      var searching := Searching(contexts, taken, event);
      SearchedSequence(contexts, taken, event);
      if event.state == Up {
        var matched :| searching.sequence == ReleasedIn(taken.sequence, event.key, matched, taken.mightMatch);
        ReleasedInMatches(taken.sequence, event.key, matched, taken.mightMatch);
      }
      RoundsMatch(contexts, searching, event, device, false);
      RoundsKeep(contexts, searching, event, device, false);
      EndedMatches(contexts, Rounds(contexts, searching, event, device, false), event);
    }
  }

  /** So without a held back sequence each input leads to at most one output of a
      mapping or one forwarded event. */
  lemma AtMostOneAction(contexts: seq<Context>, m: Machine, event: KeyEvent, device: int, elapsed: Value)
    requires Sound(contexts, m) && IsInputEvent(event) && !HasNonOptional(m.sequence)
    ensures InputActions(contexts, m, event, device, elapsed) <= 1
  {
    hide Sound, InputActions, AfterInput;
    NoneUnmatched(m.sequence);
    InputMatches(contexts, m, event, device, elapsed);
  }

  lemma {:induction false} NoneUnmatched(s: KeySequence)
    requires !HasNonOptional(s)
    ensures Unmatched(s) == 0
    decreases |s|
  {
    if s != [] {
      assert !s[0].IsNonOptional();
      RestHasNonOptional(s);
      NoneUnmatched(s[1..]);
    }
  }

  /** An event which a stage receives. */
  datatype Fed = Fed(event: KeyEvent, device: int, elapsed: Value)

  function RunActions(contexts: seq<Context>, m: Machine, run: seq<Fed>): nat
    requires Sound(contexts, m) && forall i :: 0 <= i < |run| ==> IsInputEvent(run[i].event)
    decreases |run|
  {
    hide Sound, InputActions, AfterInput;
    if run == [] then 0
    else
      var (event, device, elapsed) := (run[0].event, run[0].device, run[0].elapsed);
      InputActions(contexts, m, event, device, elapsed)
      + RunActions(contexts, AfterInput(contexts, m, event, device, elapsed).0, run[1..])
  }

  /** Over every run, also with sequences that are held back: there are at most as
      many outputs of mappings and forwarded events as there were events. So every
      press is matched at most once as a new one. */
  lemma {:induction false} ActionsOfRun(contexts: seq<Context>, m: Machine, run: seq<Fed>)
    requires Sound(contexts, m) && forall i :: 0 <= i < |run| ==> IsInputEvent(run[i].event)
    ensures RunActions(contexts, m, run) <= Unmatched(m.sequence) + |run|
    decreases |run|
  {
    hide Sound, InputActions, AfterInput, Unmatched;
    if run != [] {
      InputMatches(contexts, m, run[0].event, run[0].device, run[0].elapsed);
      ActionsOfRun(contexts, AfterInput(contexts, m, run[0].event, run[0].device, run[0].elapsed).0, run[1..]);
    }
  }

  // ---------------------------------------------------------------------------
  // Repeats

  /** While a key is down that a device pressed last, repeats of that device are taken
      unless the sequence might match; those of any other device are ignored, except for
      the one that repeated last, and for events that come from no device. */
  lemma RepeatsComeFromOneDevice(m: Machine, next: Machine, k: Key, device: int, other: int)
    requires device >= 0 && other != device && !IsRepeat(m.sequence, k) && IsRepeat(next.sequence, k)
    requires (next.pressedDevice, next.repeatDevice) == TrackedDevices(m, Press(k), device)
    ensures IgnoresRepeat(next, Press(k), device) <==> next.mightMatch
    ensures IgnoresRepeat(next, Press(k), other) <==> next.mightMatch || (other != NO_DEVICE && other != m.repeatDevice)
    ensures TrackedDevices(next, Press(k), device) == (device, if next.mightMatch then next.repeatDevice else device)
  {
    hide IsRepeat;
  }

  /** An event which is ignored changes neither the sequence nor what is output. */
  lemma IgnoredChangesNothing(contexts: seq<Context>, m: Machine, event: KeyEvent, device: int, elapsed: Value)
    requires Sound(contexts, m) && IsInputEvent(event) && event.state == Down && event.key != TIMEOUT
    ensures var (taken, ignored) := Taken(contexts, m, event, device, elapsed);
      && (ignored ==> taken.sequence == m.sequence && taken.side == m.side && taken.history == m.history)
      && (ignored <==> FindOnRelease(m.side.onRelease, event.key, -1) >= 0 || IgnoresRepeat(m, event, device))
      && (!ignored ==> taken.sequence != [] && taken.sequence[|taken.sequence| - 1] == event
                       && HasPress(taken.sequence, event.key))
  {
    hide SeqInv, H.HistoryInv, ValidConfig, WithHistory, FindOnRelease, Merged, IgnoresRepeat, TrackedDevices;
    var (taken, ignored) := Taken(contexts, m, event, device, elapsed);
    if !ignored {
      var n := |taken.sequence| - 1;
      assert taken.sequence[n] == event;
    }
  }

  // ---------------------------------------------------------------------------
  // The history

  /** Events of devices are recorded as soon as some input has a `?`, unless they repeat
      the state of their key; otherwise nothing is. */
  lemma HistoryIsRecorded(contexts: seq<Context>, h: KeySequence, event: KeyEvent, elapsed: Value, c: nat, i: nat)
    requires IsDeviceKey(event.key) && event.IsNonOptional()
    ensures c < |contexts| && i < |contexts[c].inputs| && contexts[c].inputs[i].input[0].state == NoMightMatch ==>
      var after := WithHistory(contexts, h, event, elapsed);
      if KeyIsDown(h, event.key) == (event.state == Down) then after == h
      else after != [] && after[|after| - 1] == event && KeyIsDown(after, event.key) == (event.state == Down)
    ensures !HasMarkedInput(contexts) ==> WithHistory(contexts, h, event, elapsed) == h
  {
    if c < |contexts| && i < |contexts[c].inputs| && contexts[c].inputs[i].input[0].state == NoMightMatch {
      assert HasMarkedInput(contexts);
      LastOfKey(h, event.key);
      var after := WithHistory(contexts, h, event, elapsed);
      LastOfKey(after, event.key);
      if !H.IsDuplicate(h, event) {
        assert after[|after| - 1] == event;
      }
    }
  }

  /** The last event of the key is a press. */
  predicate KeyIsDown(h: KeySequence, k: Key) {
    exists i :: 0 <= i < |h| && h[i].key == k && h[i].state == Down && forall j :: i < j < |h| ==> h[j].key != k
  }

  lemma LastOfKey(h: KeySequence, k: Key)
    ensures KeyIsDown(h, k) <==> RFindKey(h, k) >= 0 && h[RFindKey(h, k)].state == Down
  {
    if KeyIsDown(h, k) {
      var i :| 0 <= i < |h| && h[i].key == k && h[i].state == Down && forall j :: i < j < |h| ==> h[j].key != k;
      var r := RFindKey(h, k);
      assert r == i by { assert h[i].key == k; }
    }
  }

  /** A history that begins with a press is kept as a whole while an input with `?` of an
      active context might still match it. */
  lemma HistoryIsKept(contexts: seq<Context>, active: seq<int>, h: RealEvents, n: nat, i: nat)
    requires ValidIndices(contexts, active) && h != [] && h[0].state == Down
    requires n < |active| && i < |contexts[active[n]].inputs|
    requires var input := contexts[active[n]].inputs[i].input;
      input[0].state == NoMightMatch && |input| > 1 && Matching(input[1..], h, true).result == MightMatch
    ensures H.CleanUp(h, Blocking(contexts, active)) == h
  {
    hide Matching;
    assert BlocksInput(contexts[active[n]].inputs[i].input, h);
    assert Blocks(contexts, active, h);
    hide Blocks;
    assert Blocking(contexts, active)(h);
  }

  /** Otherwise the press at its front goes, together with its release, and the next one
      is up for the same decision. */
  lemma HistoryIsShortened(h: KeySequence, blocks: KeySequence -> bool)
    requires h != [] && h[0].state == Down && HasEvent(h, h[0].key, Up) && !blocks(h) && !IsCommonModifier(h[0].key)
    ensures exists i :: 0 < i < |h| && h[i].key == h[0].key && h[i].state == Up
              && H.CleanUp(h, blocks) == H.CleanUp(Erase(h[1..], i - 1), blocks)
  {
    var j :| 0 <= j < |h| && h[j].key == h[0].key && h[j].state == Up;
    assert h[1..][j - 1] == h[j];
    var up := FindEvent(h[1..], h[0].key, Up);
    assert HasEvent(h[1..], h[0].key, Up);
    assert h[1..][up] == h[up + 1];
  }
}
