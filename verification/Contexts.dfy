/** The contexts of a stage, which of them are active, and what is notified when
    that changes. `src/runtime/Stage.cpp`: `update_active_contexts`,
    `fallthrough_context`; `src/runtime/Stage.h`: the declarations. */
module Contexts {
  import opened Keys
  import opened Outputs

  datatype Option<+T> = None | Some(value: T)

  /** A mapping: `outputIndex` is the index of an output of its context, or the
      negative index of a command. */
  datatype Input = Input(input: Expression, outputIndex: int)

  datatype CommandOutput = CommandOutput(output: KeySequence, index: int)

  /** The devices a context's filters match. */
  datatype Devices = AllDevices | Some(indices: set<int>)

  datatype Context = Context(
    inputs: seq<Input>,
    outputs: seq<KeySequence>,
    commandOutputs: seq<CommandOutput>,
    hasDeviceFilter: bool,
    devices: Devices,
    modifierFilter: KeySequence,
    invertModifierFilter: bool,
    fallsThrough: bool)

  const MAX_INT := 0x7FFF_FFFF

  /** After a context that falls through there is another one. */
  predicate ChainsEnd(contexts: seq<Context>) {
    && |contexts| < MAX_INT
    && forall i :: 0 <= i < |contexts| && contexts[i].fallsThrough ==> i + 1 < |contexts|
  }

  function Fallthrough(contexts: seq<Context>, i: nat): (r: nat)
    requires ChainsEnd(contexts) && i < |contexts|
    ensures i <= r < |contexts| && !contexts[r].fallsThrough
    ensures forall j :: i <= j < r ==> contexts[j].fallsThrough
    decreases |contexts| - i
  {
    if contexts[i].fallsThrough then Fallthrough(contexts, i + 1) else i
  }

  predicate MatchesModifiers(sequence: KeySequence, filter: KeySequence) {
    forall i :: 0 <= i < |filter| ==> (FindKey(sequence, filter[i].key) >= 0) == (filter[i].state != Not)
  }

  predicate Passes(context: Context, sequence: KeySequence) {
    && MatchesModifiers(sequence, context.modifierFilter) != context.invertModifierFilter
    && (!context.hasDeviceFilter || context.devices.AllDevices? || context.devices.indices != {})
  }

  /** The context a client context stands for. One with a device filter stands for
      itself, because that filter is checked for each event only. */
  function Effective(contexts: seq<Context>, i: nat): (r: nat)
    requires ChainsEnd(contexts) && i < |contexts|
    ensures i <= r < |contexts|
  {
    if contexts[i].hasDeviceFilter then i else Fallthrough(contexts, i)
  }

  predicate ValidIndices(contexts: seq<Context>, indices: seq<int>) {
    forall i :: 0 <= i < |indices| ==> 0 <= indices[i] < |contexts|
  }

  /** The active contexts, appended to `active`. */
  function Activate(contexts: seq<Context>, client: seq<int>, sequence: KeySequence, active: seq<int>): (r: seq<int>)
    requires ChainsEnd(contexts) && ValidIndices(contexts, client) && ValidIndices(contexts, active)
    ensures ValidIndices(contexts, r)
    decreases |client|
  {
    if client == [] then active
    else if !Passes(contexts[client[0]], sequence) then Activate(contexts, client[1..], sequence, active)
    else
      var index := Effective(contexts, client[0]);
      if active == [] || active[|active| - 1] != index
      then Activate(contexts, client[1..], sequence, active + [index])
      else Activate(contexts, client[1..], sequence, active)
  }

  // ---------------------------------------------------------------------------
  // Which contexts are active

  /** A key is down, or not, as a modifier of a filter demands. */
  predicate Demands(sequence: KeySequence, modifier: KeyEvent) {
    if modifier.state == Not then forall j :: 0 <= j < |sequence| ==> sequence[j].key != modifier.key
    else exists j :: 0 <= j < |sequence| && sequence[j].key == modifier.key
  }

  /** The filters of a client context let it through. */
  predicate FiltersHold(context: Context, sequence: KeySequence) {
    && (if context.invertModifierFilter
        then exists i :: 0 <= i < |context.modifierFilter| && !Demands(sequence, context.modifierFilter[i])
        else forall i :: 0 <= i < |context.modifierFilter| ==> Demands(sequence, context.modifierFilter[i]))
    && (context.hasDeviceFilter ==> context.devices != Devices.Some({}))
  }

  /** The client context stands for a context: itself, or without a device filter the
      first one from there on that does not fall through. */
  predicate StandsFor(contexts: seq<Context>, i: int, c: int)
    requires 0 <= i < |contexts|
  {
    if contexts[i].hasDeviceFilter then c == i
    else i <= c < |contexts| && !contexts[c].fallsThrough && forall j :: i <= j < c ==> contexts[j].fallsThrough
  }

  lemma PassesIffFiltersHold(context: Context, sequence: KeySequence)
    ensures Passes(context, sequence) <==> FiltersHold(context, sequence)
  {
    forall m: KeyEvent ensures (FindKey(sequence, m.key) >= 0) == (m.state != Not) <==> Demands(sequence, m) {
    }
  }

  lemma EffectiveStandsFor(contexts: seq<Context>, i: nat, c: int)
    requires ChainsEnd(contexts) && i < |contexts|
    ensures StandsFor(contexts, i, c) <==> c == Effective(contexts, i)
  {
    var r := Fallthrough(contexts, i);
    if !contexts[i].hasDeviceFilter && StandsFor(contexts, i, c) {
      assert !(c < r) && !(r < c);
    }
  }

  lemma {:induction false} ActivateAdds(contexts: seq<Context>, client: seq<int>, sequence: KeySequence, active: seq<int>, c: int)
    requires ChainsEnd(contexts) && ValidIndices(contexts, client) && ValidIndices(contexts, active)
    ensures c in Activate(contexts, client, sequence, active) <==>
      || c in active
      || exists i :: 0 <= i < |client| && StandsFor(contexts, client[i], c) && FiltersHold(contexts[client[i]], sequence)
    decreases |client|
  {
    hide Passes, FiltersHold, StandsFor, Effective;
    if client != [] {
      var rest := client[1..];
      assert forall i :: 0 <= i < |rest| ==> rest[i] == client[i + 1];
      PassesIffFiltersHold(contexts[client[0]], sequence);
      EffectiveStandsFor(contexts, client[0], c);
      var index := Effective(contexts, client[0]);
      var adds := Passes(contexts[client[0]], sequence) && (active == [] || active[|active| - 1] != index);
      ActivateAdds(contexts, rest, sequence, if adds then active + [index] else active, c);
      assert forall i :: 0 < i < |client| ==> client[i] == rest[i - 1];
    }
  }

  /** A context is active if and only if a client context stands for it whose modifier
      filter is met, or is not met when inverted, and whose devices are not empty. A
      filter is met when every modifier has an event in the sequence, and none with
      `!` has one. */
  lemma ActiveIff(contexts: seq<Context>, client: seq<int>, sequence: KeySequence, c: int)
    requires ChainsEnd(contexts) && ValidIndices(contexts, client)
    ensures c in Activate(contexts, client, sequence, []) <==>
      exists i :: 0 <= i < |client| && StandsFor(contexts, client[i], c) && FiltersHold(contexts[client[i]], sequence)
  {
    hide StandsFor, FiltersHold, Activate;
    ActivateAdds(contexts, client, sequence, [], c);
  }

  // ---------------------------------------------------------------------------
  // Notifications

  datatype Notification = Notification(context: int, activated: bool)

  predicate Below(indices: seq<int>) { forall i :: 0 <= i < |indices| ==> 0 <= indices[i] < MAX_INT }

  /** One pass over both lists: the contexts that are only in the previous list,
      or only in the current one. */
  function Toggled(prev: seq<int>, curr: seq<int>, i: nat, j: nat, activated: bool): seq<int>
    requires Below(prev) && Below(curr) && i <= |prev| && j <= |curr|
    decreases |prev| - i + |curr| - j
  {
    if i == |prev| && j == |curr| then []
    else
      var p := if i < |prev| then prev[i] else MAX_INT;
      var c := if j < |curr| then curr[j] else MAX_INT;
      if p < c then (if activated then [] else [p]) + Toggled(prev, curr, i + 1, j, activated)
      else if c < p then (if activated then [c] else []) + Toggled(prev, curr, i, j + 1, activated)
      else Toggled(prev, curr, i + 1, j + 1, activated)
  }

  function Notes(contexts: seq<int>, activated: bool): (r: seq<Notification>)
    ensures |r| == |contexts| && forall i :: 0 <= i < |r| ==> r[i] == Notification(contexts[i], activated)
  {
    seq(|contexts|, i requires 0 <= i < |contexts| => Notification(contexts[i], activated))
  }

  function Notifications(prev: seq<int>, curr: seq<int>): seq<Notification>
    requires Below(prev) && Below(curr)
  {
    Notes(Toggled(prev, curr, 0, 0, false), false) + Notes(Toggled(prev, curr, 0, 0, true), true)
  }

  // ---------------------------------------------------------------------------
  // The active contexts are strictly increasing

  predicate Increasing(indices: seq<int>) {
    forall i, j :: 0 <= i < j < |indices| ==> indices[i] < indices[j]
  }

  predicate Ascending(indices: seq<int>) {
    forall i, j :: 0 <= i < j < |indices| ==> indices[i] <= indices[j]
  }

  /** No client context overtakes a later one by falling through. */
  predicate InOrder(contexts: seq<Context>, client: seq<int>)
    requires ChainsEnd(contexts) && ValidIndices(contexts, client)
  {
    forall i, j :: 0 <= i < j < |client| ==> Effective(contexts, client[i]) <= Effective(contexts, client[j])
  }

  lemma FallthroughMonotone(contexts: seq<Context>, i: nat, j: nat)
    requires ChainsEnd(contexts) && i <= j < |contexts|
    ensures Fallthrough(contexts, i) <= Fallthrough(contexts, j)
  {
  }

  /** Without device filters ascending client contexts are in order. */
  lemma InOrderWithoutDeviceFilters(contexts: seq<Context>, client: seq<int>)
    requires ChainsEnd(contexts) && ValidIndices(contexts, client) && Ascending(client)
    requires forall i :: 0 <= i < |contexts| ==> !contexts[i].hasDeviceFilter
    ensures InOrder(contexts, client)
  {
    forall i, j | 0 <= i < j < |client|
      ensures Effective(contexts, client[i]) <= Effective(contexts, client[j])
    {
      FallthroughMonotone(contexts, client[i], client[j]);
    }
  }

  lemma {:induction false} ActivateIncreases(contexts: seq<Context>, client: seq<int>, sequence: KeySequence, active: seq<int>)
    requires ChainsEnd(contexts) && ValidIndices(contexts, client) && ValidIndices(contexts, active)
    requires InOrder(contexts, client) && Increasing(active)
    requires active != [] && client != [] ==> active[|active| - 1] <= Effective(contexts, client[0])
    ensures Increasing(Activate(contexts, client, sequence, active))
    decreases |client|
  {
    if client != [] {
      var rest := client[1..];
      assert forall i :: 0 <= i < |rest| ==> rest[i] == client[i + 1];
      if Passes(contexts[client[0]], sequence) {
        var index := Effective(contexts, client[0]);
        if active == [] || active[|active| - 1] != index {
          ActivateIncreases(contexts, rest, sequence, active + [index]);
        } else {
          ActivateIncreases(contexts, rest, sequence, active);
        }
      } else {
        ActivateIncreases(contexts, rest, sequence, active);
      }
    }
  }

  // ---------------------------------------------------------------------------
  // What is notified

  function Minus(a: seq<int>, b: seq<int>): seq<int> {
    if a == [] then []
    else (if a[0] in b then [] else [a[0]]) + Minus(a[1..], b)
  }

  lemma {:induction false} MinusSkips(a: seq<int>, b: seq<int>, k: nat)
    requires k <= |b| && forall i, j :: 0 <= i < |a| && 0 <= j < k ==> a[i] != b[j]
    ensures Minus(a, b) == Minus(a, b[k..])
    decreases |a|
  {
    if a != [] {
      assert forall i :: 0 <= i < |a| - 1 ==> a[1..][i] == a[i + 1];
      MinusSkips(a[1..], b, k);
      if a[0] in b {
        var j :| 0 <= j < |b| && b[j] == a[0];
        assert b[k..][j - k] == a[0];
      }
    }
  }

  /** An element smaller than all of the other list is a difference. */
  lemma SmallerDiffers(a: seq<int>, b: seq<int>, i: nat, j: nat)
    requires Increasing(a) && Increasing(b) && i < |a| && j <= |b| && (j < |b| ==> a[i] < b[j])
    ensures Minus(a[i..], b[j..]) == [a[i]] + Minus(a[i + 1..], b[j..])
    ensures Minus(b[j..], a[i..]) == Minus(b[j..], a[i + 1..])
  {
    assert a[i..][0] == a[i] && a[i..][1..] == a[i + 1..];
    SmallerNotIn(a[i], b, j);
    MinusSkips(b[j..], a[i..], 1);
  }

  /** An element of both lists is none. */
  lemma SameDoesNotDiffer(a: seq<int>, b: seq<int>, i: nat, j: nat)
    requires Increasing(a) && Increasing(b) && i < |a| && j < |b| && a[i] == b[j]
    ensures Minus(a[i..], b[j..]) == Minus(a[i + 1..], b[j + 1..])
  {
    assert a[i..][0] == a[i] && a[i..][1..] == a[i + 1..];
    assert b[j..][0] == b[j] && b[j..][1..] == b[j + 1..];
    SmallerNotIn(b[j], a, i + 1);
    MinusSkips(a[i + 1..], b[j..], 1);
  }

  /** The merge of two strictly increasing lists finds exactly the differences. */
  lemma {:induction false} ToggledIsMinus(prev: seq<int>, curr: seq<int>, i: nat, j: nat, activated: bool)
    requires Below(prev) && Below(curr) && i <= |prev| && j <= |curr|
    requires Increasing(prev) && Increasing(curr)
    ensures Toggled(prev, curr, i, j, activated)
      == if activated then Minus(curr[j..], prev[i..]) else Minus(prev[i..], curr[j..])
    decreases |prev| - i + |curr| - j
  {
    if i < |prev| || j < |curr| {
      hide Increasing, Minus;
      var p := if i < |prev| then prev[i] else MAX_INT;
      var c := if j < |curr| then curr[j] else MAX_INT;
      if p < c {
        ToggledIsMinus(prev, curr, i + 1, j, activated);
        SmallerDiffers(prev, curr, i, j);
      } else if c < p {
        ToggledIsMinus(prev, curr, i, j + 1, activated);
        SmallerDiffers(curr, prev, j, i);
      } else {
        ToggledIsMinus(prev, curr, i + 1, j + 1, activated);
        SameDoesNotDiffer(prev, curr, i, j);
        SameDoesNotDiffer(curr, prev, j, i);
      }
    } else {
      assert prev[i..] == [] && curr[j..] == [];
    }
  }

  lemma SmallerNotIn(x: int, s: seq<int>, j: nat)
    requires Increasing(s) && j <= |s| && (j < |s| ==> x < s[j])
    ensures forall i :: 0 <= i < |s[j..]| ==> s[j..][i] != x
  {
  }

  /** First the deactivated contexts are notified, then the activated ones. */
  lemma NotificationsAreDifferences(prev: seq<int>, curr: seq<int>)
    requires Below(prev) && Below(curr) && Increasing(prev) && Increasing(curr)
    ensures Notifications(prev, curr) == Notes(Minus(prev, curr), false) + Notes(Minus(curr, prev), true)
  {
    ToggledIsMinus(prev, curr, 0, 0, false);
    ToggledIsMinus(prev, curr, 0, 0, true);
    assert prev[0..] == prev && curr[0..] == curr;
  }

  /** Only listed contexts are toggled. */
  lemma {:induction false} ToggledListed(prev: seq<int>, curr: seq<int>, i: nat, j: nat, activated: bool)
    requires Below(prev) && Below(curr) && i <= |prev| && j <= |curr|
    ensures forall x :: x in Toggled(prev, curr, i, j, activated) ==> x in prev || x in curr
    decreases |prev| - i + |curr| - j
  {
    if i < |prev| || j < |curr| {
      var p := if i < |prev| then prev[i] else MAX_INT;
      var c := if j < |curr| then curr[j] else MAX_INT;
      if p < c {
        ToggledListed(prev, curr, i + 1, j, activated);
      } else if c < p {
        ToggledListed(prev, curr, i, j + 1, activated);
      } else {
        ToggledListed(prev, curr, i + 1, j + 1, activated);
      }
    }
  }

  // ---------------------------------------------------------------------------
  // Whole runs

  /** All notifications while the active contexts go through these lists. */
  function RunNotifications(actives: seq<seq<int>>): seq<Notification>
    requires forall i :: 0 <= i < |actives| ==> Below(actives[i])
    decreases |actives|
  {
    if |actives| < 2 then []
    else Notifications(actives[0], actives[1]) + RunNotifications(actives[1..])
  }

  /** What is notified about one context. */
  function About(notes: seq<Notification>, context: int): seq<bool> {
    if notes == [] then []
    else (if notes[0].context == context then [notes[0].activated] else []) + About(notes[1..], context)
  }

  /** Activations and deactivations take turns. */
  predicate TakeTurns(changes: seq<bool>, active: bool) {
    if changes == [] then true
    else changes[0] == !active && TakeTurns(changes[1..], changes[0])
  }

  /** Whether a context is active after these changes. */
  function ActiveAfter(changes: seq<bool>, active: bool): bool {
    if changes == [] then active else changes[|changes| - 1]
  }

  lemma {:induction false} AboutSplit(a: seq<Notification>, b: seq<Notification>, context: int)
    ensures About(a + b, context) == About(a, context) + About(b, context)
    decreases |a|
  {
    if a == [] {
      assert a + b == b;
    } else {
      assert (a + b)[1..] == a[1..] + b;
      AboutSplit(a[1..], b, context);
      Associative(if a[0].context == context then [a[0].activated] else [], About(a[1..], context), About(b, context));
    }
  }

  lemma NotesFirst(context: int, others: seq<int>, activated: bool)
    ensures Notes([context] + others, activated) == [Notification(context, activated)] + Notes(others, activated)
  {
  }

  lemma AboutFirst(note: Notification, others: seq<Notification>, context: int)
    ensures About([note] + others, context)
      == (if note.context == context then [note.activated] else []) + About(others, context)
  {
    assert ([note] + others)[1..] == others;
  }

  // ---------------------------------------------------------------------------
  // Taking turns, for any lists: exactly as long as no context is listed twice

  predicate Distinct(indices: seq<int>) {
    forall i, j :: 0 <= i < j < |indices| ==> indices[i] != indices[j]
  }

  function Occurrences(s: seq<int>, x: int): nat { multiset(s)[x] }

  function Repeated(value: bool, n: nat): (r: seq<bool>)
    ensures |r| == n
  {
    if n == 0 then [] else [value] + Repeated(value, n - 1)
  }

  lemma OccursFirst(s: seq<int>, i: nat, x: int)
    requires i < |s|
    ensures Occurrences(s[i..], x) == (if s[i] == x then 1 else 0) + Occurrences(s[i + 1..], x)
  {
    assert s[i..] == [s[i]] + s[i + 1..];
  }

  lemma OccursAppended(a: seq<int>, b: seq<int>, x: int)
    ensures Occurrences(a + b, x) == Occurrences(a, x) + Occurrences(b, x)
  {
  }

  lemma OccursIn(s: seq<int>, x: int)
    ensures x in s <==> Occurrences(s, x) > 0
  {
    assert x in s <==> x in multiset(s);
  }

  /** A list is without repetitions if each element occurs at most once. */
  lemma DistinctIffOnce(s: seq<int>)
    ensures Distinct(s) <==> forall x :: Occurrences(s, x) <= 1
  {
    if Distinct(s) {
      forall x ensures Occurrences(s, x) <= 1 { DistinctOnce(s, x); }
    } else {
      var i, j :| 0 <= i < j < |s| && s[i] == s[j];
      assert s == s[..j] + s[j..];
      assert s[..j][i] == s[i] && s[j..][0] == s[i];
      OccursAppended(s[..j], s[j..], s[i]);
      OccursIn(s[..j], s[i]);
      OccursIn(s[j..], s[i]);
    }
  }

  lemma {:induction false} DistinctOnce(s: seq<int>, x: int)
    requires Distinct(s)
    ensures Occurrences(s, x) <= 1
    decreases |s|
  {
    if s != [] {
      assert s[0..] == s;
      OccursFirst(s, 0, x);
      DistinctOnce(s[1..], x);
      OccursIn(s[1..], x);
    }
  }

  /** The merge counts right even for lists that are not sorted: it deactivates
      nothing that was not listed, and the difference of both passes is the
      difference of the lists. */
  lemma {:induction false} ToggledCounts(prev: seq<int>, curr: seq<int>, i: nat, j: nat, x: int)
    requires Below(prev) && Below(curr) && i <= |prev| && j <= |curr|
    ensures var off := Occurrences(Toggled(prev, curr, i, j, false), x);
      var on := Occurrences(Toggled(prev, curr, i, j, true), x);
      && off <= Occurrences(prev[i..], x)
      && on + Occurrences(prev[i..], x) == off + Occurrences(curr[j..], x)
    decreases |prev| - i + |curr| - j
  {
    hide Occurrences;
    if i == |prev| && j == |curr| {
      assert prev[i..] == [] && curr[j..] == [];
    } else {
      var p := if i < |prev| then prev[i] else MAX_INT;
      var c := if j < |curr| then curr[j] else MAX_INT;
      if p < c {
        OccursFirst(prev, i, x);
        ToggledCounts(prev, curr, i + 1, j, x);
        OneOccurs(p, Toggled(prev, curr, i + 1, j, false), x);
        OneOccurs(p, Toggled(prev, curr, i + 1, j, true), x);
      } else if c < p {
        OccursFirst(curr, j, x);
        ToggledCounts(prev, curr, i, j + 1, x);
        OneOccurs(c, Toggled(prev, curr, i, j + 1, true), x);
        OneOccurs(c, Toggled(prev, curr, i, j + 1, false), x);
      } else {
        OccursFirst(prev, i, x);
        OccursFirst(curr, j, x);
        ToggledCounts(prev, curr, i + 1, j + 1, x);
      }
    }
  }

  lemma OneOccurs(first: int, others: seq<int>, x: int)
    ensures Occurrences([first] + others, x) == (if first == x then 1 else 0) + Occurrences(others, x)
    ensures [] + others == others
  {
  }

  lemma {:induction false} AboutNotes(contexts: seq<int>, activated: bool, context: int)
    ensures About(Notes(contexts, activated), context) == Repeated(activated, Occurrences(contexts, context))
    decreases |contexts|
  {
    hide Notes, About, Occurrences, Repeated;
    if contexts == [] {
      AboutNothing(activated, context);
    } else {
      var rest := contexts[1..];
      var others := Notes(rest, activated);
      assert contexts == [contexts[0]] + rest;
      OneOccurs(contexts[0], rest, context);
      AboutNotes(rest, activated, context);
      NotesFirst(contexts[0], rest, activated);
      AboutFirst(Notification(contexts[0], activated), others, context);
      assert [] + About(others, context) == About(others, context);
      RepeatedFirst(activated, Occurrences(rest, context));
    }
  }

  lemma AboutNothing(activated: bool, context: int)
    ensures About(Notes([], activated), context) == [] == Repeated(activated, Occurrences([], context))
  {
    assert Notes([], activated) == [];
  }

  lemma RepeatedFirst(value: bool, n: nat)
    ensures Repeated(value, n + 1) == [value] + Repeated(value, n)
  {
  }

  /** What one context is told at one change of the active contexts. */
  lemma AboutNotifications(prev: seq<int>, curr: seq<int>, context: int) returns (off: nat, on: nat)
    requires Below(prev) && Below(curr)
    ensures About(Notifications(prev, curr), context) == Repeated(false, off) + Repeated(true, on)
    ensures off <= Occurrences(prev, context) && on + Occurrences(prev, context) == off + Occurrences(curr, context)
  {
    hide Notes, Toggled, About, Occurrences;
    off := Occurrences(Toggled(prev, curr, 0, 0, false), context);
    on := Occurrences(Toggled(prev, curr, 0, 0, true), context);
    ToggledCounts(prev, curr, 0, 0, context);
    assert prev[0..] == prev && curr[0..] == curr;
    AboutSplit(Notes(Toggled(prev, curr, 0, 0, false), false), Notes(Toggled(prev, curr, 0, 0, true), true), context);
    AboutNotes(Toggled(prev, curr, 0, 0, false), false, context);
    AboutNotes(Toggled(prev, curr, 0, 0, true), true, context);
  }

  lemma {:induction false} TurnsSplit(a: seq<bool>, b: seq<bool>, active: bool)
    ensures TakeTurns(a + b, active) <==> TakeTurns(a, active) && TakeTurns(b, ActiveAfter(a, active))
    ensures ActiveAfter(a + b, active) == ActiveAfter(b, ActiveAfter(a, active))
    decreases |a|
  {
    if a == [] {
      assert a + b == b;
    } else {
      assert (a + b)[1..] == a[1..] + b;
      TurnsSplit(a[1..], b, a[0]);
    }
  }

  lemma RepeatedTurns(value: bool, n: nat, active: bool)
    ensures TakeTurns(Repeated(value, n), active) <==> n == 0 || (n == 1 && value != active)
    ensures ActiveAfter(Repeated(value, n), active) == if n == 0 then active else value
  {
    if n >= 2 {
      var all := Repeated(value, n);
      assert all[1..] == Repeated(value, n - 1);
      assert all[0] == value && all[1..][0] == value;
      RepeatedLast(value, n);
    }
  }

  lemma {:induction false} RepeatedLast(value: bool, n: nat)
    requires n > 0
    ensures Repeated(value, n)[n - 1] == value
  {
    if n > 1 { RepeatedLast(value, n - 1); }
  }

  /** A context that was listed at most once is told what it has to be, exactly
      if it is listed at most once now. */
  lemma OneTurn(prev: seq<int>, curr: seq<int>, context: int)
    requires Below(prev) && Below(curr) && Occurrences(prev, context) <= 1
    ensures TakeTurns(About(Notifications(prev, curr), context), context in prev) <==> Occurrences(curr, context) <= 1
    ensures Occurrences(curr, context) <= 1 ==>
      ActiveAfter(About(Notifications(prev, curr), context), context in prev) == (context in curr)
  {
    var off, on := AboutNotifications(prev, curr, context);
    OccursIn(prev, context);
    OccursIn(curr, context);
    hide TakeTurns, ActiveAfter, Occurrences, About, Notifications, Repeated;
    TurnsSplit(Repeated(false, off), Repeated(true, on), context in prev);
    RepeatedTurns(false, off, context in prev);
    RepeatedTurns(true, on, if off == 0 then context in prev else false);
  }

  ghost predicate ListedOnce(actives: seq<seq<int>>, context: int) {
    forall i :: 0 <= i < |actives| ==> Occurrences(actives[i], context) <= 1
  }

  /** Over every run a context that is listed at most once in the beginning is
      told Down, Up, Down, ... in turns exactly if it is never listed twice; and
      then it was last told whether it is active in the end. */
  lemma {:induction false} NotificationsTakeTurns(actives: seq<seq<int>>, context: int)
    requires forall i :: 0 <= i < |actives| ==> Below(actives[i])
    requires actives != [] && Occurrences(actives[0], context) <= 1
    ensures TakeTurns(About(RunNotifications(actives), context), context in actives[0]) <==> ListedOnce(actives, context)
    ensures ListedOnce(actives, context) ==>
      ActiveAfter(About(RunNotifications(actives), context), context in actives[0]) == (context in actives[|actives| - 1])
    decreases |actives|
  {
    hide Below, Occurrences, Notifications;
    if |actives| >= 2 {
      var prev, curr, later := actives[0], actives[1], actives[1..];
      assert forall i :: 0 <= i < |later| ==> later[i] == actives[i + 1];
      assert ListedOnce(actives, context) <==> Occurrences(curr, context) <= 1 && ListedOnce(later, context) by {
        assert forall i :: 0 < i < |actives| ==> actives[i] == later[i - 1];
      }
      if Occurrences(curr, context) <= 1 {
        NotificationsTakeTurns(later, context);
      }
      OneTurn(prev, curr, context);
      hide About, TakeTurns, ActiveAfter, ListedOnce;
      AboutSplit(Notifications(prev, curr), RunNotifications(later), context);
      assert RunNotifications(actives) == Notifications(prev, curr) + RunNotifications(later);
      hide RunNotifications;
      TurnsSplit(About(Notifications(prev, curr), context), About(RunNotifications(later), context), context in prev);
    }
  }

  /** All contexts are notified in turns if and only if no list repeats one. */
  lemma AllTakeTurnsIffDistinct(actives: seq<seq<int>>)
    requires forall i :: 0 <= i < |actives| ==> Below(actives[i])
    requires actives != [] && Distinct(actives[0])
    ensures (forall c :: TakeTurns(About(RunNotifications(actives), c), c in actives[0]))
      <==> forall i :: 0 <= i < |actives| ==> Distinct(actives[i])
  {
    hide TakeTurns, About, RunNotifications, Below, Distinct, Occurrences;
    DistinctIffOnce(actives[0]);
    forall c
      ensures TakeTurns(About(RunNotifications(actives), c), c in actives[0]) <==> ListedOnce(actives, c)
    {
      NotificationsTakeTurns(actives, c);
    }
    forall i | 0 <= i < |actives|
      ensures Distinct(actives[i]) <==> forall c :: Occurrences(actives[i], c) <= 1
    {
      DistinctIffOnce(actives[i]);
    }
    if forall c :: ListedOnce(actives, c) {
      forall i | 0 <= i < |actives| ensures Distinct(actives[i]) {
        forall c ensures Occurrences(actives[i], c) <= 1 { assert ListedOnce(actives, c); }
      }
    }
  }

  // ---------------------------------------------------------------------------
  // When no context is listed twice

  /** The contexts which the passing client contexts stand for. */
  function Standing(contexts: seq<Context>, client: seq<int>, sequence: KeySequence): seq<int>
    requires ChainsEnd(contexts) && ValidIndices(contexts, client)
    decreases |client|
  {
    if client == [] then []
    else
      var first := if Passes(contexts[client[0]], sequence) then [Effective(contexts, client[0])] else [];
      first + Standing(contexts, client[1..], sequence)
  }

  /** Nothing stands between two equal elements but the same. */
  predicate Contiguous(s: seq<int>) {
    forall i, j, k :: 0 <= i < j < k < |s| && s[i] == s[k] ==> s[j] == s[i]
  }

  /** Which contexts get active does not depend on the others in between, so a
      context is listed twice exactly if another one overtakes it: if a passing
      client context stands between two others that stand for the same context,
      for which it does not stand itself. */
  lemma ActivatesDistinctIff(contexts: seq<Context>, client: seq<int>, sequence: KeySequence)
    requires ChainsEnd(contexts) && ValidIndices(contexts, client)
    ensures Distinct(Activate(contexts, client, sequence, [])) <==> Contiguous(Standing(contexts, client, sequence))
  {
    var standing := Standing(contexts, client, sequence);
    assert [] + standing == standing;
    ActivateMoreDistinctIff(contexts, client, sequence, []);
  }

  lemma {:induction false} ActivateMoreDistinctIff(contexts: seq<Context>, client: seq<int>, sequence: KeySequence, active: seq<int>)
    requires ChainsEnd(contexts) && ValidIndices(contexts, client) && ValidIndices(contexts, active) && Distinct(active)
    ensures Distinct(Activate(contexts, client, sequence, active))
      <==> Contiguous(active + Standing(contexts, client, sequence))
    decreases |client|
  {
    hide Passes, Contiguous, ChainsEnd;
    if client == [] {
      assert active + [] == active;
      DistinctIsContiguous(active);
    } else {
      var rest := client[1..];
      var later := Standing(contexts, rest, sequence);
      if Passes(contexts[client[0]], sequence) {
        var index := Effective(contexts, client[0]);
        Associative(active, [index], later);
        if active == [] || active[|active| - 1] != index {
          if index in active {
            hide Distinct;
            ActivateExtends(contexts, rest, sequence, active + [index]);
            ListedAgain(active, index, Activate(contexts, rest, sequence, active + [index]), later);
          } else {
            ActivateMoreDistinctIff(contexts, rest, sequence, active + [index]);
          }
        } else {
          ActivateMoreDistinctIff(contexts, rest, sequence, active);
          hide Distinct, Activate;
          RepeatedIsContiguous(active, later);
        }
      } else {
        assert [] + later == later;
        ActivateMoreDistinctIff(contexts, rest, sequence, active);
      }
    }
  }

  lemma DistinctIsContiguous(s: seq<int>)
    requires Distinct(s)
    ensures Contiguous(s)
  {
  }

  lemma ListedAgain(active: seq<int>, index: int, all: seq<int>, later: seq<int>)
    requires index in active && active[|active| - 1] != index
    requires |active| < |all| && all[..|active| + 1] == active + [index]
    ensures !Distinct(all) && !Contiguous(active + [index] + later)
  {
    var i :| 0 <= i < |active| && active[i] == index;
    assert all[..|active| + 1][i] == all[i] && all[..|active| + 1][|active|] == all[|active|];
    var s := active + [index] + later;
    assert s[i] == s[|active|] == index && s[|active| - 1] == active[|active| - 1];
  }

  /** An element in a row does not matter. */
  lemma RepeatedIsContiguous(active: seq<int>, later: seq<int>)
    requires active != []
    ensures Contiguous(active + [active[|active| - 1]] + later) <==> Contiguous(active + later)
  {
    var n := |active|;
    var s, t := active + later, active + [active[n - 1]] + later;
    forall i, j, k | 0 <= i < j < k < |s| && s[i] == s[k] && Contiguous(t) ensures s[j] == s[i] {
      var x := if i < n then i else i + 1;
      var y := if j < n then j else j + 1;
      var z := if k < n then k else k + 1;
      assert t[x] == s[i] && t[y] == s[j] && t[z] == s[k];
    }
    forall i, j, k | 0 <= i < j < k < |t| && t[i] == t[k] && Contiguous(s) ensures t[j] == t[i] {
      var x := if i < n then i else i - 1;
      var y := if j < n then j else j - 1;
      var z := if k < n then k else k - 1;
      assert s[x] == t[i] && s[y] == t[j] && s[z] == t[k];
    }
  }

  lemma {:induction false} ActivateExtends(contexts: seq<Context>, client: seq<int>, sequence: KeySequence, active: seq<int>)
    requires ChainsEnd(contexts) && ValidIndices(contexts, client) && ValidIndices(contexts, active)
    ensures var all := Activate(contexts, client, sequence, active);
      |active| <= |all| && all[..|active|] == active
    decreases |client|
  {
    hide Passes, ChainsEnd;
    if client != [] {
      if Passes(contexts[client[0]], sequence) {
        var index := Effective(contexts, client[0]);
        if active == [] || active[|active| - 1] != index {
          ActivateExtends(contexts, client[1..], sequence, active + [index]);
          assert (active + [index])[..|active|] == active;
        } else {
          ActivateExtends(contexts, client[1..], sequence, active);
        }
      } else {
        ActivateExtends(contexts, client[1..], sequence, active);
      }
    }
  }

  /** What the contexts were activated for. */
  datatype Activation = Activation(client: seq<int>, sequence: KeySequence)

  ghost predicate ActivatedBy(contexts: seq<Context>, run: seq<seq<int>>, activations: seq<Activation>) {
    && ChainsEnd(contexts)
    && |run| == |activations| + 1
    && forall i :: 0 <= i < |activations| ==>
         && ValidIndices(contexts, activations[i].client) && Ascending(activations[i].client)
         && run[i + 1] == Activate(contexts, activations[i].client, activations[i].sequence, [])
  }

  /** No passing client context overtakes one that stands for the same context
      as one before it. */
  predicate NoneOvertakes(contexts: seq<Context>, activation: Activation)
    requires ChainsEnd(contexts) && ValidIndices(contexts, activation.client)
  {
    Contiguous(Standing(contexts, activation.client, activation.sequence))
  }

  ghost predicate NothingOvertook(contexts: seq<Context>, activations: seq<Activation>) {
    && ChainsEnd(contexts)
    && forall i :: 0 <= i < |activations| ==>
         ValidIndices(contexts, activations[i].client) && NoneOvertakes(contexts, activations[i])
  }

  /** Every context was told Down, Up, Down, ... in turns, from inactive on. */
  ghost predicate AllTakeTurns(notes: seq<Notification>) { forall c :: TakeTurns(About(notes, c), false) }

  /** Over every run from no active context all contexts are notified in turns if
      and only if nothing ever overtakes. */
  lemma RunTakesTurnsIff(contexts: seq<Context>, run: seq<seq<int>>, activations: seq<Activation>)
    requires ActivatedBy(contexts, run, activations) && run[0] == []
    requires forall i :: 0 <= i < |run| ==> Below(run[i])
    ensures AllTakeTurns(RunNotifications(run)) <==> NothingOvertook(contexts, activations)
  {
    hide TakeTurns, About, RunNotifications, Below, Activate, Contiguous, Standing, ChainsEnd, Ascending, Distinct;
    assert Distinct(run[0]) by { DistinctIffOnce([]); }
    AllTakeTurnsIffDistinct(run);
    forall i | 0 <= i < |activations|
      ensures Distinct(run[i + 1]) <==> NoneOvertakes(contexts, activations[i])
    {
      ActivatesDistinctIff(contexts, activations[i].client, activations[i].sequence);
    }
    hide NoneOvertakes;
    if NothingOvertook(contexts, activations) {
      forall i | 0 <= i < |run| ensures Distinct(run[i]) {
        if i > 0 { assert NoneOvertakes(contexts, activations[i - 1]); }
      }
    }
    if AllTakeTurns(RunNotifications(run)) {
      forall i | 0 <= i < |activations| ensures NoneOvertakes(contexts, activations[i]) {
        assert Distinct(run[i + 1]);
      }
    }
  }

  /** And then the last each context was told is whether it is active. */
  lemma RunEndsActive(contexts: seq<Context>, run: seq<seq<int>>, activations: seq<Activation>, context: int)
    requires ActivatedBy(contexts, run, activations) && run[0] == []
    requires forall i :: 0 <= i < |run| ==> Below(run[i])
    requires NothingOvertook(contexts, activations)
    ensures ActiveAfter(About(RunNotifications(run), context), false) == (context in run[|run| - 1])
  {
    hide TakeTurns, About, RunNotifications, Below, Activate, Contiguous, Standing, ChainsEnd, Ascending, ActiveAfter;
    forall i | 0 <= i < |run| ensures Occurrences(run[i], context) <= 1 {
      if i > 0 {
        ActivatesDistinctIff(contexts, activations[i - 1].client, activations[i - 1].sequence);
        DistinctOnce(run[i], context);
      }
    }
    NotificationsTakeTurns(run, context);
  }

  /** Without device filters nothing overtakes. */
  lemma NothingOvertakesWithoutDeviceFilters(contexts: seq<Context>, run: seq<seq<int>>, activations: seq<Activation>)
    requires ActivatedBy(contexts, run, activations)
    requires forall i :: 0 <= i < |contexts| ==> !contexts[i].hasDeviceFilter
    ensures NothingOvertook(contexts, activations)
  {
    hide Activate, Standing, Contiguous;
    forall i | 0 <= i < |activations| ensures NoneOvertakes(contexts, activations[i]) {
      var client, sequence := activations[i].client, activations[i].sequence;
      InOrderWithoutDeviceFilters(contexts, client);
      ActivateIncreases(contexts, client, sequence, []);
      ActivatesDistinctIff(contexts, client, sequence);
    }
  }

  /** With device filters a later context can overtake: here the contexts 0 and 2
      both stand for 2 while 1 stands for itself. Context 2 is then listed, and
      told about its activation, twice in a row. */
  lemma DeviceFiltersBreakTurns(contexts: seq<Context>, sequence: KeySequence)
    requires |contexts| == 3
    requires contexts[0].fallsThrough && contexts[1].fallsThrough && !contexts[2].fallsThrough
    requires !contexts[0].hasDeviceFilter && contexts[1].hasDeviceFilter && !contexts[2].hasDeviceFilter
    requires forall i :: 0 <= i < 3 ==> Passes(contexts[i], sequence)
    ensures Activate(contexts, [0, 1, 2], sequence, []) == [2, 1, 2]
    ensures !TakeTurns(About(RunNotifications([[], [2, 1, 2]]), 2), false)
  {
    hide About, RunNotifications, Toggled;
    assert Fallthrough(contexts, 0) == Fallthrough(contexts, 1) == Fallthrough(contexts, 2) == 2;
    assert [0, 1, 2][1..] == [1, 2] && [1, 2][1..] == [2] && [2][1..] == [];
    assert [] + [2] == [2] && [2] + [1] == [2, 1] && [2, 1] + [2] == [2, 1, 2];
    TwiceNotified();
  }

  lemma TwiceNotified()
    ensures !TakeTurns(About(RunNotifications([[], [2, 1, 2]]), 2), false)
  {
    hide About, Toggled, Notifications;
    var actives: seq<seq<int>> := [[], [2, 1, 2]];
    ToggledAll();
    var notes := [Notification(2, true), Notification(1, true), Notification(2, true)];
    assert actives[1..] == [[2, 1, 2]];
    assert RunNotifications(actives) == notes + [] == notes;
    AboutTwice();
    assert [true, true][1..] == [true];
  }

  lemma AboutTwice()
    ensures About([Notification(2, true), Notification(1, true), Notification(2, true)], 2) == [true, true]
  {
    var notes := [Notification(2, true), Notification(1, true), Notification(2, true)];
    assert notes[1..] == [Notification(1, true), Notification(2, true)];
    assert notes[1..][1..] == [Notification(2, true)];
    assert [Notification(2, true)][1..] == [];
    assert About(notes[1..], 2) == [] + About([Notification(2, true)], 2) == [true];
  }

  lemma ToggledAll()
    ensures Notifications([], [2, 1, 2]) == [Notification(2, true), Notification(1, true), Notification(2, true)]
  {
    var prev: seq<int> := [];
    var curr := [2, 1, 2];
    assert Toggled(prev, curr, 0, 3, true) == [];
    assert Toggled(prev, curr, 0, 2, true) == [2];
    assert Toggled(prev, curr, 0, 1, true) == [1, 2];
    assert Toggled(prev, curr, 0, 0, true) == [2, 1, 2];
    assert Toggled(prev, curr, 0, 3, false) == [];
    assert Toggled(prev, curr, 0, 2, false) == [];
    assert Toggled(prev, curr, 0, 1, false) == [];
    assert Toggled(prev, curr, 0, 0, false) == [];
  }
}
