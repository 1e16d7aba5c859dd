/** Which mapping an input selects, and which output that means.
    `src/runtime/Stage.cpp`: `sort_command_outputs`, `find_output`,
    `match_input` and the search for the longest matching prefix. */
module Mappings {
  import opened Keys
  import opened Matcher
  import opened Outputs
  import opened Contexts

  // ---------------------------------------------------------------------------
  // Command outputs

  /** `std::sort` by descending index. */
  function Sorted(outputs: seq<CommandOutput>): seq<CommandOutput> {
    if outputs == [] then []
    else Insert(outputs[0], Sorted(outputs[1..]))
  }

  function Insert(output: CommandOutput, outputs: seq<CommandOutput>): seq<CommandOutput> {
    if outputs == [] || output.index > outputs[0].index then [output] + outputs
    else [outputs[0]] + Insert(output, outputs[1..])
  }

  predicate Descending(outputs: seq<CommandOutput>) {
    forall i, j :: 0 <= i < j < |outputs| ==> outputs[i].index >= outputs[j].index
  }

  lemma {:induction false} InsertKeeps(output: CommandOutput, outputs: seq<CommandOutput>)
    ensures multiset(Insert(output, outputs)) == multiset(outputs) + multiset{output}
    decreases |outputs|
  {
    if outputs != [] && output.index <= outputs[0].index {
      InsertKeeps(output, outputs[1..]);
      assert outputs == [outputs[0]] + outputs[1..];
    }
  }

  lemma {:induction false} InsertSorts(output: CommandOutput, outputs: seq<CommandOutput>)
    requires Descending(outputs)
    ensures Descending(Insert(output, outputs))
    decreases |outputs|
  {
    if outputs != [] && output.index <= outputs[0].index {
      var rest := Insert(output, outputs[1..]);
      InsertSorts(output, outputs[1..]);
      forall i | 0 <= i < |rest| ensures outputs[0].index >= rest[i].index {
        InsertedOrGiven(output, outputs[1..], i);
      }
    }
  }

  lemma {:induction false} SortedSorts(outputs: seq<CommandOutput>)
    ensures Descending(Sorted(outputs)) && multiset(Sorted(outputs)) == multiset(outputs)
    decreases |outputs|
  {
    if outputs != [] {
      SortedSorts(outputs[1..]);
      InsertSorts(outputs[0], Sorted(outputs[1..]));
      InsertKeeps(outputs[0], Sorted(outputs[1..]));
      assert outputs == [outputs[0]] + outputs[1..];
    }
  }

  /** Sorting keeps distinct indices distinct. */
  lemma {:induction false} SortedDistinct(outputs: seq<CommandOutput>)
    requires DistinctCommands(outputs)
    ensures DistinctCommands(Sorted(outputs))
    decreases |outputs|
  {
    if outputs != [] {
      var rest := outputs[1..];
      SortedDistinct(rest);
      SortedSorts(rest);
      forall i | 0 <= i < |Sorted(rest)| ensures Sorted(rest)[i].index != outputs[0].index {
        assert Sorted(rest)[i] in multiset(rest);
      }
      InsertDistinct(outputs[0], Sorted(rest));
    }
  }

  lemma {:induction false} InsertDistinct(output: CommandOutput, outputs: seq<CommandOutput>)
    requires DistinctCommands(outputs) && forall i :: 0 <= i < |outputs| ==> outputs[i].index != output.index
    ensures DistinctCommands(Insert(output, outputs))
    decreases |outputs|
  {
    if outputs != [] && output.index <= outputs[0].index {
      var rest := Insert(output, outputs[1..]);
      InsertDistinct(output, outputs[1..]);
      forall i | 0 <= i < |rest| ensures outputs[0].index != rest[i].index {
        InsertedOrGiven(output, outputs[1..], i);
      }
    }
  }

  lemma InsertedOrGiven(output: CommandOutput, outputs: seq<CommandOutput>, i: nat)
    requires i < |Insert(output, outputs)|
    ensures Insert(output, outputs)[i] == output || Insert(output, outputs)[i] in outputs
  {
    InsertKeeps(output, outputs);
    assert Insert(output, outputs)[i] in multiset(Insert(output, outputs));
  }

  function SortCommandOutputs(contexts: seq<Context>): (r: seq<Context>)
    ensures |r| == |contexts|
    ensures forall i :: 0 <= i < |r| ==> r[i] == contexts[i].(commandOutputs := Sorted(contexts[i].commandOutputs))
  {
    seq(|contexts|, i requires 0 <= i < |contexts| =>
      contexts[i].(commandOutputs := Sorted(contexts[i].commandOutputs)))
  }

  /** The position `std::lower_bound` finds in the reversed list. */
  predicate IsLowerBound(outputs: seq<CommandOutput>, index: int, n: nat) {
    && n <= |outputs|
    && (forall i :: |outputs| - n <= i < |outputs| ==> outputs[i].index < index)
    && (forall i :: 0 <= i < |outputs| - n ==> outputs[i].index >= index)
  }

  method LowerBound(outputs: seq<CommandOutput>, index: int) returns (n: nat)
    requires Descending(outputs)
    ensures IsLowerBound(outputs, index, n)
  {
    var lo, hi := 0, |outputs|;
    while lo < hi
      invariant 0 <= lo <= hi <= |outputs|
      invariant forall i :: |outputs| - lo <= i < |outputs| ==> outputs[i].index < index
      invariant forall i :: 0 <= i < |outputs| - hi ==> outputs[i].index >= index
    {
      var mid := (lo + hi) / 2;
      if outputs[|outputs| - 1 - mid].index < index {
        lo := mid + 1;
      } else {
        hi := mid;
      }
    }
    n := lo;
  }

  /** The last command output with this index, or -1. */
  function CommandAt(outputs: seq<CommandOutput>, index: int): (r: int)
    ensures -1 <= r < |outputs|
    ensures r >= 0 ==> outputs[r].index == index && forall i :: r < i < |outputs| ==> outputs[i].index != index
    ensures r < 0 ==> forall i :: 0 <= i < |outputs| ==> outputs[i].index != index
  {
    if outputs == [] then -1
    else if outputs[|outputs| - 1].index == index then |outputs| - 1
    else CommandAt(outputs[..|outputs| - 1], index)
  }

  /** An output of the configuration, identified by its place. */
  datatype OutputRef = Direct(context: nat, index: nat) | Command(context: nat, index: nat)

  predicate ValidRef(contexts: seq<Context>, ref: OutputRef) {
    && ref.context < |contexts|
    && match ref
       case Direct(c, i) => i < |contexts[c].outputs|
       case Command(c, i) => i < |contexts[c].commandOutputs|
  }

  function OutputAt(contexts: seq<Context>, ref: OutputRef): KeySequence
    requires ValidRef(contexts, ref)
  {
    match ref
    case Direct(c, i) => contexts[c].outputs[i]
    case Command(c, i) => contexts[c].commandOutputs[i].output
  }

  /** The last of the first `n` active contexts which maps a command. */
  function FindCommand(contexts: seq<Context>, active: seq<int>, n: nat, index: int): (r: Option<OutputRef>)
    requires ChainsEnd(contexts) && ValidIndices(contexts, active) && n <= |active|
    ensures r.Some? ==> ValidRef(contexts, r.value)
  {
    if n == 0 then None
    else
      var c := Fallthrough(contexts, active[n - 1]);
      var i := CommandAt(contexts[c].commandOutputs, index);
      if i >= 0 then Option.Some(Command(c, i)) else FindCommand(contexts, active, n - 1, index)
  }

  predicate ValidOutputIndices(contexts: seq<Context>) {
    forall c, i :: 0 <= c < |contexts| && 0 <= i < |contexts[c].inputs| ==>
      contexts[c].inputs[i].outputIndex < |contexts[c].outputs|
  }

  function FindOutput(contexts: seq<Context>, active: seq<int>, context: nat, index: int): (r: Option<OutputRef>)
    requires ChainsEnd(contexts) && ValidIndices(contexts, active)
    requires context < |contexts| && index < |contexts[context].outputs|
    ensures r.Some? ==> ValidRef(contexts, r.value)
  {
    if index >= 0 then Option.Some(Direct(context, index)) else FindCommand(contexts, active, |active|, index)
  }

  /** Every command is mapped at most once in a context. */
  predicate DistinctCommands(outputs: seq<CommandOutput>) {
    forall i, j :: 0 <= i < j < |outputs| ==> outputs[i].index != outputs[j].index
  }

  /** The first command output with this index, as written in the configuration. */
  function Scan(outputs: seq<CommandOutput>, index: int): Option<KeySequence> {
    if outputs == [] then None
    else if outputs[0].index == index then Option.Some(outputs[0].output)
    else Scan(outputs[1..], index)
  }

  /** What the last of the first `n` active contexts that maps the command, with
      fallthrough, outputs for it. */
  function ScanContexts(contexts: seq<Context>, active: seq<int>, n: nat, index: int): Option<KeySequence>
    requires ChainsEnd(contexts) && ValidIndices(contexts, active) && n <= |active|
  {
    if n == 0 then None
    else
      var found := Scan(contexts[Fallthrough(contexts, active[n - 1])].commandOutputs, index);
      if found.Some? then found else ScanContexts(contexts, active, n - 1, index)
  }

  lemma {:induction false} SameFallthrough(contexts: seq<Context>, i: nat)
    requires ChainsEnd(contexts) && i < |contexts|
    ensures ChainsEnd(SortCommandOutputs(contexts))
    ensures Fallthrough(SortCommandOutputs(contexts), i) == Fallthrough(contexts, i)
    decreases |contexts| - i
  {
    var sorted := SortCommandOutputs(contexts);
    if contexts[i].fallsThrough {
      SameFallthrough(contexts, i + 1);
    }
  }

  /** The binary search in the sorted outputs finds what a scan of the
      configuration finds. */
  lemma {:induction false} FindCommandRefinesScan(contexts: seq<Context>, active: seq<int>, n: nat, index: int)
    requires ChainsEnd(contexts) && ValidIndices(contexts, active) && n <= |active|
    requires forall c :: 0 <= c < |contexts| ==> DistinctCommands(contexts[c].commandOutputs)
    ensures ChainsEnd(SortCommandOutputs(contexts))
    ensures var sorted := SortCommandOutputs(contexts);
      var r := FindCommand(sorted, active, n, index);
      ScanContexts(contexts, active, n, index) == if r.None? then None else Option.Some(OutputAt(sorted, r.value))
  {
    hide Sorted, Scan, CommandAt;
    var sorted := SortCommandOutputs(contexts);
    assert ChainsEnd(sorted);
    if n > 0 {
      SameFallthrough(contexts, active[n - 1]);
      CommandAtFinds(contexts[Fallthrough(contexts, active[n - 1])].commandOutputs, index);
      FindCommandRefinesScan(contexts, active, n - 1, index);
    }
  }

  /** In the sorted list exactly the output with the index is found. */
  lemma CommandAtFinds(outputs: seq<CommandOutput>, index: int)
    requires DistinctCommands(outputs)
    ensures var i := CommandAt(Sorted(outputs), index);
      Scan(outputs, index) == if i < 0 then None else Option.Some(Sorted(outputs)[i].output)
  {
    SortedSorts(outputs);
    var sorted := Sorted(outputs);
    var i := CommandAt(sorted, index);
    if i >= 0 {
      assert sorted[i] in multiset(sorted);
      var j :| 0 <= j < |outputs| && outputs[j] == sorted[i];
      ScanFinds(outputs, index, j);
    } else {
      forall j | 0 <= j < |outputs| ensures outputs[j].index != index {
        assert outputs[j] in multiset(sorted);
      }
      ScanFails(outputs, index);
    }
  }

  lemma {:induction false} ScanFinds(outputs: seq<CommandOutput>, index: int, j: nat)
    requires DistinctCommands(outputs) && j < |outputs| && outputs[j].index == index
    ensures Scan(outputs, index) == Option.Some(outputs[j].output)
    decreases |outputs|
  {
    if j > 0 {
      ScanFinds(outputs[1..], index, j - 1);
    }
  }

  lemma {:induction false} ScanFails(outputs: seq<CommandOutput>, index: int)
    requires forall j :: 0 <= j < |outputs| ==> outputs[j].index != index
    ensures Scan(outputs, index) == None
    decreases |outputs|
  {
    if outputs != [] {
      ScanFails(outputs[1..], index);
    }
  }

  // ---------------------------------------------------------------------------
  // match_input

  predicate IsNoMightMatchInput(input: KeySequence) { input != [] && input[0].state == NoMightMatch }

  /** A `?` has something behind it. */
  predicate ProperInput(input: KeySequence) { IsNoMightMatchInput(input) ==> |input| > 1 }

  datatype Selection = Selection(
    result: MatchResult,
    output: Option<OutputRef>,
    trigger: Option<Expression>,
    context: nat,
    timeout: KeyEvent)

  const NOTHING := Selection(NoMatch, None, None, 0, NO_EVENT)

  /** What a search depends on. */
  datatype Search = Search(
    contexts: seq<Context>,
    active: seq<int>,
    history: RealEvents,
    sequence: RealEvents,
    first: bool,
    matchedAreOptional: bool,
    device: int)
  {
    predicate Valid() {
      ChainsEnd(contexts) && ValidIndices(contexts, active) && ValidOutputIndices(contexts)
    }

    /** Inputs with `?` are matched with the history, in the first search, and
        only for events of a device. */
    predicate Skips(input: Expression) {
      IsNoMightMatchInput(input) && (!first || history == [] || device == ANY_DEVICE)
    }

    function Match(input: Expression): Outcome {
      Matching(input, if IsNoMightMatchInput(input) then history else sequence, matchedAreOptional)
    }

    /** What one mapping of context `c` makes of the input, if anything. */
    function Try(c: nat, input: Input): (r: Option<Selection>)
      requires Valid() && c < |contexts| && input.outputIndex < |contexts[c].outputs|
    {
      if Skips(input.input) then None
      else
        var outcome := Match(input.input);
        if first && !IsNoMightMatchInput(input.input) && outcome.result == MightMatch then
          Option.Some(Selection(MightMatch, None, Option.Some(input.input), c, outcome.timeout))
        else if outcome.result == MatchResult.Match then
          var output := FindOutput(contexts, active, c, input.outputIndex);
          if output.Some? then
            Option.Some(Selection(MatchResult.Match, output, Option.Some(input.input), c, NO_EVENT))
          else None
        else None
    }

    function InContext(c: nat, i: nat): (r: Option<Selection>)
      requires Valid() && c < |contexts| && i <= |contexts[c].inputs|
      decreases |contexts[c].inputs| - i
    {
      if i == |contexts[c].inputs| then None
      else
        var selected := Try(c, contexts[c].inputs[i]);
        if selected.Some? then selected else InContext(c, i + 1)
    }

    /** What the matcher leaves as the keys unified with Any: those of the last
        mapping that was tried. */
    function KeysInContext(c: nat, i: nat, keys: seq<Key>): seq<Key>
      requires Valid() && c < |contexts| && i <= |contexts[c].inputs|
      decreases |contexts[c].inputs| - i
    {
      if i == |contexts[c].inputs| then keys
      else
        var left := KeysTried(contexts[c].inputs[i].input, keys);
        if Try(c, contexts[c].inputs[i]).Some? then left else KeysInContext(c, i + 1, left)
    }

    function KeysTried(input: Expression, keys: seq<Key>): seq<Key> {
      if Skips(input) then keys else Match(input).anyKeys
    }

    function KeysFrom(n: nat, keys: seq<Key>): seq<Key>
      requires Valid() && n <= |active|
      decreases |active| - n
    {
      if n == |active| then keys
      else if !MatchesDevice(contexts[active[n]], device) then KeysFrom(n + 1, keys)
      else
        var c := Fallthrough(contexts, active[n]);
        var left := KeysInContext(c, 0, keys);
        if InContext(c, 0).Some? then left else KeysFrom(n + 1, left)
    }

    function From(n: nat): Selection
      requires Valid() && n <= |active|
      decreases |active| - n
    {
      if n == |active| then NOTHING
      else if !MatchesDevice(contexts[active[n]], device) then From(n + 1)
      else
        var selected := InContext(Fallthrough(contexts, active[n]), 0);
        if selected.Some? then selected.value else From(n + 1)
    }

    /** The selected mapping: the first one in the order of the active contexts and
        their inputs that makes something of the input. */
    function Select(): Selection
      requires Valid()
    {
      From(0)
    }
  }

  /** A single active context is searched only for events of its devices: of any one if it
      has no filter, and always for events that stand for all devices. */
  lemma DeviceDecides(search: Search, c: nat)
    requires search.Valid() && c < |search.contexts| && search.active == [c]
    ensures var context := search.contexts[c];
      var found := search.InContext(Fallthrough(search.contexts, c), 0);
      search.Select() ==
        if search.device != ANY_DEVICE && context.devices.Some? && (search.device == NO_DEVICE || search.device !in context.devices.indices)
        then NOTHING
        else if found.Some? then found.value else NOTHING
  {
    assert search.From(1) == NOTHING;
  }

  /** An input with `?` is matched with the history, in the first search of an event that
      comes from a device or none, and with no sequence. */
  lemma MarkedIsMatchedWithHistory(search: Search, other: Search, c: nat, input: Input)
    requires search.Valid() && c < |search.contexts| && input.outputIndex < |search.contexts[c].outputs|
    requires IsNoMightMatchInput(input.input)
    ensures !search.first || search.device == ANY_DEVICE || search.history == [] ==> search.Try(c, input) == None
    ensures other.Valid() && other == search.(sequence := other.sequence) ==> other.Try(c, input) == search.Try(c, input)
    ensures search.Try(c, input).Some? ==>
      Matching(input.input, search.history, search.matchedAreOptional).result == MatchResult.Match && search.Try(c, input).value.result == MatchResult.Match
  {
    hide Matching;
  }

  const NO_DEVICE := -1
  const ANY_DEVICE := -2

  predicate MatchesDevice(context: Context, device: int) {
    || device == ANY_DEVICE
    || context.devices.AllDevices?
    || (device != NO_DEVICE && device in context.devices.indices)
  }

  // ---------------------------------------------------------------------------
  // The longest matching prefix

  /** The search in the first `n` events of a held back sequence. */
  function InPrefix(s: Search, n: nat): Search
    requires n <= |s.sequence|
  {
    s.(sequence := s.sequence[..n], first := false, matchedAreOptional := true)
  }

  /** The longest prefix, shorter than `n`, which still has an Up or Down event
      and matches a mapping: its length, or 0. Shortening stops at the first
      prefix without such an event. */
  function LongestPrefix(s: Search, n: nat): (r: nat)
    requires s.Valid() && n <= |s.sequence|
    ensures r <= |s.sequence|
    decreases n
  {
    if n <= 1 || !HasNonOptional(s.sequence[..n - 1]) then 0
    else if InPrefix(s, n - 1).Select().result == MatchResult.Match then n - 1
    else LongestPrefix(s, n - 1)
  }

  /** The keys unified with Any after the search for that prefix. */
  function KeysOfPrefixes(s: Search, n: nat, keys: seq<Key>): seq<Key>
    requires s.Valid() && n <= |s.sequence|
    decreases n
  {
    if n <= 1 || !HasNonOptional(s.sequence[..n - 1]) then keys
    else
      var left := InPrefix(s, n - 1).KeysFrom(0, keys);
      if InPrefix(s, n - 1).Select().result == MatchResult.Match then left else KeysOfPrefixes(s, n - 1, left)
  }

  predicate Candidate(s: Search, m: nat)
    requires s.Valid() && m <= |s.sequence|
  {
    m > 0 && HasNonOptional(s.sequence[..m]) && InPrefix(s, m).Select().result == MatchResult.Match
  }

  /** It is the longest proper prefix with an Up or Down event that matches. */
  lemma {:induction false} LongestPrefixIsLongest(s: Search, n: nat)
    requires s.Valid() && n <= |s.sequence|
    ensures var r := LongestPrefix(s, n);
      && (r > 0 ==> r < n && Candidate(s, r))
      && forall m :: r < m < n ==> !Candidate(s, m)
    decreases n
  {
    hide Search.Select;
    if n > 1 {
      if !HasNonOptional(s.sequence[..n - 1]) {
        forall m | 0 < m < n ensures !HasNonOptional(s.sequence[..m]) {
          forall i | 0 <= i < m ensures !s.sequence[..m][i].IsNonOptional() {
            assert s.sequence[..m][i] == s.sequence[..n - 1][i];
          }
        }
      } else if InPrefix(s, n - 1).Select().result != MatchResult.Match {
        LongestPrefixIsLongest(s, n - 1);
      }
    }
  }

  /** The mapping at input `i` of the n-th active context. */
  predicate Reaches(s: Search, n: nat, i: nat)
    requires s.Valid()
  {
    && n < |s.active|
    && MatchesDevice(s.contexts[s.active[n]], s.device)
    && i < |s.contexts[Fallthrough(s.contexts, s.active[n])].inputs|
  }

  function At(s: Search, n: nat, i: nat): Option<Selection>
    requires s.Valid() && Reaches(s, n, i)
  {
    var c := Fallthrough(s.contexts, s.active[n]);
    s.Try(c, s.contexts[c].inputs[i])
  }

  lemma {:induction false} InContextFirst(s: Search, n: nat, i: nat) returns (j: nat)
    requires s.Valid() && n < |s.active| && MatchesDevice(s.contexts[s.active[n]], s.device)
    requires var c := Fallthrough(s.contexts, s.active[n]); i <= |s.contexts[c].inputs|
    ensures var r := s.InContext(Fallthrough(s.contexts, s.active[n]), i);
      && (r.Some? ==> i <= j && Reaches(s, n, j) && At(s, n, j) == r)
      && forall k: nat :: i <= k && Reaches(s, n, k) && (r.None? || k < j) ==> At(s, n, k).None?
    decreases |s.contexts[Fallthrough(s.contexts, s.active[n])].inputs| - i
  {
    hide Search.Try;
    var c := Fallthrough(s.contexts, s.active[n]);
    j := i;
    if i < |s.contexts[c].inputs| {
      if s.Try(c, s.contexts[c].inputs[i]).None? {
        j := InContextFirst(s, n, i + 1);
      }
    }
  }

  /** What is selected: the first mapping in the order of the active contexts and
      their inputs that makes something of the input, and nothing exactly when
      none does. */
  lemma {:induction false} SelectsFirst(s: Search, from: nat) returns (n: nat, i: nat)
    requires s.Valid() && from <= |s.active|
    ensures s.From(from) == NOTHING || (from <= n && Reaches(s, n, i) && At(s, n, i) == Option.Some(s.From(from)))
    ensures s.From(from) == NOTHING ==> forall m: nat, k: nat :: from <= m && Reaches(s, m, k) ==> At(s, m, k).None?
    ensures s.From(from) != NOTHING ==>
      forall m: nat, k: nat :: from <= m && Reaches(s, m, k) && (m < n || (m == n && k < i)) ==> At(s, m, k).None?
    decreases |s.active| - from
  {
    hide Search.Try;
    n, i := 0, 0;
    if from < |s.active| {
      if MatchesDevice(s.contexts[s.active[from]], s.device) {
        var j := InContextFirst(s, from, 0);
        if s.InContext(Fallthrough(s.contexts, s.active[from]), 0).Some? {
          n, i := from, j;
          TriedIsSomething(s, from, j);
          return;
        }
      }
      n, i := SelectsFirst(s, from + 1);
    }
  }

  /** A selected match has an input and an output of the configuration. */
  lemma {:induction false} SelectedIsValid(s: Search, from: nat)
    requires s.Valid() && from <= |s.active|
    ensures s.From(from).result == MatchResult.Match ==>
      && s.From(from).trigger.Some? && s.From(from).output.Some? && ValidRef(s.contexts, s.From(from).output.value)
    decreases |s.active| - from
  {
    hide Matching;
    var n, i := SelectsFirst(s, from);
    if s.From(from) != NOTHING {
      hide Search.From;
      assert At(s, n, i) == Option.Some(s.From(from));
    }
  }

  /** The keys unified with Any are those of the selected mapping. */
  lemma {:induction false} KeysOfSelected(s: Search, from: nat, keys: seq<Key>)
    requires s.Valid() && from <= |s.active|
    ensures var selected := s.From(from);
      selected.result == MatchResult.Match ==>
        selected.trigger.Some? && s.KeysFrom(from, keys) == s.Match(selected.trigger.value).anyKeys
    decreases |s.active| - from
  {
    hide Matching, Search.InContext, Search.KeysInContext;
    if from < |s.active| {
      if MatchesDevice(s.contexts[s.active[from]], s.device) {
        var c := Fallthrough(s.contexts, s.active[from]);
        KeysOfSelectedIn(s, c, 0, keys);
        KeysOfSelected(s, from + 1, s.KeysInContext(c, 0, keys));
      } else {
        KeysOfSelected(s, from + 1, keys);
      }
    }
  }

  lemma {:induction false} KeysOfSelectedIn(s: Search, c: nat, i: nat, keys: seq<Key>)
    requires s.Valid() && c < |s.contexts| && i <= |s.contexts[c].inputs|
    ensures var selected := s.InContext(c, i);
      selected.Some? && selected.value.result == MatchResult.Match ==>
        selected.value.trigger.Some? && s.KeysInContext(c, i, keys) == s.Match(selected.value.trigger.value).anyKeys
    decreases |s.contexts[c].inputs| - i
  {
    hide Matching;
    if i < |s.contexts[c].inputs| {
      KeysOfSelectedIn(s, c, i + 1, s.KeysTried(s.contexts[c].inputs[i].input, keys));
    }
  }

  lemma TriedIsSomething(s: Search, n: nat, i: nat)
    requires s.Valid() && Reaches(s, n, i) && At(s, n, i).Some?
    ensures At(s, n, i).value != NOTHING
  {
  }

  /** So a match means: the mapping matches the input and has an output. */
  lemma SelectedMeans(s: Search, n: nat, i: nat)
    requires s.Valid() && Reaches(s, n, i)
    ensures var c := Fallthrough(s.contexts, s.active[n]);
      var input := s.contexts[c].inputs[i];
      (At(s, n, i).Some? && At(s, n, i).value.result == MatchResult.Match)
      <==> !s.Skips(input.input) && s.Match(input.input).result == MatchResult.Match
           && FindOutput(s.contexts, s.active, c, input.outputIndex).Some?
  {
    hide Matching;
  }
}
