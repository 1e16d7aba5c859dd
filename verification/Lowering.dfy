/** The lowering passes of the configuration parser: `src/config/ParseConfig.cpp`
    from the marking of context blocks in `parse_line` to `replace_logical_key`. */
module Lowering {
  import opened Keys
  import opened Contexts

  /** A window or device filter as written in the configuration. */
  datatype Filter = Filter(text: seq<Byte>, invert: bool)

  const NO_FILTER := Filter([], false)

  datatype ConfigContext = ConfigContext(
    windowFilters: seq<Filter>,
    deviceFilter: Filter,
    deviceIdFilter: Filter,
    modifierFilter: KeySequence,
    inputs: seq<Input>,
    outputs: seq<KeySequence>,
    commandOutputs: seq<CommandOutput>,
    systemFilterMatched: bool,
    invertModifierFilter: bool,
    fallsThrough: bool,
    beginStage: bool)

  const EMPTY_CONTEXT := ConfigContext([], NO_FILTER, NO_FILTER, [], [], [], [], true, false, false, false)

  // ---------------------------------------------------------------------------
  // What every pass keeps

  /** After a context that falls through there is one which begins no stage. */
  predicate ChainsStayInStage(contexts: seq<ConfigContext>) {
    forall i :: 0 <= i < |contexts| && contexts[i].fallsThrough ==>
      i + 1 < |contexts| && !contexts[i + 1].beginStage
  }

  /** A stage block has no modifier filter. */
  predicate StagesUnfiltered(contexts: seq<ConfigContext>) {
    forall i :: 0 <= i < |contexts| && contexts[i].beginStage ==> contexts[i].modifierFilter == []
  }

  predicate ValidOutputs(context: ConfigContext) {
    forall i :: 0 <= i < |context.inputs| ==> context.inputs[i].outputIndex < |context.outputs|
  }

  predicate ConfigInv(contexts: seq<ConfigContext>) {
    && ChainsStayInStage(contexts)
    && StagesUnfiltered(contexts)
    && forall i :: 0 <= i < |contexts| ==> ValidOutputs(contexts[i])
  }

  // ---------------------------------------------------------------------------
  // What a mapping means

  datatype Target = Direct(output: KeySequence) | Command(index: int)

  datatype Mapping = Mapping(input: KeySequence, target: Target)

  function MappingOf(input: Input, outputs: seq<KeySequence>): Mapping
    requires input.outputIndex < |outputs|
  {
    Mapping(input.input, if input.outputIndex >= 0 then Direct(outputs[input.outputIndex]) else Command(input.outputIndex))
  }

  /** The mappings of a context in order, with the outputs they point to. */
  function Mappings(inputs: seq<Input>, outputs: seq<KeySequence>): seq<Mapping>
    requires forall i :: 0 <= i < |inputs| ==> inputs[i].outputIndex < |outputs|
  {
    if inputs == [] then []
    else [MappingOf(inputs[0], outputs)] + Mappings(inputs[1..], outputs)
  }

  // ---------------------------------------------------------------------------
  // replace_key and replace_not_key

  function Renamed(k: Key, both: Key, key: Key): Key { if k == both then key else k }

  function ReplaceKey(s: KeySequence, both: Key, key: Key): (r: KeySequence)
    ensures |r| == |s|
    ensures forall i :: 0 <= i < |s| ==> r[i] == s[i].(key := Renamed(s[i].key, both, key))
  {
    seq(|s|, i requires 0 <= i < |s| => s[i].(key := Renamed(s[i].key, both, key)))
  }

  function ReplaceNot(s: KeySequence, both: Key, left: Key, right: Key): (r: KeySequence)
    ensures |s| <= |r|
  {
    if s == [] then []
    else
      (if s[0].state == Not && s[0].key == both then [KeyEvent(left, Not, 0), s[0].(key := right)] else [s[0]])
      + ReplaceNot(s[1..], both, left, right)
  }

  predicate ContainsKey(s: KeySequence, k: Key) {
    exists i :: 0 <= i < |s| && s[i].key == k
  }

  method ReplaceNotKey(sequence: KeySequence, both: Key, left: Key, right: Key) returns (r: KeySequence)
    ensures r == ReplaceNot(sequence, both, left, right)
  {
    r := sequence;
    var i := 0;
    ghost var rest := sequence;
    assert r[..0] + ReplaceNot(rest, both, left, right) == ReplaceNot(rest, both, left, right);
    while i < |r|
      invariant i <= |r| && r[i..] == rest
      invariant r[..i] + ReplaceNot(rest, both, left, right) == ReplaceNot(sequence, both, left, right)
      decreases |r| - i
    {
      var event, before, behind := r[i], r[..i], r[i + 1..];
      assert rest[0] == event && rest[1..] == behind;
      ghost var replaced := ReplaceNot(behind, both, left, right);
      if event.state == Not && event.key == both {
        var pair := [KeyEvent(left, Not, 0), event.(key := right)];
        Associative(before, pair, replaced);
        r := before + pair + behind;
        i := i + 2;
        assert r[..i] == before + pair && r[i..] == behind;
      } else {
        Associative(before, [event], replaced);
        i := i + 1;
        assert r[..i] == before + [event] && r[i..] == behind;
      }
      rest := behind;
    }
    assert rest == [] && r[..i] == r;
  }

  // ---------------------------------------------------------------------------
  // replace_logical_key: the mappings of a context

  function ReplaceInput(input: Input, both: Key, key: Key): Input {
    var replaced: Expression := ReplaceKey(input.input, both, key);
    input.(input := replaced)
  }

  /** The input with the right key, and the outputs with its own one appended
      when the output contains the logical key as well. */
  function RightInput(input: Input, outputs: seq<KeySequence>, both: Key, right: Key): (r: (Input, seq<KeySequence>))
    requires input.outputIndex < |outputs|
    ensures outputs <= r.1 && r.0.outputIndex < |r.1|
  {
    var replaced := ReplaceInput(input, both, right);
    if input.outputIndex >= 0 && ContainsKey(outputs[input.outputIndex], both) then
      (replaced.(outputIndex := |outputs|), outputs + [ReplaceKey(outputs[input.outputIndex], both, right)])
    else (replaced, outputs)
  }

  function SplitInputs(inputs: seq<Input>, outputs: seq<KeySequence>, both: Key, left: Key, right: Key)
    : (r: (seq<Input>, seq<KeySequence>))
    requires forall i :: 0 <= i < |inputs| ==> inputs[i].outputIndex < |outputs|
    ensures outputs <= r.1
    ensures forall i :: 0 <= i < |r.0| ==> r.0[i].outputIndex < |r.1|
    decreases |inputs|
  {
    if inputs == [] then ([], outputs)
    else if !ContainsKey(inputs[0].input, both) then
      var (rest, all) := SplitInputs(inputs[1..], outputs, both, left, right);
      ([inputs[0]] + rest, all)
    else
      var (rightInput, more) := RightInput(inputs[0], outputs, both, right);
      var (rest, all) := SplitInputs(inputs[1..], more, both, left, right);
      ([ReplaceInput(inputs[0], both, left), rightInput] + rest, all)
  }

  function AllOutputs(outputs: seq<KeySequence>, f: KeySequence -> KeySequence): (r: seq<KeySequence>)
    ensures |r| == |outputs| && forall i :: 0 <= i < |r| ==> r[i] == f(outputs[i])
  {
    seq(|outputs|, i requires 0 <= i < |outputs| => f(outputs[i]))
  }

  function AllCommands(commands: seq<CommandOutput>, f: KeySequence -> KeySequence): (r: seq<CommandOutput>)
    ensures |r| == |commands| && forall i :: 0 <= i < |r| ==> r[i] == commands[i].(output := f(commands[i].output))
  {
    seq(|commands|, i requires 0 <= i < |commands| => commands[i].(output := f(commands[i].output)))
  }

  function AllInputs(inputs: seq<Input>, both: Key, left: Key, right: Key): (r: seq<Input>)
    ensures |r| == |inputs| && forall i :: 0 <= i < |r| ==>
      r[i] == inputs[i].(input := ReplaceNot(inputs[i].input, both, left, right))
  {
    seq(|inputs|, i requires 0 <= i < |inputs| => inputs[i].(input := ReplaceNot(inputs[i].input, both, left, right)))
  }

  function NotReplaced(both: Key, left: Key, right: Key): KeySequence -> KeySequence {
    s => ReplaceNot(s, both, left, right)
  }

  function KeyReplaced(both: Key, key: Key): KeySequence -> KeySequence {
    s => ReplaceKey(s, both, key)
  }

  /** The first loop of the pass: the mappings and the filter of one context. */
  function LowerContext(context: ConfigContext, both: Key, left: Key, right: Key): (r: ConfigContext)
    requires ValidOutputs(context)
    ensures ValidOutputs(r)
    ensures r == context.(inputs := r.inputs, outputs := r.outputs, commandOutputs := r.commandOutputs,
                          modifierFilter := ReplaceNot(context.modifierFilter, both, left, right))
  {
    var inputs := AllInputs(context.inputs, both, left, right);
    var outputs := AllOutputs(context.outputs, NotReplaced(both, left, right));
    var commands := AllCommands(context.commandOutputs, NotReplaced(both, left, right));
    var (split, all) := SplitInputs(inputs, outputs, both, left, right);
    context.(inputs := split,
             outputs := AllOutputs(all, KeyReplaced(both, left)),
             commandOutputs := AllCommands(commands, KeyReplaced(both, left)),
             modifierFilter := ReplaceNot(context.modifierFilter, both, left, right))
  }

  /** What the pass makes of one mapping: the logical key is replaced by the left
      key and by the right key, in the input and in the output alike. */
  function Substitute(m: Mapping, both: Key, left: Key, right: Key): seq<Mapping> {
    var input := ReplaceNot(m.input, both, left, right);
    if ContainsKey(input, both) then [
      Mapping(ReplaceKey(input, both, left), SubstituteTarget(m.target, both, left, right, left)),
      Mapping(ReplaceKey(input, both, right), SubstituteTarget(m.target, both, left, right, right))]
    else [Mapping(input, SubstituteTarget(m.target, both, left, right, left))]
  }

  function SubstituteTarget(target: Target, both: Key, left: Key, right: Key, key: Key): Target {
    match target
    case Command(_) => target
    case Direct(output) => Direct(ReplaceKey(ReplaceNot(output, both, left, right), both, key))
  }

  function SubstituteAll(mappings: seq<Mapping>, both: Key, left: Key, right: Key): seq<Mapping> {
    if mappings == [] then []
    else Substitute(mappings[0], both, left, right) + SubstituteAll(mappings[1..], both, left, right)
  }

  // ---------------------------------------------------------------------------
  // The pass is a substitution

  lemma {:induction false} MoreOutputs(inputs: seq<Input>, outputs: seq<KeySequence>, all: seq<KeySequence>)
    requires outputs <= all && forall i :: 0 <= i < |inputs| ==> inputs[i].outputIndex < |outputs|
    ensures Mappings(inputs, all) == Mappings(inputs, outputs)
    decreases |inputs|
  {
    if inputs != [] {
      MoreOutputs(inputs[1..], outputs, all);
    }
  }

  /** A sequence in which `!both` is already replaced. */
  predicate NotFreeSequence(s: KeySequence, both: Key) {
    forall i :: 0 <= i < |s| ==> !(s[i].state == Not && s[i].key == both)
  }

  lemma {:induction false} NothingToReplace(s: KeySequence, both: Key, left: Key, right: Key)
    requires NotFreeSequence(s, both)
    ensures ReplaceNot(s, both, left, right) == s
    decreases |s|
  {
    if s != [] {
      assert NotFreeSequence(s[1..], both);
      NothingToReplace(s[1..], both, left, right);
    }
  }

  lemma ReplaceAbsent(s: KeySequence, both: Key, key: Key)
    requires !ContainsKey(s, both)
    ensures ReplaceKey(s, both, key) == s
  {
  }

  /** Splitting the inputs, and replacing what is left in the outputs, is the
      in-order substitution of the mappings. */
  lemma {:induction false} SplitIsSubstitution(inputs: seq<Input>, outputs: seq<KeySequence>, both: Key, left: Key, right: Key)
    requires both != right
    requires forall i :: 0 <= i < |inputs| ==> inputs[i].outputIndex < |outputs| && NotFreeSequence(inputs[i].input, both)
    requires forall i :: 0 <= i < |outputs| ==> NotFreeSequence(outputs[i], both)
    ensures Lowered(SplitInputs(inputs, outputs, both, left, right), both, left)
      == SubstituteAll(Mappings(inputs, outputs), both, left, right)
    decreases |inputs|
  {
    hide MappingOf, Substitute, RightInput, ReplaceInput, NotFreeSequence, ContainsKey;
    if inputs != [] {
      var m := MappingOf(inputs[0], outputs);
      assert Mappings(inputs, outputs)[1..] == Mappings(inputs[1..], outputs);
      if !ContainsKey(inputs[0].input, both) {
        SplitIsSubstitution(inputs[1..], outputs, both, left, right);
        SplitKept(inputs, outputs, both, left, right);
      } else {
        var more := RightInput(inputs[0], outputs, both, right).1;
        RightOutputsNotFree(inputs[0], outputs, both, right);
        SplitIsSubstitution(inputs[1..], more, both, left, right);
        MoreOutputs(inputs[1..], outputs, more);
        SplitDoubled(inputs, outputs, both, left, right);
      }
    }
  }

  /** The mappings of split inputs with the logical key in the outputs replaced. */
  function Lowered(split: (seq<Input>, seq<KeySequence>), both: Key, left: Key): seq<Mapping>
    requires forall i :: 0 <= i < |split.0| ==> split.0[i].outputIndex < |split.1|
  {
    Mappings(split.0, AllOutputs(split.1, KeyReplaced(both, left)))
  }

  lemma SplitKept(inputs: seq<Input>, outputs: seq<KeySequence>, both: Key, left: Key, right: Key)
    requires inputs != []
    requires forall i :: 0 <= i < |inputs| ==> inputs[i].outputIndex < |outputs| && NotFreeSequence(inputs[i].input, both)
    requires forall i :: 0 <= i < |outputs| ==> NotFreeSequence(outputs[i], both)
    requires !ContainsKey(inputs[0].input, both)
    ensures Lowered(SplitInputs(inputs, outputs, both, left, right), both, left)
      == Substitute(MappingOf(inputs[0], outputs), both, left, right)
         + Lowered(SplitInputs(inputs[1..], outputs, both, left, right), both, left)
  {
    hide ContainsKey, NotFreeSequence, ReplaceNot, RightInput;
    var (split, all) := SplitInputs(inputs, outputs, both, left, right);
    assert split[1..] == SplitInputs(inputs[1..], outputs, both, left, right).0;
    NothingToReplace(inputs[0].input, both, left, right);
    if inputs[0].outputIndex >= 0 {
      NothingToReplace(outputs[inputs[0].outputIndex], both, left, right);
    }
  }

  lemma SplitDoubled(inputs: seq<Input>, outputs: seq<KeySequence>, both: Key, left: Key, right: Key)
    requires inputs != [] && both != right
    requires forall i :: 0 <= i < |inputs| ==> inputs[i].outputIndex < |outputs| && NotFreeSequence(inputs[i].input, both)
    requires forall i :: 0 <= i < |outputs| ==> NotFreeSequence(outputs[i], both)
    requires ContainsKey(inputs[0].input, both)
    ensures Lowered(SplitInputs(inputs, outputs, both, left, right), both, left)
      == Substitute(MappingOf(inputs[0], outputs), both, left, right)
         + Lowered(SplitInputs(inputs[1..], RightInput(inputs[0], outputs, both, right).1, both, left, right), both, left)
  {
    hide ContainsKey, NotFreeSequence, ReplaceNot, RightInput, MappingOf, ReplaceInput, Substitute, ReplaceKey;
    var (split, all) := SplitInputs(inputs, outputs, both, left, right);
    var more := RightInput(inputs[0], outputs, both, right).1;
    assert split[1..][1..] == SplitInputs(inputs[1..], more, both, left, right).0;
    SplitPair(inputs[0], outputs, all, both, left, right);
    var final := AllOutputs(all, KeyReplaced(both, left));
    var rest := Mappings(split[1..][1..], final);
    assert Mappings(split, final) == [MappingOf(split[0], final)] + ([MappingOf(split[1], final)] + rest);
  }

  lemma RightOutputsNotFree(input: Input, outputs: seq<KeySequence>, both: Key, right: Key)
    requires input.outputIndex < |outputs| && both != right
    requires forall i :: 0 <= i < |outputs| ==> NotFreeSequence(outputs[i], both)
    ensures forall i :: 0 <= i < |RightInput(input, outputs, both, right).1| ==>
      NotFreeSequence(RightInput(input, outputs, both, right).1[i], both)
  {
  }

  lemma SplitPair(input: Input, outputs: seq<KeySequence>, all: seq<KeySequence>, both: Key, left: Key, right: Key)
    requires input.outputIndex < |outputs| && both != right && ContainsKey(input.input, both)
    requires RightInput(input, outputs, both, right).1 <= all
    requires NotFreeSequence(input.input, both)
    requires input.outputIndex >= 0 ==> NotFreeSequence(outputs[input.outputIndex], both)
    ensures var final := AllOutputs(all, KeyReplaced(both, left));
      [MappingOf(ReplaceInput(input, both, left), final), MappingOf(RightInput(input, outputs, both, right).0, final)]
      == Substitute(MappingOf(input, outputs), both, left, right)
  {
    NothingToReplace(input.input, both, left, right);
    if input.outputIndex >= 0 {
      var output := outputs[input.outputIndex];
      NothingToReplace(output, both, left, right);
      if ContainsKey(output, both) {
        ReplacedIsGone(output, both, right);
        ReplaceAbsent(ReplaceKey(output, both, right), both, left);
      } else {
        ReplaceAbsent(output, both, left);
        ReplaceAbsent(output, both, right);
      }
    }
  }

  lemma ReplacedIsGone(s: KeySequence, both: Key, key: Key)
    requires key != both
    ensures !ContainsKey(ReplaceKey(s, both, key), both)
  {
  }

  lemma {:induction false} ReplaceNotFrees(s: KeySequence, both: Key, left: Key, right: Key)
    requires both != left && both != right
    ensures NotFreeSequence(ReplaceNot(s, both, left, right), both)
    decreases |s|
  {
    if s != [] {
      ReplaceNotFrees(s[1..], both, left, right);
    }
  }

  /** Substituting with `!both` replaced before is substituting. */
  lemma {:induction false} SubstituteReplaced(inputs: seq<Input>, outputs: seq<KeySequence>, both: Key, left: Key, right: Key)
    requires both != left && both != right
    requires forall i :: 0 <= i < |inputs| ==> inputs[i].outputIndex < |outputs|
    ensures SubstituteAll(Mappings(AllInputs(inputs, both, left, right), AllOutputs(outputs, NotReplaced(both, left, right))),
                          both, left, right)
      == SubstituteAll(Mappings(inputs, outputs), both, left, right)
    decreases |inputs|
  {
    hide Substitute, MappingOf, ReplaceNot;
    var inputs', outputs' := AllInputs(inputs, both, left, right), AllOutputs(outputs, NotReplaced(both, left, right));
    if inputs != [] {
      SubstituteReplaced(inputs[1..], outputs, both, left, right);
      assert inputs'[1..] == AllInputs(inputs[1..], both, left, right);
      ReplacedMapping(inputs[0], outputs, both, left, right);
      assert Mappings(inputs, outputs)[1..] == Mappings(inputs[1..], outputs);
      assert Mappings(inputs', outputs')[1..] == Mappings(inputs'[1..], outputs');
    }
  }

  lemma ReplacedMapping(input: Input, outputs: seq<KeySequence>, both: Key, left: Key, right: Key)
    requires both != left && both != right && input.outputIndex < |outputs|
    ensures Substitute(MappingOf(input.(input := ReplaceNot(input.input, both, left, right)),
                                 AllOutputs(outputs, NotReplaced(both, left, right))), both, left, right)
      == Substitute(MappingOf(input, outputs), both, left, right)
  {
    hide ContainsKey, ReplaceKey;
    ReplaceNotFrees(input.input, both, left, right);
    NothingToReplace(ReplaceNot(input.input, both, left, right), both, left, right);
    if input.outputIndex >= 0 {
      var output := outputs[input.outputIndex];
      ReplaceNotFrees(output, both, left, right);
      NothingToReplace(ReplaceNot(output, both, left, right), both, left, right);
    }
  }

  /** Lowering a logical key replaces the mappings of a context, in order, by
      their substitutions, with every output index pointing to the output that
      was substituted alike. */
  lemma LoweringIsSubstitution(context: ConfigContext, both: Key, left: Key, right: Key)
    requires ValidOutputs(context) && both != left && both != right
    ensures var lowered := LowerContext(context, both, left, right);
      Mappings(lowered.inputs, lowered.outputs)
      == SubstituteAll(Mappings(context.inputs, context.outputs), both, left, right)
  {
    var inputs := AllInputs(context.inputs, both, left, right);
    var outputs := AllOutputs(context.outputs, NotReplaced(both, left, right));
    forall i | 0 <= i < |inputs| ensures NotFreeSequence(inputs[i].input, both) {
      ReplaceNotFrees(context.inputs[i].input, both, left, right);
    }
    forall i | 0 <= i < |outputs| ensures NotFreeSequence(outputs[i], both) {
      ReplaceNotFrees(context.outputs[i], both, left, right);
    }
    SplitIsSubstitution(inputs, outputs, both, left, right);
    SubstituteReplaced(context.inputs, context.outputs, both, left, right);
  }
}
