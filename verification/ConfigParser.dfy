/** The configuration while it is parsed, and the passes after that:
    `src/config/ParseConfig.cpp`. Lines come in as parsed contexts and mappings. */
module ConfigParser {
  import opened Keys
  import opened Outputs
  import opened Contexts
  import opened Lowering
  import opened LoweringTheorems
  import opened ContextPasses
  import M = Mappings

  datatype Command = NamedCommand(name: string, index: int, mapped: bool)

  datatype ParseResult<+T> = Done(value: T) | Failed(message: string)

  function LogicalKeyAt(i: int): int { FIRST_LOGICAL + i }

  /** Keys which `get_key_by_name` can find: logical keys only after they were
      registered. */
  predicate Registered(s: KeySequence, n: nat) { KeysBelow(s, LogicalKeyAt(n)) }

  /** A context as its header line gives it. */
  predicate IsHeader(c: ConfigContext) {
    && c.inputs == [] && c.outputs == [] && c.commandOutputs == [] && !c.fallsThrough
    && (c.beginStage ==> c.modifierFilter == [] && c.systemFilterMatched)
  }

  const DEFAULT_CONTEXT := EMPTY_CONTEXT.(beginStage := true)

  // ---------------------------------------------------------------------------
  // Forwarded modifiers

  function ForwardMapping(k: Key): Mapping {
    Mapping([Press(k), KeyEvent(k, UpAsync, 0)], Direct([Press(k)]))
  }

  function ForwardMappings(modifiers: seq<Key>): (r: seq<Mapping>)
    ensures |r| == |modifiers| && forall i :: 0 <= i < |r| ==> r[i] == ForwardMapping(modifiers[i])
  {
    seq(|modifiers|, i requires 0 <= i < |modifiers| => ForwardMapping(modifiers[i]))
  }

  /** What the pass does for one modifier. */
  function PrependForward(c: ConfigContext, k: Key): ConfigContext {
    var input: Expression := [Press(k), KeyEvent(k, UpAsync, 0)];
    c.(inputs := [Input(input, |c.outputs|)] + c.inputs, outputs := c.outputs + [[Press(k)]])
  }

  /** The loop over the modifiers goes from the last one to the first. */
  function PrependForwards(c: ConfigContext, modifiers: seq<Key>): ConfigContext {
    if modifiers == [] then c
    else PrependForward(PrependForwards(c, modifiers[1..]), modifiers[0])
  }

  lemma {:induction false} ForwardsKeepHeader(c: ConfigContext, modifiers: seq<Key>)
    requires ValidOutputs(c)
    ensures var r := PrependForwards(c, modifiers);
      ValidOutputs(r) && r == c.(inputs := r.inputs, outputs := r.outputs)
    decreases |modifiers|
  {
    if modifiers != [] {
      ForwardsKeepHeader(c, modifiers[1..]);
    }
  }

  /** The modifiers' mappings come first, in the order of the modifiers. */
  lemma {:induction false} ForwardedFirst(c: ConfigContext, modifiers: seq<Key>)
    requires ValidOutputs(c)
    ensures var r := PrependForwards(c, modifiers);
      ValidOutputs(r) && Mappings(r.inputs, r.outputs) == ForwardMappings(modifiers) + Mappings(c.inputs, c.outputs)
    decreases |modifiers|
  {
    ForwardsKeepHeader(c, modifiers);
    if modifiers != [] {
      var before := PrependForwards(c, modifiers[1..]);
      var r := PrependForwards(c, modifiers);
      ForwardedFirst(c, modifiers[1..]);
      assert r.inputs[1..] == before.inputs;
      MoreOutputs(before.inputs, before.outputs, r.outputs);
      assert MappingOf(r.inputs[0], r.outputs) == ForwardMapping(modifiers[0]);
      assert ForwardMappings(modifiers) == [ForwardMapping(modifiers[0])] + ForwardMappings(modifiers[1..]);
    }
  }

  lemma {:induction false} ForwardsBelow(c: ConfigContext, modifiers: seq<Key>, bound: int)
    requires ContextBelow(c, bound)
    requires forall i :: 0 <= i < |modifiers| && IsLogicalKey(modifiers[i]) ==> modifiers[i] < bound
    ensures ContextBelow(PrependForwards(c, modifiers), bound)
    ensures forall balanced :: ContextLowerable(c, balanced) ==> ContextLowerable(PrependForwards(c, modifiers), balanced)
    decreases |modifiers|
  {
    if modifiers != [] {
      hide KeysBelow, LowerableOutput;
      var before := PrependForwards(c, modifiers[1..]);
      ForwardsBelow(c, modifiers[1..], bound);
      ForwardBelow(modifiers[0], bound);
      var r := PrependForwards(c, modifiers);
      assert forall i :: 0 < i < |r.inputs| ==> r.inputs[i] == before.inputs[i - 1];
    }
  }

  lemma ForwardBelow(k: Key, bound: int)
    requires IsLogicalKey(k) ==> k < bound
    ensures KeysBelow([Press(k), KeyEvent(k, UpAsync, 0)], bound) && KeysBelow([Press(k)], bound)
    ensures LowerableOutput([Press(k)], true) && LowerableOutput([Press(k)], false)
  {
  }

  function WithForwards(contexts: seq<ConfigContext>, modifiers: seq<Key>): (r: seq<ConfigContext>)
    ensures |r| == |contexts|
    ensures forall i :: 0 <= i < |r| ==>
      r[i] == if contexts[i].beginStage then PrependForwards(contexts[i], modifiers) else contexts[i]
  {
    seq(|contexts|, i requires 0 <= i < |contexts| =>
      if contexts[i].beginStage then PrependForwards(contexts[i], modifiers) else contexts[i])
  }

  lemma ForwardsInv(contexts: seq<ConfigContext>, modifiers: seq<Key>, bound: int)
    requires ConfigInv(contexts) && StagesPlain(contexts) && AllBelow(contexts, bound)
    requires forall i :: 0 <= i < |modifiers| && IsLogicalKey(modifiers[i]) ==> modifiers[i] < bound
    ensures var r := WithForwards(contexts, modifiers);
      && ConfigInv(r) && StagesPlain(r) && AllBelow(r, bound)
      && forall balanced :: AllLowerable(contexts, balanced) ==> AllLowerable(r, balanced)
  {
    hide ValidOutputs, ContextBelow, ContextLowerable, PrependForwards;
    var r := WithForwards(contexts, modifiers);
    forall i | 0 <= i < |contexts|
      ensures ValidOutputs(r[i]) && ContextBelow(r[i], bound)
      ensures forall balanced :: ContextLowerable(contexts[i], balanced) ==> ContextLowerable(r[i], balanced)
      ensures r[i] == contexts[i].(inputs := r[i].inputs, outputs := r[i].outputs)
    {
      ForwardsKeepHeader(contexts[i], modifiers);
      ForwardsBelow(contexts[i], modifiers, bound);
    }
    forall i | 0 <= i < |r| && r[i].fallsThrough ensures i + 1 < |r| && !r[i + 1].beginStage {
      assert contexts[i].fallsThrough;
      assert r[i + 1].beginStage == contexts[i + 1].beginStage;
    }
  }

  // ---------------------------------------------------------------------------
  // All registrations, the last one first

  predicate ValidKeys(keys: seq<LogicalKey>) {
    && LogicalKeyAt(|keys|) <= LAST_LOGICAL + 1
    && forall i :: 0 <= i < |keys| ==> keys[i].both == LogicalKeyAt(i) && keys[i].Valid()
  }

  function ReplaceAll(contexts: seq<ConfigContext>, keys: seq<LogicalKey>): (r: seq<ConfigContext>)
    requires ConfigInv(contexts)
    ensures ConfigInv(r)
    decreases |keys|
  {
    if keys == [] then contexts
    else
      var n := |keys| - 1;
      ReplaceLogicalKeyInv(contexts, keys[n]);
      ReplaceAll(ReplaceLogicalKey(contexts, keys[n]), keys[..n])
  }

  function LowerAll(items: seq<Item>, keys: seq<LogicalKey>): seq<Item>
    decreases |keys|
  {
    if keys == [] then items
    else
      var n := |keys| - 1;
      LowerAll(SplitItems(LowerItems(items, keys[n]), keys[n]), keys[..n])
  }

  lemma ValidPrefix(keys: seq<LogicalKey>)
    requires ValidKeys(keys) && keys != []
    ensures ValidKeys(keys[..|keys| - 1])
  {
  }

  /** The reverse pass substitutes one logical key after the other. */
  lemma {:induction false} ReplaceAllMeaning(contexts: seq<ConfigContext>, keys: seq<LogicalKey>)
    requires ConfigInv(contexts) && ValidKeys(keys)
    ensures Meaning(ReplaceAll(contexts, keys)) == LowerAll(Meaning(contexts), keys)
    decreases |keys|
  {
    hide Meaning, ReplaceLogicalKey, ConfigInv;
    if keys != [] {
      var n := |keys| - 1;
      var key := keys[n];
      InvHasValidOutputs(contexts);
      ReplaceLogicalKeyInv(contexts, key);
      ReplaceLogicalKeyMeaning(contexts, key);
      ValidPrefix(keys);
      ReplaceAllMeaning(ReplaceLogicalKey(contexts, key), keys[..n]);
    }
  }

  /** After it no logical key is left, and what the stages rely on is kept. */
  lemma {:induction false} ReplaceAllRemovesLogicalKeys(contexts: seq<ConfigContext>, keys: seq<LogicalKey>)
    requires ConfigInv(contexts) && ValidKeys(keys)
    requires AllBelow(contexts, LogicalKeyAt(|keys|))
    ensures forall c :: c in ReplaceAll(contexts, keys) ==> IsLogicalKeyFree(c)
    ensures forall balanced :: AllLowerable(contexts, balanced) ==> AllLowerable(ReplaceAll(contexts, keys), balanced)
    decreases |keys|
  {
    hide ReplaceLogicalKey, ConfigInv, AllLowerable, AllBelow, LogicalKey.Valid, IsLogicalKeyFree;
    if keys == [] {
      BelowFirstIsFree(contexts);
    } else {
      var n := |keys| - 1;
      var key := keys[n];
      ReplaceLogicalKeyInv(contexts, key);
      assert key.both == LogicalKeyAt(n);
      InvHasValidOutputs(contexts);
      ReplaceLogicalKeyBelow(contexts, key);
      forall balanced | AllLowerable(contexts, balanced)
        ensures AllLowerable(ReplaceLogicalKey(contexts, key), balanced)
      {
        ReplaceLogicalKeyKeepsBalance(contexts, key, balanced);
      }
      ValidPrefix(keys);
      ReplaceAllRemovesLogicalKeys(ReplaceLogicalKey(contexts, key), keys[..n]);
    }
  }

  lemma InvHasValidOutputs(contexts: seq<ConfigContext>)
    requires ConfigInv(contexts)
    ensures AllValidOutputs(contexts)
  {
  }

  lemma {:induction false} SplitItemsDropStages(items: seq<Item>, key: LogicalKey)
    ensures WithoutEmptyStages(SplitItems(LowerItems(items, key), key))
      == SplitItems(LowerItems(WithoutEmptyStages(items), key), key)
    decreases |items|
  {
    hide ReplaceKey, ReplaceNot, ContainsKey, LowerContent;
    if items != [] {
      var lowered := LowerItems(items, key);
      assert lowered[1..] == LowerItems(items[1..], key);
      if items[0].StageStart? {
        SplitItemsDropStages(items[1..], key);
        assert SplitItems(lowered, key)[1..] == SplitItems(lowered[1..], key);
      } else {
        assert SplitItems(lowered, key)[0].Row?;
      }
    }
  }

  /** Dropping empty stages in front commutes with lowering. */
  lemma {:induction false} LowerAllDropStages(items: seq<Item>, keys: seq<LogicalKey>)
    ensures WithoutEmptyStages(LowerAll(items, keys)) == LowerAll(WithoutEmptyStages(items), keys)
    decreases |keys|
  {
    if keys != [] {
      hide WithoutEmptyStages, SplitItems;
      var n := |keys| - 1;
      SplitItemsDropStages(items, keys[n]);
      LowerAllDropStages(SplitItems(LowerItems(items, keys[n]), keys[n]), keys[..n]);
    }
  }

  lemma {:induction false} MoreKeysBelow(contexts: seq<ConfigContext>, bound: int)
    requires AllBelow(contexts, bound)
    ensures AllBelow(contexts, bound + 1)
  {
    forall i | 0 <= i < |contexts| ensures ContextBelow(contexts[i], bound + 1) {
      hide KeysBelow;
      var c := contexts[i];
      assert ContextBelow(c, bound);
      BelowMore(c.modifierFilter, bound);
      forall j | 0 <= j < |c.inputs| ensures KeysBelow(c.inputs[j].input, bound + 1) {
        BelowMore(c.inputs[j].input, bound);
      }
      forall j | 0 <= j < |c.outputs| ensures KeysBelow(c.outputs[j], bound + 1) {
        BelowMore(c.outputs[j], bound);
      }
      forall j | 0 <= j < |c.commandOutputs| ensures KeysBelow(c.commandOutputs[j].output, bound + 1) {
        BelowMore(c.commandOutputs[j].output, bound);
      }
    }
  }

  /** What falls through has no mappings which would be lost. */
  predicate NothingHidden(contexts: seq<ConfigContext>) {
    forall i :: 0 <= i < |contexts| && contexts[i].fallsThrough ==> contexts[i].inputs == [] && contexts[i].commandOutputs == []
  }

  /** Command indices are negative, and differ. */
  predicate ValidCommands(commands: seq<Command>) {
    forall i :: 0 <= i < |commands| ==> commands[i].index == -(i + 1)
  }

  function FindCommand(commands: seq<Command>, name: string): (r: int)
    ensures -1 <= r < |commands|
    ensures r >= 0 ==> commands[r].name == name
    ensures r < 0 ==> forall i :: 0 <= i < |commands| ==> commands[i].name != name
  {
    if commands == [] then -1
    else if commands[0].name == name then 0
    else
      var r := FindCommand(commands[1..], name);
      if r < 0 then -1 else r + 1
  }

  /** What holds of the contexts while they are parsed. */
  predicate ContextsSound(contexts: seq<ConfigContext>, bound: int) {
    ConfigInv(contexts) && StagesPlain(contexts) && NothingHidden(contexts) && AllBelow(contexts, bound)
  }

  lemma SoundMonotone(contexts: seq<ConfigContext>, bound: int)
    requires ContextsSound(contexts, bound)
    ensures ContextsSound(contexts, bound + 1)
  {
    MoreKeysBelow(contexts, bound);
  }

  lemma HeaderAdded(contexts: seq<ConfigContext>, header: ConfigContext, bound: int)
    requires ContextsSound(contexts, bound) && IsHeader(header) && KeysBelow(header.modifierFilter, bound)
    requires contexts != [] && !contexts[|contexts| - 1].fallsThrough
    ensures ContextsSound(contexts + [header], bound)
  {
    hide KeysBelow;
    Appended(contexts, header, bound);
  }

  lemma Appended(contexts: seq<ConfigContext>, c: ConfigContext, bound: int)
    requires ContextsSound(contexts, bound) && ValidOutputs(c) && ContextBelow(c, bound) && !c.fallsThrough
    requires c.beginStage ==> c.modifierFilter == [] && c.systemFilterMatched
    requires contexts != [] && !contexts[|contexts| - 1].fallsThrough
    ensures ContextsSound(contexts + [c], bound)
  {
    hide ValidOutputs, ContextBelow;
    var all := contexts + [c];
    forall i | 0 <= i < |all| && all[i].fallsThrough ensures i + 1 < |all| && !all[i + 1].beginStage {
      assert contexts[i].fallsThrough;
      assert all[i + 1] == contexts[i + 1];
    }
  }

  lemma LastMarked(contexts: seq<ConfigContext>, bound: int)
    requires ContextsSound(contexts, bound) && |contexts| >= 2
    requires !contexts[|contexts| - 1].beginStage && !contexts[|contexts| - 2].beginStage
    requires contexts[|contexts| - 2].inputs == [] && contexts[|contexts| - 2].commandOutputs == []
    ensures ContextsSound(contexts[|contexts| - 2 := contexts[|contexts| - 2].(fallsThrough := true)], bound)
  {
    var n := |contexts| - 2;
    var marked := contexts[n := contexts[n].(fallsThrough := true)];
    assert ValidOutputs(marked[n]);
    assert ContextBelow(contexts[n], bound);
    hide ValidOutputs, ContextBelow;
    assert forall i :: 0 <= i < |marked| && i != n ==> marked[i] == contexts[i];
    assert forall i :: 0 <= i < |marked| ==> marked[i].beginStage == contexts[i].beginStage;
    assert ContextBelow(marked[n], bound) by { MarkedBelow(contexts[n], bound); }
  }

  lemma MarkedBelow(c: ConfigContext, bound: int)
    requires ContextBelow(c, bound)
    ensures ContextBelow(c.(fallsThrough := true), bound)
  {
  }

  function WithMapping(c: ConfigContext, input: Expression, output: KeySequence): ConfigContext {
    c.(inputs := c.inputs + [Input(input, |c.outputs|)], outputs := c.outputs + [output])
  }

  function WithCommand(c: ConfigContext, input: Expression, index: int): ConfigContext {
    c.(inputs := c.inputs + [Input(input, index)])
  }

  lemma {:induction false} MappingsAppended(inputs: seq<Input>, input: Input, outputs: seq<KeySequence>)
    requires forall i :: 0 <= i < |inputs| ==> inputs[i].outputIndex < |outputs|
    requires input.outputIndex < |outputs|
    ensures forall i :: 0 <= i < |inputs + [input]| ==> (inputs + [input])[i].outputIndex < |outputs|
    ensures Mappings(inputs + [input], outputs) == Mappings(inputs, outputs) + [MappingOf(input, outputs)]
    decreases |inputs|
  {
    if inputs == [] {
      assert inputs + [input] == [input] && [input][1..] == [];
    } else {
      assert (inputs + [input])[1..] == inputs[1..] + [input];
      MappingsAppended(inputs[1..], input, outputs);
    }
  }

  lemma MappingAdded(c: ConfigContext, input: Expression, output: KeySequence)
    requires ValidOutputs(c)
    ensures var added := WithMapping(c, input, output);
      && ValidOutputs(added)
      && Mappings(added.inputs, added.outputs) == Mappings(c.inputs, c.outputs) + [Mapping(input, Direct(output))]
      && (forall bound :: ContextBelow(c, bound) && KeysBelow(input, bound) && KeysBelow(output, bound) ==> ContextBelow(added, bound))
      && (forall balanced :: ContextLowerable(c, balanced) && M.ProperInput(input) && LowerableOutput(output, balanced) ==>
            ContextLowerable(added, balanced))
  {
    hide KeysBelow, LowerableOutput, M.ProperInput;
    MappingsAppended(c.inputs, Input(input, |c.outputs|), c.outputs + [output]);
    MoreOutputs(c.inputs, c.outputs, c.outputs + [output]);
  }

  lemma CommandAdded(c: ConfigContext, input: Expression, index: int)
    requires ValidOutputs(c) && index < 0
    ensures var added := WithCommand(c, input, index);
      && ValidOutputs(added)
      && (forall bound :: ContextBelow(c, bound) && KeysBelow(input, bound) ==> ContextBelow(added, bound))
      && (forall balanced :: ContextLowerable(c, balanced) && M.ProperInput(input) ==> ContextLowerable(added, balanced))
  {
    hide KeysBelow, LowerableOutput, M.ProperInput;
  }

  lemma CommandOutputAdded(c: ConfigContext, output: KeySequence, index: int)
    requires ValidOutputs(c)
    ensures var added := c.(commandOutputs := c.commandOutputs + [CommandOutput(output, index)]);
      && ValidOutputs(added)
      && (forall bound :: ContextBelow(c, bound) && KeysBelow(output, bound) ==> ContextBelow(added, bound))
      && (forall balanced :: ContextLowerable(c, balanced) && LowerableOutput(output, balanced) && IsUnmapped(c, index) ==>
            ContextLowerable(added, balanced))
  {
    hide KeysBelow, LowerableOutput;
  }

  predicate IsUnmapped(c: ConfigContext, index: int) {
    forall j :: 0 <= j < |c.commandOutputs| ==> c.commandOutputs[j].index != index
  }

  /** Only the mappings of the last context change. */
  lemma LastReplaced(contexts: seq<ConfigContext>, c: ConfigContext, bound: int)
    requires ContextsSound(contexts, bound) && contexts != [] && ValidOutputs(c) && ContextBelow(c, bound)
    requires var last := contexts[|contexts| - 1];
      c == last.(inputs := c.inputs, outputs := c.outputs, commandOutputs := c.commandOutputs) && !last.fallsThrough
    ensures ContextsSound(contexts[|contexts| - 1 := c], bound)
    ensures forall balanced :: AllLowerable(contexts, balanced) && ContextLowerable(c, balanced) ==>
      AllLowerable(contexts[|contexts| - 1 := c], balanced)
  {
    hide ValidOutputs, ContextBelow, ContextLowerable;
    var n := |contexts| - 1;
    var replaced := contexts[n := c];
    assert forall i :: 0 <= i < n ==> replaced[i] == contexts[i];
    assert forall i :: 0 <= i < |replaced| ==>
      replaced[i].beginStage == contexts[i].beginStage && replaced[i].fallsThrough == contexts[i].fallsThrough
      && replaced[i].modifierFilter == contexts[i].modifierFilter
      && replaced[i].systemFilterMatched == contexts[i].systemFilterMatched;
  }

  lemma {:induction false} MappingsSplit(a: seq<Input>, b: seq<Input>, outputs: seq<KeySequence>)
    requires forall i :: 0 <= i < |a + b| ==> (a + b)[i].outputIndex < |outputs|
    ensures (forall i :: 0 <= i < |a| ==> a[i].outputIndex < |outputs|) && (forall i :: 0 <= i < |b| ==> b[i].outputIndex < |outputs|)
    ensures Mappings(a + b, outputs) == Mappings(a, outputs) + Mappings(b, outputs)
    decreases |a|
  {
    hide MappingOf;
    forall i | 0 <= i < |a| ensures a[i].outputIndex < |outputs| { assert (a + b)[i] == a[i]; }
    forall i | 0 <= i < |b| ensures b[i].outputIndex < |outputs| { assert (a + b)[|a| + i] == b[i]; }
    if a == [] {
      assert a + b == b;
    } else {
      var rest := a[1..] + b;
      assert (a + b)[1..] == rest && (a + b)[0] == a[0];
      forall i | 0 <= i < |rest| ensures rest[i].outputIndex < |outputs| { assert (a + b)[i + 1] == rest[i]; }
      MappingsSplit(a[1..], b, outputs);
      Associative([MappingOf(a[0], outputs)], Mappings(a[1..], outputs), Mappings(b, outputs));
    }
  }

  /** What a mapping line adds: its input with its own output, behind all others, whose
      outputs stay as they were; and with a command, the command. */
  lemma AddedMapping(c: ConfigContext, input: Expression, output: KeySequence, index: int)
    requires ValidOutputs(c) && index < 0
    ensures var added, command := WithMapping(c, input, output), WithCommand(c, input, index);
      && ValidOutputs(added) && ValidOutputs(command)
      && Mappings(added.inputs, added.outputs) == Mappings(c.inputs, c.outputs) + [Mapping(input, Direct(output))]
      && Mappings(command.inputs, command.outputs) == Mappings(c.inputs, c.outputs) + [Mapping(input, Target.Command(index))]
  {
    var one, two := [Input(input, |c.outputs|)], [Input(input, index)];
    var outputs := c.outputs + [output];
    assert one[1..] == [] && two[1..] == [] && outputs[|c.outputs|] == output;
    assert forall i :: 0 <= i < |c.inputs + one| ==> (c.inputs + one)[i].outputIndex < |outputs|;
    assert forall i :: 0 <= i < |c.inputs + two| ==> (c.inputs + two)[i].outputIndex < |c.outputs|;
    MappingsSplit(c.inputs, one, outputs);
    MappingsSplit(c.inputs, two, c.outputs);
    MoreOutputs(c.inputs, c.outputs, outputs);
    assert Mappings(one, outputs) == [Mapping(input, Direct(output))] + [];
    assert Mappings(two, c.outputs) == [Mapping(input, Target.Command(index))] + [];
  }

  /** The context of the `toggle-active` directive, its input with `?`. */
  function ToggleContext(input: Expression, action: int): ConfigContext
    requires 0 <= action < 0x1_0000
  {
    var marked: Expression :=
      if input[0].state == NoMightMatch then input else [KeyEvent(NONE, NoMightMatch, 0)] + input;
    WithMapping(EMPTY_CONTEXT, marked, [Press(action), KeyEvent(NONE, OutputOnRelease, 0)])
  }

  /** It has a single mapping: the input, with a `?` in front, presses the action. */
  lemma ToggleContextMeans(input: Expression, action: Key)
    ensures var c := ToggleContext(input, action);
      && ValidOutputs(c) && c.commandOutputs == [] && c.modifierFilter == [] && !c.fallsThrough && !c.beginStage
      && var marked := if input[0].state == NoMightMatch then input else [KeyEvent(NONE, NoMightMatch, 0)] + input;
         Mappings(c.inputs, c.outputs) == [Mapping(marked, Direct([Press(action), KeyEvent(NONE, OutputOnRelease, 0)]))]
  {
    var c := ToggleContext(input, action);
    assert c.inputs[1..] == [] && |c.inputs| == 1;
    assert Mappings(c.inputs, c.outputs) == [MappingOf(c.inputs[0], c.outputs)] + [];
  }

  lemma ToggleAdded(contexts: seq<ConfigContext>, input: Expression, action: Key, bound: int)
    requires ContextsSound(contexts, bound) && KeysBelow(input, bound) && IsActionKey(action)
    ensures ContextsSound([ToggleContext(input, action)] + contexts, bound)
    ensures forall balanced :: AllLowerable(contexts, balanced) && M.ProperInput(input) ==>
      AllLowerable([ToggleContext(input, action)] + contexts, balanced)
  {
    var c := ToggleContext(input, action);
    assert KeysBelow([Press(action), KeyEvent(NONE, OutputOnRelease, 0)], bound);
    assert KeysBelow(c.inputs[0].input, bound);
    assert forall balanced :: LowerableOutput([Press(action), KeyEvent(NONE, OutputOnRelease, 0)], balanced);
    assert ContextBelow(c, bound) && forall balanced :: M.ProperInput(input) ==> ContextLowerable(c, balanced);
    PrependInv(c, contexts);
    hide ConfigInv, ContextBelow, ContextLowerable, ValidOutputs;
  }

  lemma DefaultIsSound()
    ensures ContextsSound([DEFAULT_CONTEXT], LogicalKeyAt(0)) && AllLowerable([DEFAULT_CONTEXT], true)
  {
  }

  lemma NothingOptimized(contexts: seq<ConfigContext>)
    requires ConfigInv(contexts) && StagesPlain(contexts) && contexts != [] && !contexts[|contexts| - 1].fallsThrough
    ensures OptimizeInv(contexts, |contexts|, false) && Optimized(contexts, |contexts|)
  {
  }

  lemma OptimizedAll(contexts: seq<ConfigContext>)
    requires Optimized(contexts, 0)
    ensures forall c :: c in contexts ==> c.systemFilterMatched && (c.fallsThrough || !HasNoEffect(c, false))
  {
  }

  lemma StageInFront(items: seq<Item>)
    ensures WithoutEmptyStages([StageStart] + items) == WithoutEmptyStages(items)
  {
    assert ([StageStart] + items)[1..] == items;
  }

  lemma EmptyContextMeansNothing()
    ensures ConfigInv([EMPTY_CONTEXT]) && AllValidOutputs([EMPTY_CONTEXT]) && AllValidOutputs([])
    ensures Meaning([EMPTY_CONTEXT]) == [] == Meaning([])
    ensures forall bound :: AllBelow([EMPTY_CONTEXT], bound)
    ensures forall balanced :: AllLowerable([EMPTY_CONTEXT], balanced)
  {
    assert [EMPTY_CONTEXT][1..] == [];
  }

  lemma OptimizeAtKeepsOutputs(contexts: seq<ConfigContext>, i: nat, beforeContext: bool)
    requires i < |contexts|
    ensures forall bound :: AllBelow(contexts, bound) ==> AllBelow(OptimizeAt(contexts, i, beforeContext).0, bound)
    ensures forall balanced :: AllLowerable(contexts, balanced) ==> AllLowerable(OptimizeAt(contexts, i, beforeContext).0, balanced)
  {
    hide KeysBelow, LowerableOutput, HasNoEffect, M.DistinctCommands, InputsProper;
    var next := OptimizeAt(contexts, i, beforeContext).0;
    forall j | 0 <= j < |next|
      ensures next[j] in contexts || (i > 0 && next[j] == Moved(contexts[i - 1], contexts[i]))
    {
      assert next != contexts ==> next[j] == (if j < i - 1 then contexts[j] else if j >= i then contexts[j + 1] else next[j]);
    }
    forall bound | AllBelow(contexts, bound) ensures AllBelow(next, bound) {
      forall j | 0 <= j < |next| ensures ContextBelow(next[j], bound) {
        if next[j] !in contexts {
          assert ContextBelow(contexts[i - 1], bound) && ContextBelow(contexts[i], bound);
        }
      }
    }
    forall balanced | AllLowerable(contexts, balanced) ensures AllLowerable(next, balanced) {
      forall j | 0 <= j < |next| ensures ContextLowerable(next[j], balanced) {
        if next[j] !in contexts {
          assert ContextLowerable(contexts[i], balanced);
        }
      }
    }
  }

  lemma SplitLength(c: ConfigContext, key: LogicalKey)
    ensures SplitContext(c, key) == if ContainsKey(c.modifierFilter, key.both) then [
        c.(inputs := [], outputs := [], commandOutputs := [], fallsThrough := true,
           modifierFilter := ReplaceKey(c.modifierFilter, key.both, key.left)),
        c.(modifierFilter := ReplaceKey(c.modifierFilter, key.both, key.right))]
      else [c]
  {
  }

  lemma NeverEmpty(contexts: seq<ConfigContext>, key: LogicalKey)
    requires AllValidOutputs(contexts) && contexts != []
    ensures ReplaceLogicalKey(contexts, key) != []
  {
    hide ContainsKey;
    var lowered := LowerContexts(contexts, key);
    assert SplitContext(lowered[0], key) != [];
  }

  lemma WithForwardsSound(contexts: seq<ConfigContext>, modifiers: seq<Key>, bound: int)
    requires ContextsSound(contexts, bound) && contexts != [] && !contexts[|contexts| - 1].fallsThrough
    requires forall i :: 0 <= i < |modifiers| && IsLogicalKey(modifiers[i]) ==> modifiers[i] < bound
    ensures var r := WithForwards(contexts, modifiers);
      && ConfigInv(r) && StagesPlain(r) && r != [] && !r[|r| - 1].fallsThrough && AllBelow(r, bound)
      && forall balanced :: AllLowerable(contexts, balanced) ==> AllLowerable(r, balanced)
  {
    ForwardsInv(contexts, modifiers, bound);
    ForwardsKeepHeader(contexts[|contexts| - 1], modifiers);
  }

  // ---------------------------------------------------------------------------
  // The loops of one pass

  method LowerInputs(inputs: seq<Input>, outputs: seq<KeySequence>, key: LogicalKey)
    returns (r: seq<Input>, all: seq<KeySequence>)
    requires forall i :: 0 <= i < |inputs| ==> inputs[i].outputIndex < |outputs|
    ensures (r, all) == SplitInputs(inputs, outputs, key.both, key.left, key.right)
  {
    hide RightInput, ContainsKey, ReplaceInput;
    r, all := inputs, outputs;
    var i := 0;
    ghost var rest := inputs;
    assert [] + SplitInputs(rest, all, key.both, key.left, key.right).0 == SplitInputs(rest, all, key.both, key.left, key.right).0;
    while i < |r|
      invariant i <= |r| && r[i..] == rest
      invariant forall j :: 0 <= j < |rest| ==> rest[j].outputIndex < |all|
      invariant var tail := SplitInputs(rest, all, key.both, key.left, key.right);
        SplitInputs(inputs, outputs, key.both, key.left, key.right) == (r[..i] + tail.0, tail.1)
      decreases |r| - i
    {
      var input := r[i];
      var before, behind := r[..i], r[i + 1..];
      assert rest[0] == input && rest[1..] == behind;
      assert forall j :: 0 <= j < |behind| ==> behind[j] == rest[j + 1];
      if ContainsKey(input.input, key.both) {
        var replaced := RightInput(input, all, key.both, key.right);
        var pair := [ReplaceInput(input, key.both, key.left), replaced.0];
        ghost var tail := SplitInputs(behind, replaced.1, key.both, key.left, key.right);
        assert before + (pair + tail.0) == (before + pair) + tail.0;
        r, all := before + pair + behind, replaced.1;
        i := i + 2;
        assert r[..i] == before + pair;
      } else {
        ghost var tail := SplitInputs(behind, all, key.both, key.left, key.right);
        assert before + ([input] + tail.0) == (before + [input]) + tail.0;
        i := i + 1;
        assert r[..i] == before + [input];
      }
      rest := behind;
      assert r[i..] == behind;
    }
    assert r[..i] == r && r[..i] + [] == r;
  }

  method ReplaceOutputs(outputs: seq<KeySequence>, key: LogicalKey, isNot: bool) returns (r: seq<KeySequence>)
    ensures r == AllOutputs(outputs, if isNot then NotReplaced(key.both, key.left, key.right) else KeyReplaced(key.both, key.left))
  {
    hide ReplaceNot, ReplaceKey;
    r := outputs;
    var i := 0;
    while i < |r|
      invariant i <= |r| == |outputs|
      invariant forall j :: 0 <= j < i ==>
        r[j] == if isNot then ReplaceNot(outputs[j], key.both, key.left, key.right) else ReplaceKey(outputs[j], key.both, key.left)
      invariant forall j :: i <= j < |r| ==> r[j] == outputs[j]
    {
      var replaced;
      if isNot {
        replaced := ReplaceNotKey(r[i], key.both, key.left, key.right);
      } else {
        replaced := ReplaceKey(r[i], key.both, key.left);
      }
      r := r[i := replaced];
      i := i + 1;
    }
  }

  method ReplaceCommands(commands: seq<CommandOutput>, key: LogicalKey, isNot: bool) returns (r: seq<CommandOutput>)
    ensures r == AllCommands(commands, if isNot then NotReplaced(key.both, key.left, key.right) else KeyReplaced(key.both, key.left))
  {
    hide ReplaceNot, ReplaceKey;
    r := commands;
    var i := 0;
    while i < |r|
      invariant i <= |r| == |commands|
      invariant forall j :: 0 <= j < i ==> r[j] == commands[j].(output :=
        if isNot then ReplaceNot(commands[j].output, key.both, key.left, key.right) else ReplaceKey(commands[j].output, key.both, key.left))
      invariant forall j :: i <= j < |r| ==> r[j] == commands[j]
    {
      var replaced;
      if isNot {
        replaced := ReplaceNotKey(r[i].output, key.both, key.left, key.right);
      } else {
        replaced := ReplaceKey(r[i].output, key.both, key.left);
      }
      r := r[i := r[i].(output := replaced)];
      i := i + 1;
    }
  }

  method LowerContextMappings(c: ConfigContext, key: LogicalKey) returns (r: ConfigContext)
    requires ValidOutputs(c)
    ensures r == LowerContext(c, key.both, key.left, key.right)
  {
    hide ReplaceNot, ReplaceKey, SplitInputs;
    var inputs := c.inputs;
    var i := 0;
    while i < |inputs|
      invariant i <= |inputs| == |c.inputs|
      invariant inputs[..i] == AllInputs(c.inputs, key.both, key.left, key.right)[..i] && inputs[i..] == c.inputs[i..]
    {
      var replaced := ReplaceNotKey(inputs[i].input, key.both, key.left, key.right);
      assert inputs[i] == inputs[i..][0] == c.inputs[i];
      assert inputs[i + 1..] == inputs[i..][1..] == c.inputs[i + 1..];
      assert replaced == ReplaceNot(c.inputs[i].input, key.both, key.left, key.right);
      assert |replaced| > 0;
      inputs := inputs[..i] + [inputs[i].(input := replaced)] + inputs[i + 1..];
      i := i + 1;
    }
    assert inputs[..i] == inputs == AllInputs(c.inputs, key.both, key.left, key.right);
    var outputs := ReplaceOutputs(c.outputs, key, true);
    var commands := ReplaceCommands(c.commandOutputs, key, true);
    inputs, outputs := LowerInputs(inputs, outputs, key);
    outputs := ReplaceOutputs(outputs, key, false);
    commands := ReplaceCommands(commands, key, false);
    var modifiers := ReplaceNotKey(c.modifierFilter, key.both, key.left, key.right);
    r := c.(inputs := inputs, outputs := outputs, commandOutputs := commands, modifierFilter := modifiers);
  }

  // ---------------------------------------------------------------------------
  // The parser

  class ParseConfig {
    var contexts: seq<ConfigContext>
    var commands: seq<Command>
    var logicalKeys: seq<LogicalKey>
    var forwardModifiers: seq<Key>
    var afterEmptyContextBlock: bool
    var allowUnmappedCommands: bool
    var actions: nat

    ghost predicate Valid()
      reads this
    {
      && ContextsSound(contexts, LogicalKeyAt(|logicalKeys|))
      && ValidKeys(logicalKeys) && ValidCommands(commands)
      && ForwardsRegistered()
      && contexts != [] && !Last().fallsThrough
      && (afterEmptyContextBlock ==> !Last().beginStage && Last().inputs == [] && Last().commandOutputs == [])
    }

    ghost predicate ForwardsRegistered()
      reads this
    {
      forall i :: 0 <= i < |forwardModifiers| && IsLogicalKey(forwardModifiers[i]) ==>
        forwardModifiers[i] < LogicalKeyAt(|logicalKeys|)
    }

    function Last(): ConfigContext
      requires contexts != []
      reads this
    {
      contexts[|contexts| - 1]
    }

    constructor ()
      ensures Valid() && fresh(this)
      ensures contexts == [DEFAULT_CONTEXT] && forwardModifiers == [] && commands == []
      ensures AllLowerable(contexts, true)
      ensures logicalKeys == [LogicalKey(0xF500, 0x2A, 0x36), LogicalKey(0xF501, 0x1D, 0x61),
                              LogicalKey(0xF502, 0x38, 0x64), LogicalKey(0xF503, 0x7D, 0x7E)]
    {
      hide ContextsSound, AllLowerable;
      DefaultIsSound();
      contexts, commands, logicalKeys, forwardModifiers := [DEFAULT_CONTEXT], [], [], [];
      afterEmptyContextBlock, allowUnmappedCommands, actions := false, false, 0;
      new;
      var _ := AddLogicalKey(0x2A, 0x36);
      var _ := AddLogicalKey(0x1D, 0x61);
      var _ := AddLogicalKey(0x38, 0x64);
      var _ := AddLogicalKey(0x7D, 0x7E);
    }

    /** Registers a logical key for two keys, which may be logical keys that were
        registered before. */
    method AddLogicalKey(left: Key, right: Key) returns (r: ParseResult<Key>)
      requires Valid()
      requires IsLogicalKey(left) ==> left < LogicalKeyAt(|logicalKeys|)
      requires IsLogicalKey(right) ==> right < LogicalKeyAt(|logicalKeys|)
      modifies `logicalKeys
      ensures Valid()
      ensures r.Failed? <==> LogicalKeyAt(|old(logicalKeys)|) > LAST_LOGICAL
      ensures r.Failed? ==> logicalKeys == old(logicalKeys)
      ensures r.Done? ==>
        && r.value == LogicalKeyAt(|old(logicalKeys)|)
        && logicalKeys == old(logicalKeys) + [LogicalKey(r.value, left, right)]
    {
      var both := LogicalKeyAt(|logicalKeys|);
      if !IsLogicalKey(both) {
        return Failed("Too many logical keys");
      }
      SoundMonotone(contexts, both);
      logicalKeys := logicalKeys + [LogicalKey(both, left, right)];
      return Done(both);
    }

    /** A line with a context header: the block before it falls through when it is
        still empty, unless the new one begins a stage. */
    method ParseContext(header: ConfigContext)
      requires Valid() && IsHeader(header) && Registered(header.modifierFilter, |logicalKeys|)
      modifies `contexts, `afterEmptyContextBlock
      ensures Valid()
      ensures forall balanced :: old(AllLowerable(contexts, balanced)) ==> AllLowerable(contexts, balanced)
      ensures afterEmptyContextBlock == !header.beginStage
      ensures var n := |old(contexts)|;
        contexts == (if old(afterEmptyContextBlock) && !header.beginStage
                     then old(contexts)[n - 1 := old(contexts)[n - 1].(fallsThrough := true)]
                     else old(contexts)) + [header]
    {
      HeaderAdded(contexts, header, LogicalKeyAt(|logicalKeys|));
      contexts := contexts + [header];
      if header.beginStage {
        afterEmptyContextBlock := false;
      } else {
        if afterEmptyContextBlock {
          var n := |contexts|;
          LastMarked(contexts, LogicalKeyAt(|logicalKeys|));
          contexts := contexts[n - 2 := contexts[n - 2].(fallsThrough := true)];
        }
        afterEmptyContextBlock := true;
      }
    }

    /** Any other line which is not a directive ends the empty block. */
    method ParseMappings()
      requires Valid()
      modifies `afterEmptyContextBlock
      ensures Valid() && !afterEmptyContextBlock
    {
      afterEmptyContextBlock := false;
    }

    method AddMapping(input: Expression, output: KeySequence)
      requires Valid() && !afterEmptyContextBlock
      requires Registered(input, |logicalKeys|) && Registered(output, |logicalKeys|)
      modifies `contexts
      ensures Valid()
      ensures contexts == old(contexts)[|old(contexts)| - 1 := WithMapping(old(Last()), input, output)]
      ensures Mappings(Last().inputs, Last().outputs)
        == old(Mappings(Last().inputs, Last().outputs)) + [Mapping(input, Direct(output))]
      ensures forall balanced :: old(AllLowerable(contexts, balanced)) && M.ProperInput(input) && LowerableOutput(output, balanced) ==>
        AllLowerable(contexts, balanced)
    {
      var n := |contexts| - 1;
      var context := contexts[n];
      var added := WithMapping(context, input, output);
      MappingAdded(context, input, output);
      LastReplaced(contexts, added, LogicalKeyAt(|logicalKeys|));
      contexts := contexts[n := added];
    }

    /** Maps an input to a command, which gets the next negative index when it is new. */
    method AddCommand(input: Expression, name: string)
      requires Valid() && !afterEmptyContextBlock && Registered(input, |logicalKeys|)
      modifies `contexts, `commands
      ensures Valid()
      ensures var known := FindCommand(old(commands), name);
        && commands == old(commands) + (if known >= 0 then [] else [NamedCommand(name, -(|old(commands)| + 1), false)])
        && contexts == old(contexts)[|old(contexts)| - 1 :=
             WithCommand(old(Last()), input, -(if known >= 0 then known + 1 else |old(commands)| + 1))]
      ensures forall balanced :: old(AllLowerable(contexts, balanced)) && M.ProperInput(input) ==> AllLowerable(contexts, balanced)
    {
      var i := FindCommand(commands, name);
      if i < 0 {
        i := |commands|;
        commands := commands + [NamedCommand(name, -(|commands| + 1), false)];
      }
      var n := |contexts| - 1;
      var context := contexts[n];
      CommandAdded(context, input, commands[i].index);
      LastReplaced(contexts, WithCommand(context, input, commands[i].index), LogicalKeyAt(|logicalKeys|));
      contexts := contexts[n := WithCommand(context, input, commands[i].index)];
    }

    /** Maps a command to an output in the current context. */
    method AddCommandMapping(name: string, output: KeySequence) returns (r: ParseResult<()>)
      requires Valid() && !afterEmptyContextBlock && Registered(output, |logicalKeys|)
      modifies `contexts, `commands
      ensures Valid()
      ensures var i := FindCommand(old(commands), name);
        && (r.Failed? <==> i < 0 || exists j :: 0 <= j < |old(Last()).commandOutputs| && old(Last()).commandOutputs[j].index == -(i + 1))
        && (r.Failed? ==> contexts == old(contexts) && commands == old(commands))
        && (r.Done? ==>
              && contexts == old(contexts)[|old(contexts)| - 1 := old(Last()).(commandOutputs :=
                               old(Last()).commandOutputs + [CommandOutput(output, -(i + 1))])]
              && commands == old(commands)[i := old(commands)[i].(mapped := true)])
      ensures forall balanced :: old(AllLowerable(contexts, balanced)) && LowerableOutput(output, balanced) ==>
        AllLowerable(contexts, balanced)
    {
      var i := FindCommand(commands, name);
      if i < 0 {
        return Failed("Unknown command");
      }
      var n := |contexts| - 1;
      var context := contexts[n];
      if exists j :: 0 <= j < |context.commandOutputs| && context.commandOutputs[j].index == commands[i].index {
        return Failed("Duplicate mapping");
      }
      var added := context.(commandOutputs := context.commandOutputs + [CommandOutput(output, commands[i].index)]);
      CommandOutputAdded(context, output, commands[i].index);
      LastReplaced(contexts, added, LogicalKeyAt(|logicalKeys|));
      contexts := contexts[n := added];
      commands := commands[i := commands[i].(mapped := true)];
      return Done(());
    }

    /** Adds a context of its own, in front of all others, which toggles the others. */
    method AddToggleActiveContext(input: Expression) returns (r: ParseResult<()>)
      requires Valid() && Registered(input, |logicalKeys|)
      modifies `contexts, `actions
      ensures Valid()
      ensures r.Failed? <==> FIRST_ACTION + old(actions) > LAST_ACTION
      ensures r.Failed? ==> contexts == old(contexts)
      ensures r.Done? ==> contexts == [ToggleContext(input, FIRST_ACTION + old(actions))] + old(contexts)
      ensures forall balanced :: old(AllLowerable(contexts, balanced)) && M.ProperInput(input) ==> AllLowerable(contexts, balanced)
    {
      if FIRST_ACTION + actions > LAST_ACTION {
        return Failed("Too many actions");
      }
      var action: Key := FIRST_ACTION + actions;
      actions := actions + 1;
      var appended := contexts + [ToggleContext(input, action)];
      var n := |appended| - 1;
      ToggleAdded(contexts, input, action, LogicalKeyAt(|logicalKeys|));
      contexts := [appended[n]] + appended[..n];
      return Done(());
    }

    /** `forward-modifiers`: every stage maps each of the modifiers to itself first. */
    method PrependForwardModifierMappings()
      requires ConfigInv(contexts)
      modifies `contexts
      ensures contexts == WithForwards(old(contexts), forwardModifiers)
    {
      hide PrependForwards, PrependForward, ConfigInv;
      var i := 0;
      while i < |contexts|
        invariant i <= |contexts| == |old(contexts)|
        invariant contexts[..i] == WithForwards(old(contexts), forwardModifiers)[..i]
        invariant contexts[i..] == old(contexts)[i..]
      {
        var c := contexts[i];
        assert c == contexts[i..][0] == old(contexts)[i];
        assert contexts[i + 1..] == contexts[i..][1..] == old(contexts)[i + 1..];
        if c.beginStage {
          c := Forwarded(c);
        }
        contexts := contexts[..i] + [c] + contexts[i + 1..];
        i := i + 1;
      }
      assert contexts[..i] == contexts;
    }

    method Forwarded(c: ConfigContext) returns (r: ConfigContext)
      ensures r == PrependForwards(c, forwardModifiers)
    {
      r := c;
      var i := |forwardModifiers|;
      while i > 0
        invariant 0 <= i <= |forwardModifiers|
        invariant r == PrependForwards(c, forwardModifiers[i..])
      {
        i := i - 1;
        assert forwardModifiers[i..][1..] == forwardModifiers[i + 1..];
        r := PrependForward(r, forwardModifiers[i]);
      }
      assert forwardModifiers[0..] == forwardModifiers;
    }

    /** Removes contexts which can not match or have no mappings, moving mappings to
        a context which falls through to them, and keeps the meaning. */
    method OptimizeContexts()
      requires ConfigInv(contexts) && StagesPlain(contexts) && contexts != []
      requires !Last().fallsThrough
      modifies `contexts
      ensures ConfigInv(contexts) && contexts != []
      ensures AllValidOutputs(old(contexts)) && AllValidOutputs(contexts)
      ensures WithoutEmptyStages(Meaning(contexts)) == WithoutEmptyStages(Meaning(old(contexts)))
      ensures forall c :: c in contexts ==> c.systemFilterMatched
      ensures forall c :: c in contexts ==> c == EMPTY_CONTEXT || c.fallsThrough || !HasNoEffect(c, false)
      ensures forall bound :: AllBelow(old(contexts), bound) ==> AllBelow(contexts, bound)
      ensures forall balanced :: old(AllLowerable(contexts, balanced)) ==> AllLowerable(contexts, balanced)
    {
      hide ConfigInv, StagesPlain, Meaning, Optimized, WithoutEmptyStages, AllValidOutputs, OptimizeAt, HasNoEffect, AllBelow, AllLowerable;
      InvHasValidOutputs(contexts);
      NothingOptimized(contexts);
      var beforeContext := false;
      var i := |contexts|;
      while i > 0
        invariant 0 <= i <= |contexts|
        invariant OptimizeInv(contexts, i, beforeContext) && Optimized(contexts, i)
        invariant AllValidOutputs(contexts)
        invariant i > 0 ==> Meaning(contexts) == Meaning(old(contexts))
        invariant WithoutEmptyStages(Meaning(contexts)) == WithoutEmptyStages(Meaning(old(contexts)))
        invariant forall bound :: AllBelow(old(contexts), bound) ==> AllBelow(contexts, bound)
        invariant forall balanced :: old(AllLowerable(contexts, balanced)) ==> AllLowerable(contexts, balanced)
      {
        i := i - 1;
        OptimizeAtKeeps(contexts, i, beforeContext);
        OptimizeAtKeepsOutputs(contexts, i, beforeContext);
        InvHasValidOutputs(OptimizeAt(contexts, i, beforeContext).0);
        StageInFront(Meaning(OptimizeAt(contexts, i, beforeContext).0));
        beforeContext := OptimizeContext(i, beforeContext);
      }
      OptimizedAll(contexts);
      if contexts == [] {
        EmptyContextMeansNothing();
        contexts := [EMPTY_CONTEXT];
      }
    }

    /** One round of the loop over the contexts. */
    method OptimizeContext(i: nat, beforeContext: bool) returns (before: bool)
      requires i < |contexts|
      modifies `contexts
      ensures (contexts, before) == OptimizeAt(old(contexts), i, beforeContext)
    {
      before := beforeContext;
      var context := contexts[i];
      if context.fallsThrough {
        if !context.systemFilterMatched || !beforeContext {
          contexts := Erase(contexts, i);
        }
      } else {
        var hasNoEffect := context.inputs == [] && context.commandOutputs == [] && (i == 0 || !context.beginStage);
        if !context.systemFilterMatched || hasNoEffect {
          if i > 0 && contexts[i - 1].fallsThrough {
            contexts := contexts[i - 1 := contexts[i - 1].(inputs := context.inputs, outputs := context.outputs,
                                                           commandOutputs := context.commandOutputs, fallsThrough := false)];
          }
          contexts := Erase(contexts, i);
          before := false;
        } else {
          before := true;
        }
      }
    }

    /** Lowers one logical key in all contexts. */
    method ReplaceLogicalKey(key: LogicalKey)
      requires ConfigInv(contexts)
      modifies `contexts
      ensures AllValidOutputs(old(contexts))
      ensures contexts == ContextPasses.ReplaceLogicalKey(old(contexts), key)
    {
      InvHasValidOutputs(contexts);
      ReplaceInMappings(key);
      ReplaceInFilters(key);
    }

    method ReplaceInMappings(key: LogicalKey)
      requires AllValidOutputs(contexts)
      modifies `contexts
      ensures contexts == LowerContexts(old(contexts), key)
    {
      hide LowerContext, ValidOutputs;
      var i := 0;
      while i < |contexts|
        invariant i <= |contexts| == |old(contexts)|
        invariant contexts[..i] == LowerContexts(old(contexts), key)[..i]
        invariant contexts[i..] == old(contexts)[i..]
      {
        assert contexts[i] == contexts[i..][0] == old(contexts)[i];
        assert contexts[i + 1..] == contexts[i..][1..] == old(contexts)[i + 1..];
        var lowered := LowerContextMappings(contexts[i], key);
        contexts := contexts[..i] + [lowered] + contexts[i + 1..];
        i := i + 1;
      }
      assert contexts[..i] == contexts;
    }

    /** Inserts contexts which fall through, for the left key. */
    method ReplaceInFilters(key: LogicalKey)
      modifies `contexts
      ensures contexts == SplitContexts(old(contexts), key)
    {
      hide SplitContext, ReplaceKey, ContainsKey;
      var i := 0;
      assert contexts[0..] == contexts;
      while i < |contexts|
        invariant i <= |contexts|
        invariant contexts[..i] + SplitContexts(contexts[i..], key) == SplitContexts(old(contexts), key)
        decreases |contexts| - i
      {
        var c, before, behind := contexts[i], contexts[..i], contexts[i + 1..];
        assert contexts[i..][1..] == behind;
        ghost var rest := SplitContexts(behind, key);
        assert before + (SplitContext(c, key) + rest) == before + SplitContext(c, key) + rest;
        SplitLength(c, key);
        if ContainsKey(c.modifierFilter, key.both) {
          var left := c.(inputs := [], outputs := [], commandOutputs := [], fallsThrough := true,
                         modifierFilter := ReplaceKey(c.modifierFilter, key.both, key.left));
          var right := c.(modifierFilter := ReplaceKey(c.modifierFilter, key.both, key.right));
          contexts := before + [left, right] + behind;
          i := i + 2;
          assert contexts[..i] == before + [left, right] && contexts[i..] == behind;
        } else {
          i := i + 1;
          assert contexts[..i] == before + [c] && contexts[i..] == behind;
        }
      }
      assert contexts[..i] == contexts && contexts[i..] == [];
    }

    /** Lowers all logical keys, in reverse order of registration. */
    method ReplaceLogicalKeys()
      requires ConfigInv(contexts) && contexts != []
      modifies `contexts
      ensures contexts == ReplaceAll(old(contexts), logicalKeys) && contexts != []
    {
      hide ConfigInv, ContextPasses.ReplaceLogicalKey;
      var i := |logicalKeys|;
      assert logicalKeys[..i] == logicalKeys;
      while i > 0
        invariant 0 <= i <= |logicalKeys|
        invariant ConfigInv(contexts) && contexts != []
        invariant ReplaceAll(contexts, logicalKeys[..i]) == ReplaceAll(old(contexts), logicalKeys)
      {
        i := i - 1;
        assert logicalKeys[..i + 1][..i] == logicalKeys[..i];
        InvHasValidOutputs(contexts);
        ReplaceLogicalKeyInv(contexts, logicalKeys[i]);
        NeverEmpty(contexts, logicalKeys[i]);
        ReplaceLogicalKey(logicalKeys[i]);
      }
    }

    /** The end of parsing: all passes. What remains has sound chains and output
        indices, no logical keys, and means what the configuration meant, with the
        modifiers forwarded and the logical keys substituted. */
    method FinishParsing() returns (r: ParseResult<()>)
      requires Valid()
      modifies `contexts
      ensures r.Failed? <==> !allowUnmappedCommands && exists i :: 0 <= i < |commands| && !commands[i].mapped
      ensures r.Failed? ==> contexts == old(contexts)
      ensures r.Done? ==> ConfigInv(contexts) && contexts != []
      ensures r.Done? ==> forall c :: c in contexts ==> IsLogicalKeyFree(c)
      ensures r.Done? ==> forall balanced :: old(AllLowerable(contexts, balanced)) ==> AllLowerable(contexts, balanced)
      ensures r.Done? ==>
        && AllValidOutputs(contexts) && AllValidOutputs(WithForwards(old(contexts), forwardModifiers))
        && WithoutEmptyStages(Meaning(contexts))
           == LowerAll(WithoutEmptyStages(Meaning(WithForwards(old(contexts), forwardModifiers))), logicalKeys)
    {
      hide ConfigInv, StagesPlain, Meaning, WithoutEmptyStages, AllBelow, LowerAll, IsLogicalKeyFree, HasNoEffect, AllLowerable;
      hide AllValidOutputs, ValidKeys, ReplaceAll, NothingHidden;
      if !allowUnmappedCommands && exists i :: 0 <= i < |commands| && !commands[i].mapped {
        return Failed("Command was not mapped");
      }
      ghost var bound := LogicalKeyAt(|logicalKeys|);
      WithForwardsSound(contexts, forwardModifiers, bound);
      PrependForwardModifierMappings();
      OptimizeContexts();
      ghost var optimized := contexts;
      ReplaceLogicalKeys();
      InvHasValidOutputs(contexts);
      InvHasValidOutputs(optimized);
      ReplaceAllMeaning(optimized, logicalKeys);
      LowerAllDropStages(Meaning(optimized), logicalKeys);
      ReplaceAllRemovesLogicalKeys(optimized, logicalKeys);
      return Done(());
    }
  }
}
