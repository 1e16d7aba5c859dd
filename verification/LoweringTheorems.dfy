/** What lowering a logical key keeps, and what it removes. */
module LoweringTheorems {
  import opened Keys
  import opened Outputs
  import opened Contexts
  import opened Lowering
  import M = Mappings

  // ---------------------------------------------------------------------------
  // Logical keys disappear, the last one registered first

  /** All logical keys in the sequence were registered before `bound`. */
  predicate KeysBelow(s: KeySequence, bound: int) {
    forall i :: 0 <= i < |s| && IsLogicalKey(s[i].key) ==> s[i].key < bound
  }

  predicate InputsBelow(inputs: seq<Input>, bound: int) {
    forall i :: 0 <= i < |inputs| ==> KeysBelow(inputs[i].input, bound)
  }

  predicate OutputsBelow(outputs: seq<KeySequence>, bound: int) {
    forall i :: 0 <= i < |outputs| ==> KeysBelow(outputs[i], bound)
  }

  predicate CommandsBelow(commands: seq<CommandOutput>, bound: int) {
    forall i :: 0 <= i < |commands| ==> KeysBelow(commands[i].output, bound)
  }

  predicate ContextBelow(c: ConfigContext, bound: int) {
    && KeysBelow(c.modifierFilter, bound)
    && InputsBelow(c.inputs, bound)
    && OutputsBelow(c.outputs, bound)
    && CommandsBelow(c.commandOutputs, bound)
  }

  predicate AllBelow(contexts: seq<ConfigContext>, bound: int) {
    forall i :: 0 <= i < |contexts| ==> ContextBelow(contexts[i], bound)
  }

  predicate IsLogicalKeyFree(c: ConfigContext) {
    && (forall i :: 0 <= i < |c.modifierFilter| ==> !IsLogicalKey(c.modifierFilter[i].key))
    && (forall i, j :: 0 <= i < |c.inputs| && 0 <= j < |c.inputs[i].input| ==> !IsLogicalKey(c.inputs[i].input[j].key))
    && (forall i, j :: 0 <= i < |c.outputs| && 0 <= j < |c.outputs[i]| ==> !IsLogicalKey(c.outputs[i][j].key))
    && (forall i, j :: 0 <= i < |c.commandOutputs| && 0 <= j < |c.commandOutputs[i].output| ==>
          !IsLogicalKey(c.commandOutputs[i].output[j].key))
  }

  lemma BelowFirstIsFree(contexts: seq<ConfigContext>)
    requires AllBelow(contexts, FIRST_LOGICAL)
    ensures forall i :: 0 <= i < |contexts| ==> IsLogicalKeyFree(contexts[i])
  {
  }

  /** A key and what stands for it. */
  datatype LogicalKey = LogicalKey(both: Key, left: Key, right: Key) {
    /** Both sides were registered before, if they are logical at all. */
    predicate Valid() {
      && IsLogicalKey(both)
      && (IsLogicalKey(left) ==> left < both)
      && (IsLogicalKey(right) ==> right < both)
    }
  }

  lemma ReplacedBelow(s: KeySequence, key: LogicalKey, side: Key)
    requires KeysBelow(s, key.both + 1) && (IsLogicalKey(side) ==> side < key.both)
    ensures KeysBelow(ReplaceKey(s, key.both, side), key.both)
  {
  }

  lemma AbsentBelow(s: KeySequence, key: LogicalKey)
    requires KeysBelow(s, key.both + 1) && !ContainsKey(s, key.both)
    ensures KeysBelow(s, key.both)
  {
  }

  lemma {:induction false} ReplaceNotBelow(s: KeySequence, key: LogicalKey, bound: int)
    requires KeysBelow(s, bound) && key.both < bound && key.Valid()
    ensures KeysBelow(ReplaceNot(s, key.both, key.left, key.right), bound)
    decreases |s|
  {
    if s != [] {
      assert KeysBelow(s[1..], bound) by {
        forall i | 0 <= i < |s| - 1 && IsLogicalKey(s[1..][i].key) ensures s[1..][i].key < bound {
          assert s[1..][i] == s[i + 1];
        }
      }
      ReplaceNotBelow(s[1..], key, bound);
      assert IsLogicalKey(s[0].key) ==> s[0].key < bound;
    }
  }

  lemma {:induction false} SplitBelow(inputs: seq<Input>, outputs: seq<KeySequence>, key: LogicalKey)
    requires key.Valid()
    requires forall i :: 0 <= i < |inputs| ==> inputs[i].outputIndex < |outputs|
    requires InputsBelow(inputs, key.both + 1) && OutputsBelow(outputs, key.both + 1)
    ensures InputsBelow(SplitInputs(inputs, outputs, key.both, key.left, key.right).0, key.both)
    ensures OutputsBelow(SplitInputs(inputs, outputs, key.both, key.left, key.right).1, key.both + 1)
    decreases |inputs|
  {
    hide KeysBelow, ContainsKey, ReplaceKey, LogicalKey.Valid, IsLogicalKey;
    if inputs != [] {
      assert InputsBelow(inputs[1..], key.both + 1);
      assert KeysBelow(inputs[0].input, key.both + 1);
      if !ContainsKey(inputs[0].input, key.both) {
        SplitBelow(inputs[1..], outputs, key);
        AbsentBelow(inputs[0].input, key);
      } else {
        var more := RightInput(inputs[0], outputs, key.both, key.right).1;
        SidesBelow(key);
        ReplacedBelow(inputs[0].input, key, key.left);
        ReplacedBelow(inputs[0].input, key, key.right);
        RightOutputsBelow(inputs[0], outputs, key);
        SplitBelow(inputs[1..], more, key);
      }
    }
  }

  lemma SidesBelow(key: LogicalKey)
    requires key.Valid()
    ensures IsLogicalKey(key.left) ==> key.left < key.both
    ensures IsLogicalKey(key.right) ==> key.right < key.both
  {
  }

  lemma RightOutputsBelow(input: Input, outputs: seq<KeySequence>, key: LogicalKey)
    requires key.Valid() && input.outputIndex < |outputs|
    requires OutputsBelow(outputs, key.both + 1)
    ensures OutputsBelow(RightInput(input, outputs, key.both, key.right).1, key.both + 1)
  {
    hide KeysBelow;
    if input.outputIndex >= 0 {
      ReplacedBelow(outputs[input.outputIndex], key, key.right);
      BelowMore(ReplaceKey(outputs[input.outputIndex], key.both, key.right), key.both);
    }
  }

  lemma BelowMore(s: KeySequence, bound: int)
    requires KeysBelow(s, bound)
    ensures KeysBelow(s, bound + 1)
  {
  }

  /** Lowering a context removes the logical key from everything but the
      modifier filter, and no other logical key comes in. */
  lemma LoweredBelow(c: ConfigContext, key: LogicalKey)
    requires key.Valid() && ValidOutputs(c) && ContextBelow(c, key.both + 1)
    ensures var r := LowerContext(c, key.both, key.left, key.right);
      && (!ContainsKey(r.modifierFilter, key.both) ==> ContextBelow(r, key.both))
      && KeysBelow(r.modifierFilter, key.both + 1)
      && ContextBelow(r.(modifierFilter := []), key.both)
  {
    hide KeysBelow, ContainsKey, ReplaceKey, ReplaceNot, SplitInputs, LogicalKey.Valid, IsLogicalKey;
    var bound := key.both + 1;
    var inputs := AllInputs(c.inputs, key.both, key.left, key.right);
    var outputs := AllOutputs(c.outputs, NotReplaced(key.both, key.left, key.right));
    var commands := AllCommands(c.commandOutputs, NotReplaced(key.both, key.left, key.right));
    SidesBelow(key);
    forall i | 0 <= i < |inputs| ensures KeysBelow(inputs[i].input, bound) {
      ReplaceNotBelow(c.inputs[i].input, key, bound);
    }
    assert InputsBelow(inputs, bound);
    forall i | 0 <= i < |outputs| ensures KeysBelow(outputs[i], bound) {
      ReplaceNotBelow(c.outputs[i], key, bound);
    }
    SplitBelow(inputs, outputs, key);
    var (split, all) := SplitInputs(inputs, outputs, key.both, key.left, key.right);
    var r := LowerContext(c, key.both, key.left, key.right);
    forall i | 0 <= i < |all| ensures KeysBelow(r.outputs[i], key.both) {
      ReplacedBelow(all[i], key, key.left);
    }
    forall i | 0 <= i < |commands| ensures KeysBelow(r.commandOutputs[i].output, key.both) {
      ReplaceNotBelow(c.commandOutputs[i].output, key, bound);
      ReplacedBelow(commands[i].output, key, key.left);
    }
    ReplaceNotBelow(c.modifierFilter, key, bound);
    if !ContainsKey(r.modifierFilter, key.both) {
      AbsentBelow(r.modifierFilter, key);
    }
    EmptyBelow(key.both);
  }

  lemma EmptyBelow(bound: int)
    ensures KeysBelow([], bound)
  {
  }

  // ---------------------------------------------------------------------------
  // Lowered outputs stay balanced

  /** The keys an output has pressed since its beginning or the last `^`. */
  function PressedBy(s: KeySequence): set<Key> {
    if s == [] then {}
    else
      var event, before := s[|s| - 1], PressedBy(s[..|s| - 1]);
      if event.state == Down then before + {event.key}
      else if event.state == OutputOnRelease then {}
      else before
  }

  /** The key is pressed at `j` and not before the last `^`. */
  predicate PressedAt(s: KeySequence, k: Key, j: nat) {
    j < |s| && s[j].key == k && s[j].state == Down && forall m :: j < m < |s| ==> s[m].state != OutputOnRelease
  }

  lemma {:induction false} PressedByIsPressed(s: KeySequence, k: Key)
    ensures k in PressedBy(s) <==> exists j: nat :: PressedAt(s, k, j)
    decreases |s|
  {
    if s != [] {
      var n := |s| - 1;
      var before := s[..n];
      PressedByIsPressed(before, k);
      if s[n].state == Down && s[n].key == k {
        assert PressedAt(s, k, n);
      } else if s[n].state != OutputOnRelease {
        forall j: nat ensures PressedAt(s, k, j) <==> PressedAt(before, k, j) {
          assert j < n ==> s[j] == before[j];
          assert forall m :: j < m < n ==> s[m] == before[m];
        }
      }
    }
  }

  ghost predicate EventBalanced(s: KeySequence, i: nat)
    requires i < |s|
  {
    s[i].state == Up ==> exists j: nat :: PressedAt(s[..i], s[i].key, j)
  }

  lemma EventsBalanced(s: KeySequence)
    ensures BalancedOutput(s) <==> forall i: nat :: i < |s| ==> EventBalanced(s, i)
  {
    forall i: nat, j: nat | j < i < |s|
      ensures PressedAt(s[..i], s[i].key, j)
        <==> (s[j].key == s[i].key && s[j].state == Down && forall m :: j < m < i ==> s[m].state != OutputOnRelease)
    {
      assert forall m :: 0 <= m < i ==> s[..i][m] == s[m];
    }
    if BalancedOutput(s) {
      forall i: nat | i < |s| && s[i].state == Up ensures EventBalanced(s, i) {
        var j :| 0 <= j < i && s[j].key == s[i].key && s[j].state == Down
                 && forall m :: j < m < i ==> s[m].state != OutputOnRelease;
        assert PressedAt(s[..i], s[i].key, j);
      }
    }
    if forall i: nat :: i < |s| ==> EventBalanced(s, i) {
      forall i | 0 <= i < |s| && s[i].state == Up
        ensures exists j :: 0 <= j < i && s[j].key == s[i].key && s[j].state == Down
                            && forall m :: j < m < i ==> s[m].state != OutputOnRelease
      {
        assert EventBalanced(s, i);
        var j: nat :| PressedAt(s[..i], s[i].key, j);
      }
    }
  }

  /** `BalancedOutput` by recursion, when these keys are pressed already. */
  predicate Balances(s: KeySequence, pressed: set<Key>) {
    if s == [] then true
    else if s[0].state == Down then Balances(s[1..], pressed + {s[0].key})
    else if s[0].state == OutputOnRelease then Balances(s[1..], {})
    else (s[0].state == Up ==> s[0].key in pressed) && Balances(s[1..], pressed)
  }

  lemma {:induction false} BalancesFrom(s: KeySequence, i: nat)
    requires i <= |s|
    ensures Balances(s[i..], PressedBy(s[..i])) <==> forall n: nat :: i <= n < |s| ==> EventBalanced(s, n)
    decreases |s| - i
  {
    if i < |s| {
      assert s[i..][1..] == s[i + 1..] && s[..i + 1][..i] == s[..i];
      BalancesFrom(s, i + 1);
      PressedByIsPressed(s[..i], s[i].key);
      hide EventBalanced;
      assert EventBalanced(s, i) <==> (s[i].state == Up ==> s[i].key in PressedBy(s[..i])) by {
        EventByPressed(s, i);
      }
    }
  }

  lemma EventByPressed(s: KeySequence, i: nat)
    requires i < |s|
    ensures EventBalanced(s, i) <==> (s[i].state == Up ==> s[i].key in PressedBy(s[..i]))
  {
    PressedByIsPressed(s[..i], s[i].key);
  }

  lemma BalancesIsBalanced(s: KeySequence)
    ensures Balances(s, {}) <==> BalancedOutput(s)
  {
    hide Balances, EventBalanced;
    BalancesFrom(s, 0);
    EventsBalanced(s);
    assert s[0..] == s && s[..0] == [];
  }

  lemma {:induction false} ReplaceNotBalances(s: KeySequence, both: Key, left: Key, right: Key, pressed: set<Key>)
    ensures Balances(ReplaceNot(s, both, left, right), pressed) <==> Balances(s, pressed)
    decreases |s|
  {
    if s != [] {
      var rest := ReplaceNot(s[1..], both, left, right);
      var replaced := ReplaceNot(s, both, left, right);
      if s[0].state == Not && s[0].key == both {
        assert replaced[1..] == [s[0].(key := right)] + rest && replaced[1..][1..] == rest;
        ReplaceNotBalances(s[1..], both, left, right, pressed);
      } else {
        assert replaced[1..] == rest;
        ReplaceNotBalances(s[1..], both, left, right, pressed);
        ReplaceNotBalances(s[1..], both, left, right, pressed + {s[0].key});
        ReplaceNotBalances(s[1..], both, left, right, {});
      }
    }
  }

  lemma {:induction false} ReplaceKeyBalances(s: KeySequence, both: Key, key: Key, pressed: set<Key>, renamed: set<Key>)
    requires Balances(s, pressed)
    requires forall k :: k in pressed ==> Renamed(k, both, key) in renamed
    ensures Balances(ReplaceKey(s, both, key), renamed)
    decreases |s|
  {
    if s != [] {
      assert ReplaceKey(s, both, key)[1..] == ReplaceKey(s[1..], both, key);
      var next := if s[0].state == Down then pressed + {s[0].key}
                  else if s[0].state == OutputOnRelease then {} else pressed;
      var after := if s[0].state == Down then renamed + {Renamed(s[0].key, both, key)}
                   else if s[0].state == OutputOnRelease then {} else renamed;
      ReplaceKeyBalances(s[1..], both, key, next, after);
    }
  }

  lemma ReplaceKeepsBalance(s: KeySequence, both: Key, key: Key)
    requires BalancedOutput(s)
    ensures BalancedOutput(ReplaceKey(s, both, key))
  {
    hide BalancedOutput, Balances;
    BalancesIsBalanced(s);
    ReplaceKeyBalances(s, both, key, {}, {});
    BalancesIsBalanced(ReplaceKey(s, both, key));
  }

  /** What a stage relies on: outputs it has cases for and, if that is asked for,
      which release only what they pressed. */
  predicate LowerableOutput(s: KeySequence, balanced: bool) { ValidOutput(s) && (balanced ==> BalancedOutput(s)) }

  lemma {:induction false} ReplaceNotKeepsValid(s: KeySequence, both: Key, left: Key, right: Key)
    requires ValidOutput(s)
    ensures ValidOutput(ReplaceNot(s, both, left, right))
    decreases |s|
  {
    if s != [] {
      assert ValidOutput(s[1..]) by {
        assert forall i :: 0 <= i < |s| - 1 ==> s[1..][i] == s[i + 1];
      }
      ReplaceNotKeepsValid(s[1..], both, left, right);
    }
  }

  lemma ReplacedNotLowerable(s: KeySequence, both: Key, left: Key, right: Key, balanced: bool)
    requires LowerableOutput(s, balanced)
    ensures LowerableOutput(ReplaceNot(s, both, left, right), balanced)
  {
    hide BalancedOutput, Balances, ReplaceNot, ValidOutput;
    ReplaceNotKeepsValid(s, both, left, right);
    if balanced {
      BalancesIsBalanced(s);
      ReplaceNotBalances(s, both, left, right, {});
      BalancesIsBalanced(ReplaceNot(s, both, left, right));
    }
  }

  lemma ReplacedLowerable(s: KeySequence, both: Key, key: Key, balanced: bool)
    requires LowerableOutput(s, balanced) && both != NONE
    ensures LowerableOutput(ReplaceKey(s, both, key), balanced)
  {
    hide BalancedOutput;
    if balanced {
      ReplaceKeepsBalance(s, both, key);
    }
  }

  predicate OutputsLowerable(outputs: seq<KeySequence>, balanced: bool) {
    forall i :: 0 <= i < |outputs| ==> LowerableOutput(outputs[i], balanced)
  }

  predicate CommandsLowerable(commands: seq<CommandOutput>, balanced: bool) {
    forall i :: 0 <= i < |commands| ==> LowerableOutput(commands[i].output, balanced)
  }

  predicate InputsProper(inputs: seq<Input>) {
    forall i :: 0 <= i < |inputs| ==> M.ProperInput(inputs[i].input)
  }

  /** What the passes keep and the stages rely on, besides indices and chains: no
      input is `?` alone, and every command is mapped at most once. */
  predicate ContextLowerable(c: ConfigContext, balanced: bool) {
    && OutputsLowerable(c.outputs, balanced) && CommandsLowerable(c.commandOutputs, balanced)
    && InputsProper(c.inputs) && M.DistinctCommands(c.commandOutputs)
  }

  lemma {:induction false} SplitProper(inputs: seq<Input>, outputs: seq<KeySequence>, both: Key, left: Key, right: Key)
    requires forall i :: 0 <= i < |inputs| ==> inputs[i].outputIndex < |outputs|
    requires InputsProper(inputs)
    ensures InputsProper(SplitInputs(inputs, outputs, both, left, right).0)
    decreases |inputs|
  {
    hide ContainsKey;
    if inputs != [] {
      assert M.ProperInput(inputs[0].input);
      assert forall i :: 0 <= i < |inputs| - 1 ==> inputs[1..][i] == inputs[i + 1];
      if !ContainsKey(inputs[0].input, both) {
        SplitProper(inputs[1..], outputs, both, left, right);
      } else {
        SplitProper(inputs[1..], RightInput(inputs[0], outputs, both, right).1, both, left, right);
      }
    }
  }

  lemma ReplacedNotProper(s: KeySequence, both: Key, left: Key, right: Key)
    requires M.ProperInput(s)
    ensures M.ProperInput(ReplaceNot(s, both, left, right))
  {
  }

  lemma {:induction false} SplitLowerable(inputs: seq<Input>, outputs: seq<KeySequence>, both: Key, left: Key, right: Key,
                                            balanced: bool)
    requires forall i :: 0 <= i < |inputs| ==> inputs[i].outputIndex < |outputs|
    requires OutputsLowerable(outputs, balanced) && both != NONE
    ensures OutputsLowerable(SplitInputs(inputs, outputs, both, left, right).1, balanced)
    decreases |inputs|
  {
    hide LowerableOutput, ContainsKey, ReplaceKey;
    if inputs != [] {
      if !ContainsKey(inputs[0].input, both) {
        SplitLowerable(inputs[1..], outputs, both, left, right, balanced);
      } else {
        if inputs[0].outputIndex >= 0 {
          ReplacedLowerable(outputs[inputs[0].outputIndex], both, right, balanced);
        }
        SplitLowerable(inputs[1..], RightInput(inputs[0], outputs, both, right).1, both, left, right, balanced);
      }
    }
  }

  /** Lowering keeps what the stages rely on: proper inputs, distinct commands, and
      outputs which release only what they pressed. */
  lemma LoweringKeepsBalance(c: ConfigContext, both: Key, left: Key, right: Key, balanced: bool)
    requires ValidOutputs(c) && ContextLowerable(c, balanced) && both != NONE
    ensures ContextLowerable(LowerContext(c, both, left, right), balanced)
  {
    hide LowerableOutput, ContainsKey, ReplaceKey, ReplaceNot, SplitInputs, M.ProperInput;
    var inputs := AllInputs(c.inputs, both, left, right);
    var outputs := AllOutputs(c.outputs, NotReplaced(both, left, right));
    var commands := AllCommands(c.commandOutputs, NotReplaced(both, left, right));
    forall i | 0 <= i < |inputs| ensures M.ProperInput(inputs[i].input) {
      ReplacedNotProper(c.inputs[i].input, both, left, right);
    }
    SplitProper(inputs, outputs, both, left, right);
    forall i | 0 <= i < |outputs| ensures LowerableOutput(outputs[i], balanced) {
      ReplacedNotLowerable(c.outputs[i], both, left, right, balanced);
    }
    SplitLowerable(inputs, outputs, both, left, right, balanced);
    var (split, all) := SplitInputs(inputs, outputs, both, left, right);
    var r := LowerContext(c, both, left, right);
    forall i | 0 <= i < |all| ensures LowerableOutput(r.outputs[i], balanced) {
      ReplacedLowerable(all[i], both, left, balanced);
    }
    forall i | 0 <= i < |commands| ensures LowerableOutput(r.commandOutputs[i].output, balanced) {
      ReplacedNotLowerable(c.commandOutputs[i].output, both, left, right, balanced);
      ReplacedLowerable(commands[i].output, both, left, balanced);
    }
  }
}
