/** From the configuration to the stages: what the compilers guarantee is what the
    stages rely on. */
module EndToEnd {
  import opened Keys
  import opened Compiler
  import opened Outputs
  import opened Contexts
  import opened Mappings
  import opened Lowering
  import opened LoweringTheorems
  import opened ContextPasses
  import B = OutputBalance
  import BareMark
  import LedgerRuns
  import W = Wire
  import S = StageModel

  // ---------------------------------------------------------------------------
  // Compiled outputs

  lemma {:induction false} ReleasesAreValid(keys: seq<Key>)
    ensures ValidOutput(ReleaseEvents(keys, false))
    decreases |keys|
  {
    if keys != [] {
      ReleasesAreValid(keys[..|keys| - 1]);
    }
  }

  lemma AppendValid(a: KeySequence, b: KeySequence)
    requires ValidOutput(a) && ValidOutput(b)
    ensures ValidOutput(a + b)
  {
  }

  lemma FlushKeepsValid(p: Parser, up: bool)
    requires !p.isInput && ValidOutput(p.sequence)
    ensures !p.Flush(up).isInput && ValidOutput(p.Flush(up).sequence)
  {
    hide WithoutKeys;
    assert ValidOutput(Keys.Events(p.buffer, Down)) && ValidOutput(Keys.Events(p.buffer, Up));
  }

  lemma ReleaseKeepsValid(p: Parser, keep: nat)
    requires !p.isInput && ValidOutput(p.sequence)
    ensures !p.ReleaseTo(keep).isInput && ValidOutput(p.ReleaseTo(keep).sequence)
  {
    hide ReleaseEvents;
    if |p.pressed| > keep {
      ReleasesAreValid(p.pressed[keep..]);
      AppendValid(p.sequence, ReleaseEvents(p.pressed[keep..], false));
    }
  }

  lemma TimeoutKeepsValid(p: Parser, value: Value, isNot: bool)
    requires !p.isInput && ValidOutput(p.sequence) && p.AddTimeout(value, isNot).Ok?
    ensures var q := p.AddTimeout(value, isNot).value; !q.isInput && ValidOutput(q.sequence)
  {
    hide Parser.Flush;
    FlushKeepsValid(p, true);
  }

  lemma NotKeepsValid(p: Parser, k: Key)
    requires !p.isInput && ValidOutput(p.sequence)
    ensures !p.AddNot(k).isInput && ValidOutput(p.AddNot(k).sequence)
  {
    hide Parser.Flush, WithoutKeys, RFindKey;
    FlushKeepsValid(p, IsVirtualKey(k));
  }

  lemma CloseKeepsValid(p: Parser)
    requires !p.isInput && ValidOutput(p.sequence) && p.inModified > 0 && p.pressedBefore != []
    ensures !p.CloseGroup().isInput && ValidOutput(p.CloseGroup().sequence)
  {
    hide Parser.Flush, Parser.ReleaseTo;
    FlushKeepsValid(p, true);
    ReleaseKeepsValid(p.Flush(true), p.pressedBefore[|p.pressedBefore| - 1]);
  }

  lemma NextKeepsValid(p: Parser, token: Token)
    requires !p.isInput && ValidOutput(p.sequence) && p.Next(token).Ok?
    ensures var q := p.Next(token).value; !q.isInput && ValidOutput(q.sequence)
  {
    hide Parser.Flush, Parser.AddNot, Parser.AddTimeout, Parser.CloseGroup;
    FlushKeepsValid(p, true);
    match token
    case NotKey(key) => NotKeepsValid(p, key);
    case NotTimeout(value) => TimeoutKeepsValid(p, value, true);
    case Timeout(value) => TimeoutKeepsValid(p, value, false);
    case OpenModified => FlushKeepsValid(p.(pressedBefore := p.pressedBefore + [|p.pressed|]), false);
    case CloseModified => CloseKeepsValid(p);
    case CloseTogether =>
      assert p.sequence + [] == p.sequence;
    case KeyName(_) =>
    case OpenTogether =>
    case Command(_) =>
    case OnRelease =>
    case NoMightMatchMark =>
    case Comment =>
    case Invalid =>
  }

  lemma {:induction false} ParseKeepsValid(p: Parser, tokens: seq<Token>)
    requires !p.isInput && ValidOutput(p.sequence) && ParseTokens(p, tokens).Ok?
    ensures var q := ParseTokens(p, tokens).value; !q.isInput && ValidOutput(q.sequence)
    decreases |tokens|
  {
    hide Parser.Flush, Parser.Next, ValidOutput;
    if tokens == [] || tokens[0].Comment? {
      FlushKeepsValid(p, true);
    } else {
      NextKeepsValid(p, tokens[0]);
      ParseKeepsValid(p.Next(tokens[0]).value, tokens[1..]);
    }
  }

  /** Outputs consist of what the stages apply, with a `^` that has no key. */
  lemma CompiledOutputIsValid(tokens: seq<Token>)
    requires Compile(tokens, false).Ok?
    ensures ValidOutput(Compile(tokens, false).value)
  {
    hide ParseTokens, Parser.ReleaseTo, AllPressedAtOnce;
    ParseKeepsValid(Start(false), tokens);
    ReleaseKeepsValid(ParseTokens(Start(false), tokens).value, 0);
  }

  /** So an output without `^` is all that the stages rely on. */
  lemma CompiledOutputIsLowerable(tokens: seq<Token>)
    requires B.WithoutRelease(tokens) && Compile(tokens, false).Ok?
    ensures LowerableOutput(Compile(tokens, false).value, true)
  {
    hide Compile, BalancedOutput, ValidOutput;
    CompiledOutputIsValid(tokens);
    B.OutputWithoutReleaseIsBalanced(tokens);
  }

  /** And one with `^`, if no key is held when it is reached. */
  lemma CompiledReleaseIsLowerable(first: seq<Token>, second: seq<Token>)
    requires B.WithoutRelease(first) && B.Plain(first) && Compile(first + [OnRelease] + second, false).Ok?
    requires B.HeldAfter(first) == []
    ensures LowerableOutput(Compile(first + [OnRelease] + second, false).value, true)
  {
    hide Compile, BalancedOutput, ValidOutput, B.HeldAfter;
    CompiledOutputIsValid(first + [OnRelease] + second);
    B.OutputIsBalancedIfNothingIsHeld(first, second);
  }

  lemma OneFlushed(p: Parser, k: Key)
    requires !p.isInput && p.buffer == [k] && p.pressed == []
    ensures p.Flush(true) == p.(buffer := [], sequence := p.sequence + [Press(k), Release(k)])
    ensures p.Flush(false) == p.(buffer := [], sequence := p.sequence + [Press(k)], pressed := [k])
  {
    assert Keys.Events([k], Down) == [Press(k)] && Keys.Events([k], Up) == [Release(k)];
    assert p.sequence + [Press(k)] + [Release(k)] == p.sequence + [Press(k), Release(k)];
    assert p.sequence + [Press(k)] + [] == p.sequence + [Press(k)];
    assert [] + [k] == [k];
  }

  lemma NothingFlushed(p: Parser)
    requires p.buffer == []
    ensures p.Flush(true) == p == p.Flush(false)
  {
    FlushNothing(p);
    assert p.sequence + [] + [] == p.sequence && p.pressed + [] == p.pressed;
  }

  lemma OneParsed(p: Parser, token: Token, q: Parser, rest: seq<Token>)
    requires p.Next(token) == Ok(q) && !token.Comment?
    ensures ParseTokens(p, [token] + rest) == ParseTokens(q, rest)
  {
    assert ([token] + rest)[1..] == rest;
  }

  /** What single tokens of an output do outside of groups. */
  lemma PlainSteps(p: Parser, k: Key)
    requires !p.isInput && !p.inTogether && p.inModified == 0 && p.buffer == [] && IsDeviceKey(k)
    ensures p.Next(KeyName(k)) == Ok(p.(buffer := [k]))
    ensures !p.outputOnRelease ==>
      p.Next(OnRelease) == Ok(p.(sequence := p.sequence + [LedgerRuns.RELEASE_MARK], outputOnRelease := true))
    ensures p.pressed == [] ==> p.Next(NotKey(k)) == Ok(p.(sequence := p.sequence + [KeyEvent(k, Not, 0)]))
  {
    hide Parser.Flush;
    NothingFlushed(p);
    assert [] + [k] == [k];
    assert WithoutKeys([], [k]) == [];
  }

  lemma BufferedSteps(p: Parser, k: Key, j: Key)
    requires !p.isInput && !p.inTogether && p.inModified == 0 && p.buffer == [k] && p.pressed == [] && IsDeviceKey(j)
    ensures p.Next(KeyName(j)) == Ok(p.(buffer := [j], sequence := p.sequence + [Press(k), Release(k)]))
    ensures !p.outputOnRelease ==>
      p.Next(OnRelease) == Ok(p.(buffer := [], sequence := p.sequence + [Press(k), Release(k), LedgerRuns.RELEASE_MARK],
                                 outputOnRelease := true))
    ensures j != k ==>
      p.Next(NotKey(j)) == Ok(p.(buffer := [], pressed := [k], sequence := p.sequence + [Press(k), KeyEvent(j, Not, 0)]))
  {
    hide Parser.Flush;
    OneFlushed(p, k);
    assert [] + [j] == [j] && [k][1..] == [];
    assert j != k ==> WithoutKeys([k], [j]) == [k] + WithoutKeys([], [j]) == [k];
    assert p.sequence + [Press(k), Release(k)] + [LedgerRuns.RELEASE_MARK]
        == p.sequence + [Press(k), Release(k), LedgerRuns.RELEASE_MARK];
    assert p.sequence + [Press(k)] + [KeyEvent(j, Not, 0)] == p.sequence + [Press(k), KeyEvent(j, Not, 0)];
  }

  /** `K ^ !K K` */
  lemma FirstIsCompiled(k: Key)
    requires IsDeviceKey(k)
    ensures Compile([KeyName(k), OnRelease, NotKey(k), KeyName(k)], false) == Ok(LedgerRuns.FirstOutput(k))
  {
    hide Parser.Finish, Parser.Next, Parser.Flush;
    var p0 := Start(false);
    var p1 := p0.(buffer := [k]);
    var p2 := p0.(sequence := [] + [Press(k), Release(k), LedgerRuns.RELEASE_MARK], outputOnRelease := true);
    var p3 := p2.(sequence := p2.sequence + [KeyEvent(k, Not, 0)]);
    var p4 := p3.(buffer := [k]);
    var p5 := p3.(sequence := p3.sequence + [Press(k), Release(k)]);
    PlainSteps(p0, k);
    BufferedSteps(p1, k, k);
    PlainSteps(p2, k);
    PlainSteps(p3, k);
    OneFlushed(p4, k);
    assert ParseTokens(p4, []) == Ok(p5);
    hide ParseTokens;
    var t3 := [KeyName(k)] + [];
    var t2 := [NotKey(k)] + t3;
    var t1 := [OnRelease] + t2;
    OneParsed(p3, KeyName(k), p4, []);
    OneParsed(p2, NotKey(k), p3, t3);
    OneParsed(p1, OnRelease, p2, t2);
    OneParsed(p0, KeyName(k), p1, t1);
    assert [KeyName(k)] + t1 == [KeyName(k), OnRelease, NotKey(k), KeyName(k)];
    assert p5.sequence == LedgerRuns.FirstOutput(k);
    FinishesAs(p5, 0, k);
  }

  /** `K K !C ^` */
  lemma SecondIsCompiled(k: Key, c: Key)
    requires IsDeviceKey(k) && IsDeviceKey(c) && c != k
    ensures Compile([KeyName(k), KeyName(k), NotKey(c), OnRelease], false) == Ok(LedgerRuns.SecondOutput(k, c))
  {
    hide Parser.Finish, Parser.Next, Parser.Flush;
    var p0 := Start(false);
    var p1 := p0.(buffer := [k]);
    var p2 := p1.(sequence := [] + [Press(k), Release(k)]);
    var p3 := p0.(sequence := p2.sequence + [Press(k), KeyEvent(c, Not, 0)], pressed := [k]);
    var p4 := p3.(sequence := p3.sequence + [LedgerRuns.RELEASE_MARK], outputOnRelease := true);
    PlainSteps(p0, k);
    BufferedSteps(p1, k, k);
    BufferedSteps(p2, k, c);
    PlainSteps(p3, k);
    NothingFlushed(p4);
    assert ParseTokens(p4, []) == Ok(p4);
    hide ParseTokens;
    var t3 := [OnRelease] + [];
    var t2 := [NotKey(c)] + t3;
    var t1 := [KeyName(k)] + t2;
    OneParsed(p3, OnRelease, p4, []);
    OneParsed(p2, NotKey(c), p3, t3);
    OneParsed(p1, KeyName(k), p2, t2);
    OneParsed(p0, KeyName(k), p1, t1);
    assert [KeyName(k)] + t1 == [KeyName(k), KeyName(k), NotKey(c), OnRelease];
    assert p4.sequence + [Release(k)] == LedgerRuns.SecondOutput(k, c);
    FinishesAs(p4, 1, k);
  }

  /** Releases stay when a key is pressed after another release. */
  lemma FinishesAs(p: Parser, held: nat, k: Key)
    requires !p.isInput && !p.inTogether && p.inModified == 0 && !p.isNoMightMatch && IsDeviceKey(k)
    requires p.pressed == if held == 0 then [] else [k]
    requires |p.sequence| > 3 && p.sequence[1].state == Up && (p.sequence[2].state == Down || p.sequence[|p.sequence| - 2].state == Down)
    requires forall i :: 0 <= i < |p.sequence| ==> p.sequence[i].key != CONTEXT_ACTIVE
    ensures p.Finish() == Ok(if held == 0 then p.sequence else p.sequence + [Release(k)])
  {
    var releases := if held == 0 then [] else [Release(k)];
    if held != 0 {
      assert [k][0..] == [k] && [k][..0] == [] && ReleaseEvents([], false) == [];
      assert ReleaseEvents([k], false) == [Release(k)] + [] + [] == releases;
    }
    var q := p.ReleaseTo(0);
    assert q.sequence == if held == 0 then p.sequence else p.sequence + releases;
    var last := if p.sequence[2].state == Down then 2 else |p.sequence| - 2;
    assert q.sequence[1].state == Up && q.sequence[last].state == Down;
    assert !AllPressedAtOnce(q.sequence);
    assert !HasKey(q.sequence, CONTEXT_ACTIVE);
  }

  /** Not so `K K !C ^`, whose K is held there and released in the other half: with
      it and `K ^ !K K` a key gets stuck (`LedgerRuns.UnbalancedReleaseSticks`). */
  lemma StickingOutputsAreCompiled(k: Key, c: Key)
    requires IsDeviceKey(k) && IsDeviceKey(c) && c != k
    ensures Compile([KeyName(k), OnRelease, NotKey(k), KeyName(k)], false) == Ok(LedgerRuns.FirstOutput(k))
    ensures Compile([KeyName(k), KeyName(k), NotKey(c), OnRelease], false) == Ok(LedgerRuns.SecondOutput(k, c))
  {
    FirstIsCompiled(k);
    SecondIsCompiled(k, c);
  }

  // ---------------------------------------------------------------------------
  // Compiled inputs

  /** An accepted input is fit for a stage, with something behind a `?` in front,
      unless it is one of the forms of `? ContextActive`. */
  lemma CompiledInputIsProperIff(tokens: seq<Token>)
    requires Compile(tokens, true).Ok?
    ensures ProperInput(Compile(tokens, true).value) <==> BareMark.Essence(tokens, false) !in BareMark.BARE
  {
    hide Compile, BareMark.Essence;
    BareMark.BareMarkIffContextActive(tokens);
  }

  // ---------------------------------------------------------------------------
  // Stages

  /** Every chain ends in the list. */
  predicate ChainsEndIn(contexts: seq<ConfigContext>) {
    forall i :: 0 <= i < |contexts| && contexts[i].fallsThrough ==> i + 1 < |contexts|
  }

  lemma {:induction false} CutKeepsChains(current: seq<ConfigContext>, contexts: seq<ConfigContext>)
    requires ChainsStayInStage(current + contexts)
    ensures forall i :: 0 <= i < |W.Cut(current, contexts)| ==> ChainsEndIn(W.Cut(current, contexts)[i])
    decreases |contexts|
  {
    var all := current + contexts;
    if contexts == [] {
      assert all == current;
    } else {
      var c, others := contexts[0], contexts[1..];
      assert all[|current|] == c;
      if c.beginStage && current != [] {
        forall i | 0 <= i < |current| && current[i].fallsThrough ensures i + 1 < |current| {
          assert all[i] == current[i];
        }
        assert ChainsStayInStage([c] + others) by {
          assert [c] + others == contexts;
          forall i | 0 <= i < |contexts| && contexts[i].fallsThrough
            ensures i + 1 < |contexts| && !contexts[i + 1].beginStage
          {
            assert all[|current| + i] == contexts[i];
            assert all[|current| + i + 1] == contexts[i + 1];
          }
        }
        CutKeepsChains([c], others);
      } else {
        assert current + [c] + others == all;
        CutKeepsChains(current + [c], others);
      }
    }
  }

  /** A received context as the stage uses it, before devices are known. */
  function ContextOf(c: ConfigContext): Context {
    Context(c.inputs, c.outputs, c.commandOutputs, c.deviceFilter.text != [] || c.deviceIdFilter.text != [],
            AllDevices, c.modifierFilter, c.invertModifierFilter, c.fallsThrough)
  }

  function StageContexts(stage: seq<ConfigContext>): (r: seq<Context>)
    ensures |r| == |stage| && forall i :: 0 <= i < |r| ==> r[i] == ContextOf(stage[i])
  {
    seq(|stage|, i requires 0 <= i < |stage| => ContextOf(stage[i]))
  }

  lemma LowerableIsGood(s: KeySequence, balanced: bool)
    requires LowerableOutput(s, balanced)
    ensures S.GoodOutput(s, balanced) && S.GoodOutput(s, false)
  {
    if balanced {
      S.BalancedOutputHasBalancedParts(s);
    }
  }

  /** A context has sound indices, inputs, outputs and commands. */
  predicate GoodContext(c: ConfigContext, balanced: bool) { ValidOutputs(c) && ContextLowerable(c, balanced) }

  lemma StageIsGood(stage: seq<ConfigContext>, balanced: bool)
    requires ChainsEndIn(stage) && |stage| < MAX_INT
    requires forall i :: 0 <= i < |stage| ==> GoodContext(stage[i], balanced)
    ensures S.GoodConfig(StageContexts(stage))
    ensures balanced ==> S.BalancedOutputs(StageContexts(stage))
  {
    hide LowerableOutput, S.GoodOutput, ProperInput, DistinctCommands;
    var contexts := StageContexts(stage);
    forall c, i | 0 <= c < |contexts| && 0 <= i < |contexts[c].outputs|
      ensures S.GoodOutput(contexts[c].outputs[i], balanced) && S.GoodOutput(contexts[c].outputs[i], false)
    {
      assert GoodContext(stage[c], balanced);
      LowerableIsGood(stage[c].outputs[i], balanced);
    }
    forall c, i | 0 <= c < |contexts| && 0 <= i < |contexts[c].commandOutputs|
      ensures S.GoodOutput(contexts[c].commandOutputs[i].output, balanced)
      ensures S.GoodOutput(contexts[c].commandOutputs[i].output, false)
    {
      assert GoodContext(stage[c], balanced);
      LowerableIsGood(stage[c].commandOutputs[i].output, balanced);
    }
    forall c, i | 0 <= c < |contexts| && 0 <= i < |contexts[c].inputs|
      ensures contexts[c].inputs[i].outputIndex < |contexts[c].outputs|
      ensures ProperInput(contexts[c].inputs[i].input)
    {
      assert GoodContext(stage[c], balanced);
    }
    forall c | 0 <= c < |contexts| ensures DistinctCommands(contexts[c].commandOutputs) {
      assert GoodContext(stage[c], balanced);
    }
  }

  lemma {:induction false} CutContains(current: seq<ConfigContext>, contexts: seq<ConfigContext>, balanced: bool)
    requires forall c :: c in current || c in contexts ==> GoodContext(c, balanced)
    ensures forall i, j :: 0 <= i < |W.Cut(current, contexts)| && 0 <= j < |W.Cut(current, contexts)[i]| ==>
      GoodContext(W.Cut(current, contexts)[i][j], balanced)
    ensures forall i :: 0 <= i < |W.Cut(current, contexts)| ==> |W.Cut(current, contexts)[i]| <= |current| + |contexts|
    decreases |contexts|
  {
    hide GoodContext;
    if contexts != [] {
      if contexts[0].beginStage && current != [] {
        CutContains([contexts[0]], contexts[1..], balanced);
      } else {
        CutContains(current + [contexts[0]], contexts[1..], balanced);
      }
    }
  }

  /** The whole way: what the passes leave is sound, so every stage which the server
      reads from what the client wrote is a configuration that the stages work with,
      and balanced if the outputs were. In particular each chain of contexts ends
      within its stage. */
  lemma ConfigurationArrives(contexts: seq<ConfigContext>, rest: W.Bytes, balanced: bool)
    requires ConfigInv(contexts) && AllLowerable(contexts, balanced) && W.AllFit(contexts) && |contexts| < MAX_INT
    ensures forall i :: 0 <= i < |contexts| ==> W.HasIntIndices(contexts[i])
    ensures W.ReadStages(W.Written(contexts) + rest).value == W.StagesOf(W.Cut([], contexts))
    ensures forall i :: 0 <= i < |W.Cut([], contexts)| ==>
      && S.GoodConfig(StageContexts(W.Cut([], contexts)[i]))
      && (balanced ==> S.BalancedOutputs(StageContexts(W.Cut([], contexts)[i])))
  {
    hide W.Cut, W.ReadStages, W.Written, S.GoodConfig, W.AllFit, W.HasIntIndices, W.StagesOf, ContextLowerable, ValidOutputs, S.BalancedOutputs;
    W.WireRoundTrip(contexts, rest);
    assert [] + contexts == contexts;
    CutKeepsChains([], contexts);
    forall c | c in contexts ensures GoodContext(c, balanced) {
      var i :| 0 <= i < |contexts| && contexts[i] == c;
      assert ContextLowerable(contexts[i], balanced) && ValidOutputs(contexts[i]);
    }
    CutContains([], contexts, balanced);
    forall i | 0 <= i < |W.Cut([], contexts)|
      ensures S.GoodConfig(StageContexts(W.Cut([], contexts)[i]))
      ensures balanced ==> S.BalancedOutputs(StageContexts(W.Cut([], contexts)[i]))
    {
      StageIsGood(W.Cut([], contexts)[i], balanced);
    }
  }
}
