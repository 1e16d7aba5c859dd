/** What outputs compile to, from tokens on: `src/config/ParseKeySequence.cpp`. */
module CompiledOutputs {
  import opened Keys
  import opened Compiler
  import C = CompilerTheorems
  import MT = MatcherTheorems

  /** Each key is pressed and released before the next one. */
  function Taps(keys: seq<Key>): (r: KeySequence)
    ensures |r| == 2 * |keys|
    ensures forall i :: 0 <= i < |keys| ==> r[2 * i] == Press(keys[i]) && r[2 * i + 1] == Release(keys[i])
  {
    if keys == [] then []
    else Taps(keys[..|keys| - 1]) + [Press(keys[|keys| - 1]), Release(keys[|keys| - 1])]
  }

  predicate IsOutputKey(k: Key) { IsDeviceKey(k) || IsVirtualKey(k) }

  predicate OutputKeys(keys: seq<Key>) { forall i :: 0 <= i < |keys| ==> IsOutputKey(keys[i]) }

  /** A virtual key is also reset when it is released. */
  function ReleaseOf(k: Key): KeySequence { if IsVirtualKey(k) then [Release(k), KeyEvent(k, Not, 0)] else [Release(k)] }

  lemma TapsAt(keys: seq<Key>, j: nat)
    requires j < 2 * |keys|
    ensures Taps(keys)[j] == if j % 2 == 0 then Press(keys[j / 2]) else Release(keys[j / 2])
  {
    hide Taps;
    assert Taps(keys)[2 * (j / 2)] == Press(keys[j / 2]) && Taps(keys)[2 * (j / 2) + 1] == Release(keys[j / 2]);
  }

  /** After key names: those before the last one were tapped, the last one is buffered. */
  function Tapped(p: Parser, keys: seq<Key>): Parser
    requires keys != []
  {
    p.(buffer := [keys[|keys| - 1]], sequence := p.sequence + Taps(keys[..|keys| - 1]))
  }

  lemma TappedFlushed(p: Parser, keys: seq<Key>)
    requires !p.isInput && keys != [] && p.buffer == [] && keys[|keys| - 1] !in p.pressed
    ensures Tapped(p, keys).Flush(true) == p.(sequence := p.sequence + Taps(keys))
  {
    hide Events, Taps, WithoutKeys;
    var n := |keys| - 1;
    C.OneEvent(keys[n], Down);
    C.OneEvent(keys[n], Up);
    NotPressed(p.pressed, keys[n]);
    LastTap(p.sequence, keys);
  }

  lemma LastTap(before: KeySequence, keys: seq<Key>)
    requires keys != []
    ensures var n := |keys| - 1;
      before + Taps(keys[..n]) + [Press(keys[n])] + [Release(keys[n])] == before + Taps(keys)
  {
  }

  lemma {:induction false} NotPressed(pressed: seq<Key>, k: Key)
    requires k !in pressed
    ensures WithoutKeys(pressed, [k]) == pressed
    decreases |pressed|
  {
    if pressed != [] {
      NotPressed(pressed[1..], k);
    }
  }

  lemma {:induction false} TapNames(p: Parser, keys: seq<Key>, rest: seq<Token>, i: nat)
    requires !p.isInput && !p.inTogether && p.buffer == [] && 0 < i <= |keys|
    requires forall j :: 0 <= j < |keys| ==> keys[j] !in p.pressed
    ensures ParseTokens(Tapped(p, keys[..i]), C.Names(keys)[i..] + rest) == ParseTokens(Tapped(p, keys), rest)
    decreases |keys| - i
  {
    hide Parser.Flush, Parser.Next, Taps;
    if i == |keys| {
      assert keys[..i] == keys && C.Names(keys)[i..] + rest == rest;
    } else {
      var tapped, tokens := Tapped(p, keys[..i]), C.Names(keys)[i..] + rest;
      assert tokens[0] == KeyName(keys[i]) && tokens[1..] == C.Names(keys)[i + 1..] + rest;
      assert keys[..i + 1][..i] == keys[..i];
      TappedFlushed(p, keys[..i]);
      C.NameRead(tapped, keys[i]);
      TapNames(p, keys, rest, i + 1);
    }
  }

  lemma NamesRead(p: Parser, keys: seq<Key>, rest: seq<Token>)
    requires !p.isInput && !p.inTogether && p.buffer == [] && keys != []
    requires forall j :: 0 <= j < |keys| ==> keys[j] !in p.pressed
    ensures ParseTokens(p, C.Names(keys) + rest) == ParseTokens(Tapped(p, keys), rest)
  {
    hide Parser.Flush, Parser.Next;
    var tokens := C.Names(keys) + rest;
    assert tokens[0] == KeyName(keys[0]) && tokens[1..] == C.Names(keys)[1..] + rest;
    FlushNothing(p);
    C.NameRead(p, keys[0]);
    assert keys[..1] == [keys[0]] && keys[..1][..0] == [];
    assert p.sequence + [] == p.sequence;
    TapNames(p, keys, rest, 1);
  }

  /** What remains to be done at the end, when nothing is pressed any more. */
  lemma FinishOutput(p: Parser)
    requires !p.isInput && !p.isNoMightMatch && !p.inTogether && p.inModified == 0 && p.pressed == []
    requires forall i :: 0 <= i < |p.sequence| ==> p.sequence[i].key != CONTEXT_ACTIVE
    ensures p.Finish() == Ok(if !p.hasModifier && AllPressedAtOnce(p.sequence) then WithoutFinal(p.sequence, Up) else p.sequence)
  {
  }

  lemma TapsKeys(keys: seq<Key>)
    requires OutputKeys(keys)
    ensures forall i :: 0 <= i < 2 * |keys| ==> Taps(keys)[i].key != CONTEXT_ACTIVE
  {
    forall i | 0 <= i < 2 * |keys| ensures Taps(keys)[i].key != CONTEXT_ACTIVE {
      TapsAt(keys, i);
    }
  }

  /** `k1 ... kn` taps the keys one after the other; a single key is not released by its
      output, so it is held as long as the input is. */
  lemma CompileTaps(keys: seq<Key>)
    requires keys != [] && OutputKeys(keys)
    ensures Compile(C.Names(keys), false) == Ok(if |keys| == 1 then [Press(keys[0])] else Taps(keys))
  {
    hide Parser.Finish, Parser.Flush, Parser.Next, Taps;
    var p := Start(false);
    assert C.Names(keys) + [] == C.Names(keys);
    NamesRead(p, keys, []);
    TappedFlushed(p, keys);
    assert [] + Taps(keys) == Taps(keys);
    TapsKeys(keys);
    FinishOutput(p.(sequence := Taps(keys)));
    hide AllPressedAtOnce, WithoutFinal;
    if |keys| == 1 {
      OneTap(keys);
    } else {
      ManyTaps(keys);
    }
  }

  lemma ManyTaps(keys: seq<Key>)
    requires |keys| > 1
    ensures !AllPressedAtOnce(Taps(keys))
  {
    hide Taps;
    TapsAt(keys, 1);
    TapsAt(keys, 2);
  }

  lemma OneTap(keys: seq<Key>)
    requires |keys| == 1
    ensures AllPressedAtOnce(Taps(keys)) && WithoutFinal(Taps(keys), Up) == [Press(keys[0])]
  {
    hide Taps;
    TapsAt(keys, 0);
    TapsAt(keys, 1);
    assert Taps(keys) == [Press(keys[0]), Release(keys[0])];
    assert [Press(keys[0]), Release(keys[0])][..1] == [Press(keys[0])];
  }

  lemma {:induction false} FinalReleases(downs: KeySequence, ups: KeySequence)
    requires downs != [] && downs[|downs| - 1].state == Down && forall i :: 0 <= i < |ups| ==> ups[i].state == Up
    ensures WithoutFinal(downs + ups, Up) == downs
    decreases |ups|
  {
    if ups == [] {
      assert downs + ups == downs;
    } else {
      assert (downs + ups)[..|downs + ups| - 1] == downs + ups[..|ups| - 1];
      FinalReleases(downs, ups[..|ups| - 1]);
    }
  }

  /** `(k1 ... kn)` presses the keys, which are held as long as the input is. */
  lemma CompileTogetherOutput(keys: seq<Key>)
    requires keys != [] && OutputKeys(keys)
    ensures Compile(C.TogetherTokens(keys), false) == Ok(Events(keys, Down))
  {
    hide Parser.Finish, Parser.Flush, Events, AllPressedAtOnce, WithoutFinal;
    TogetherRead(keys);
    TogetherFlushed(keys);
    TogetherTrimmed(keys);
    FinishOutput(Start(false).(sequence := Events(keys, Down) + Events(keys, Up)));
  }

  lemma TogetherRead(keys: seq<Key>)
    ensures ParseTokens(Start(false), C.TogetherTokens(keys)) == Ok(Start(false).(buffer := keys).Flush(true))
  {
    hide Parser.Flush;
    var tokens := C.TogetherTokens(keys);
    var open, closed := Start(false).(inTogether := true), Start(false).(buffer := keys);
    assert tokens[0] == OpenTogether && tokens[1..] == C.Names(keys) + [CloseTogether];
    FlushNothing(Start(false));
    C.BufferNames(open, keys, [CloseTogether]);
    assert [] + keys == keys;
    assert open.(buffer := keys).CloseTogetherGroup() == closed by { assert closed.sequence + [] == closed.sequence; }
    assert [CloseTogether][1..] == [];
    assert ParseTokens(open.(buffer := keys), [CloseTogether]) == ParseTokens(closed, []) == Ok(closed.Flush(true));
  }

  lemma TogetherTrimmed(keys: seq<Key>)
    requires keys != [] && OutputKeys(keys)
    ensures var s := Events(keys, Down) + Events(keys, Up);
      && AllPressedAtOnce(s) && WithoutFinal(s, Up) == Events(keys, Down)
      && forall i :: 0 <= i < |s| ==> s[i].key != CONTEXT_ACTIVE
  {
    hide WithoutFinal;
    FinalReleases(Events(keys, Down), Events(keys, Up));
  }

  lemma TogetherFlushed(keys: seq<Key>)
    ensures Start(false).(buffer := keys).Flush(true) == Start(false).(sequence := Events(keys, Down) + Events(keys, Up))
  {
    assert [] + Events(keys, Down) + Events(keys, Up) == Events(keys, Down) + Events(keys, Up);
  }

  /** `k{k1 ... kn}` holds k around the others. A virtual key is also reset. */
  lemma CompileAround(k: Key, keys: seq<Key>)
    requires keys != [] && IsOutputKey(k) && OutputKeys(keys) && k !in keys
    ensures Compile([KeyName(k), OpenModified] + (C.Names(keys) + [CloseModified]), false)
      == Ok([Press(k)] + Taps(keys) + ReleaseOf(k))
  {
    hide Parser.Finish, Parser.Flush, Parser.Next, Taps, Parser.OpenGroup, Parser.CloseGroup;
    var rest := C.Names(keys) + [CloseModified];
    var tokens := [KeyName(k), OpenModified] + rest;
    var group := Around(k);
    AroundOpened(k, tokens, rest);
    NamesRead(group, keys, [CloseModified]);
    TappedFlushed(group, keys);
    AroundClosed(k, keys);
  }

  /** Behind `k{` */
  function Around(k: Key): Parser {
    Start(false).(sequence := [Press(k)], pressed := [k], pressedBefore := [0], inModified := 1, hasModifier := true)
  }

  lemma AroundOpened(k: Key, tokens: seq<Token>, rest: seq<Token>)
    requires tokens == [KeyName(k), OpenModified] + rest
    ensures ParseTokens(Start(false), tokens) == ParseTokens(Around(k), rest)
  {
    var named := Start(false).(buffer := [k]);
    FlushNothing(Start(false));
    C.NameRead(Start(false), k);
    C.OneEvent(k, Down);
    assert [] + [|Start(false).pressed|] == [0] && [] + [Press(k)] + [] == [Press(k)] && [] + [k] == [k];
    assert named.OpenGroup() == Around(k);
    hide Parser.Flush, Parser.OpenGroup;
    assert tokens[1..] == [OpenModified] + rest && tokens[1..][1..] == rest;
    assert ParseTokens(Start(false), tokens) == ParseTokens(named, tokens[1..]);
  }

  lemma AroundClosed(k: Key, keys: seq<Key>)
    requires keys != [] && IsOutputKey(k) && OutputKeys(keys)
    requires Tapped(Around(k), keys).Flush(true) == Around(k).(sequence := [Press(k)] + Taps(keys))
    ensures var closed := ParseTokens(Tapped(Around(k), keys), [CloseModified]);
      && closed.Ok?
      && closed.value.Finish() == Ok([Press(k)] + Taps(keys) + ReleaseOf(k))
  {
    hide Parser.Finish, Parser.Flush, Taps;
    var tapped := Tapped(Around(k), keys);
    assert [k][0..] == [k] && [k][..0] == [] && [0][..0] == [];
    ReleasedOnce(k);
    hide ReleaseOf, ReleaseEvents;
    var sequence := [Press(k)] + Taps(keys) + ReleaseOf(k);
    var done := Start(false).(hasModifier := true, sequence := sequence);
    assert tapped.CloseGroup() == done;
    C.CloseParsed(tapped);
    FlushNothing(done);
    TapsKeys(keys);
    FinishOutput(done);
  }

  lemma ReleasedOnce(k: Key)
    requires IsOutputKey(k)
    ensures ReleaseEvents([k], false) == ReleaseOf(k)
    ensures k != CONTEXT_ACTIVE && forall i :: 0 <= i < |ReleaseOf(k)| ==> ReleaseOf(k)[i].key == k
  {
    assert [k][..0] == [];
  }

  /** A command presses the action key it was given. */
  lemma CompileCommand(action: Key)
    requires IsActionKey(action)
    ensures Compile([Command(action)], false) == Ok([Press(action)])
  {
    hide Parser.Finish, Parser.Flush;
    var done := Start(false).(sequence := [Press(action)]);
    FlushNothing(Start(false));
    FlushNothing(done);
    assert [] + [Press(action)] == [Press(action)];
    assert [Command(action)][1..] == [];
    assert ParseTokens(Start(false), [Command(action)]) == ParseTokens(done, []) == Ok(done);
    FinishOutput(done);
  }
}
