/** What compiled expressions mean, from tokens to the matcher's verdict, and
    that compiled outputs release only what they pressed. */
module CompilerTheorems {
  import opened Keys
  import opened Matcher
  import opened MatcherTheorems
  import opened HeldKeys
  import opened Compiler

  // ---------------------------------------------------------------------------
  // Input expressions

  function Names(keys: seq<Key>): seq<Token> {
    seq(|keys|, i requires 0 <= i < |keys| => KeyName(keys[i]))
  }

  /** `(k1 ... kn)` */
  function TogetherTokens(keys: seq<Key>): seq<Token> {
    [OpenTogether] + Names(keys) + [CloseTogether]
  }

  /** `k1{k2{ ... kn}}` */
  function HeldTokens(keys: seq<Key>): seq<Token>
    requires keys != []
  {
    [KeyName(keys[0])]
    + (if |keys| == 1 then [] else [OpenModified] + HeldTokens(keys[1..]) + [CloseModified])
  }

  /** An input of presses and asynchronous events of device keys is final. */
  lemma FinishInput(p: Parser)
    requires p.isInput && !p.isNoMightMatch && !p.inTogether && p.inModified == 0
    requires forall i :: 0 <= i < |p.sequence| ==> IsDeviceKey(p.sequence[i].key) && p.sequence[i].state != Not
    requires p.sequence != [] && exists i :: 0 <= i < |p.sequence| && p.sequence[i].state == Down
    ensures p.Finish() == Ok(p.sequence)
  {
    var i :| 0 <= i < |p.sequence| && p.sequence[i].state == Down;
    assert HasUpOrDown(p.sequence);
  }

  lemma NameRead(p: Parser, k: Key)
    requires !p.inTogether
    ensures p.Next(KeyName(k)) == Ok(p.Flush(true).(buffer := [k]))
  {
    hide Events;
    assert [] + [k] == [k];
  }

  lemma {:induction false} BufferNames(p: Parser, keys: seq<Key>, rest: seq<Token>)
    requires p.inTogether
    ensures ParseTokens(p, Names(keys) + rest) == ParseTokens(p.(buffer := p.buffer + keys), rest)
    decreases |keys|
  {
    if keys == [] {
      assert Names(keys) + rest == rest;
      assert p.buffer + keys == p.buffer;
    } else {
      var tokens := Names(keys) + rest;
      assert tokens[0] == KeyName(keys[0]) && tokens[1..] == Names(keys[1..]) + rest;
      assert p.buffer + [keys[0]] + keys[1..] == p.buffer + keys;
      BufferNames(p.(buffer := p.buffer + [keys[0]]), keys[1..], rest);
    }
  }

  lemma CompileTogether(keys: seq<Key>)
    requires keys != [] && DeviceKeys(keys)
    ensures Compile(TogetherTokens(keys), true) == Ok(TogetherExpression(keys))
  {
    hide Parser.Finish, Parser.Flush, TogetherExpression, Events;
    var tokens := TogetherTokens(keys);
    assert tokens[1..] == Names(keys) + [CloseTogether];
    FlushNothing(Start(true));
    BufferNames(Start(true).(inTogether := true), keys, [CloseTogether]);
    assert [] + keys == keys;
    TogetherClosed(keys);
    assert TogetherParsed(keys).sequence[|keys|].state == Down;
    FinishInput(TogetherParsed(keys));
  }

  function TogetherParsed(keys: seq<Key>): Parser {
    Start(true).(sequence := TogetherExpression(keys))
  }

  lemma TogetherClosed(keys: seq<Key>)
    requires keys != [] && DeviceKeys(keys)
    ensures ParseTokens(Start(true).(inTogether := true, buffer := keys), [CloseTogether]) == Ok(TogetherParsed(keys))
    ensures var ex := TogetherExpression(keys);
      && |ex| > |keys| && ex[|keys|].state == Down
      && forall i :: 0 <= i < |ex| ==> IsDeviceKey(ex[i].key) && ex[i].state != Not
  {
    TogetherGroupParsed(keys);
    assert TogetherExpression(keys)[|keys|] == Press(keys[0]);
  }

  lemma TogetherGroupParsed(keys: seq<Key>)
    ensures ParseTokens(Start(true).(inTogether := true, buffer := keys), [CloseTogether]) == Ok(TogetherParsed(keys))
  {
    hide WithoutKeys;
    var full := Start(true).(inTogether := true, buffer := keys);
    var closed := full.CloseTogetherGroup();
    assert closed.sequence == Events(keys, DownAsync);
    assert ParseTokens(closed, []) == Ok(closed.Flush(true));
    assert closed.Flush(true).sequence == TogetherExpression(keys);
  }

  /** After key names: the keys before the last one were tapped, that one is buffered. */
  function Tapped(p: Parser, keys: seq<Key>): Parser
    requires keys != []
  {
    var n, q := |keys| - 1, p.Flush(true);
    q.(buffer := [keys[n]], sequence := q.sequence + SuccessiveExpression(keys[..n]))
  }

  lemma TappedFlushed(p: Parser, keys: seq<Key>)
    requires p.isInput && keys != []
    ensures var q := p.Flush(true);
      Tapped(p, keys).Flush(true) == q.(sequence := q.sequence + SuccessiveExpression(keys))
  {
    hide Events;
    var n, q := |keys| - 1, p.Flush(true);
    SuccessiveLast(keys, n);
    OneEvent(keys[n], Down);
    OneEvent(keys[n], UpAsync);
    var before := SuccessiveExpression(keys[..n]);
    Associative(q.sequence, before, [Press(keys[n])]);
    Associative(q.sequence, before + [Press(keys[n])], [KeyEvent(keys[n], UpAsync, 0)]);
  }

  lemma {:induction false} TapNames(p: Parser, keys: seq<Key>, rest: seq<Token>, i: nat)
    requires p.isInput && !p.inTogether && 0 < i <= |keys|
    ensures ParseTokens(Tapped(p, keys[..i]), Names(keys)[i..] + rest) == ParseTokens(Tapped(p, keys), rest)
    decreases |keys| - i
  {
    hide Parser.Flush, Parser.Next, SuccessiveExpression;
    FlushKeeps(p);
    if i == |keys| {
      assert keys[..i] == keys && Names(keys)[i..] + rest == rest;
    } else {
      var tapped, tokens := Tapped(p, keys[..i]), Names(keys)[i..] + rest;
      assert tokens[0] == KeyName(keys[i]) && tokens[1..] == Names(keys)[i + 1..] + rest;
      assert keys[..i + 1][..i] == keys[..i];
      TappedFlushed(p, keys[..i]);
      NameRead(tapped, keys[i]);
      TapNames(p, keys, rest, i + 1);
    }
  }

  lemma FlushKeeps(p: Parser)
    ensures var q := p.Flush(true);
      q.buffer == [] && q == p.(buffer := [], sequence := q.sequence, pressed := q.pressed)
    ensures p.isInput ==> p.Flush(true).pressed == p.pressed
  {
  }

  /** Names tap their keys. */
  lemma NamesRead(p: Parser, keys: seq<Key>, rest: seq<Token>)
    requires p.isInput && !p.inTogether && keys != []
    ensures ParseTokens(p, Names(keys) + rest) == ParseTokens(Tapped(p, keys), rest)
  {
    hide Parser.Flush, Parser.Next, SuccessiveExpression;
    var tokens, q := Names(keys) + rest, p.Flush(true);
    assert tokens[0] == KeyName(keys[0]) && tokens[1..] == Names(keys)[1..] + rest;
    NameRead(p, keys[0]);
    assert keys[..1] == [keys[0]] && keys[..1][..0] == [];
    SuccessiveNothing();
    assert q.sequence + [] == q.sequence;
    TapNames(p, keys, rest, 1);
  }

  lemma CompileSuccessive(keys: seq<Key>)
    requires keys != [] && DeviceKeys(keys)
    ensures Compile(Names(keys), true) == Ok(SuccessiveExpression(keys))
  {
    hide Parser.Finish, Parser.Flush, SuccessiveExpression, Parser.Next;
    assert Names(keys) + [] == Names(keys);
    FlushNothing(Start(true));
    NamesRead(Start(true), keys, []);
    TappedFlushed(Start(true), keys);
    assert [] + SuccessiveExpression(keys) == SuccessiveExpression(keys);
    SuccessiveLast(keys, |keys| - 1);
    SuccessiveEvents(keys);
    FinishInput(Tapped(Start(true), keys).Flush(true));
  }

  lemma SuccessiveNothing()
    ensures SuccessiveExpression([]) == []
  {
  }

  lemma SuccessiveLast(keys: seq<Key>, n: nat)
    requires |keys| == n + 1
    ensures SuccessiveExpression(keys)
      == SuccessiveExpression(keys[..n]) + [Press(keys[n])] + [KeyEvent(keys[n], UpAsync, 0)]
    ensures SuccessiveExpression(keys)[2 * n] == Press(keys[n])
  {
    var before := SuccessiveExpression(keys[..n]);
    assert before + [Press(keys[n])] + [KeyEvent(keys[n], UpAsync, 0)]
        == before + [Press(keys[n]), KeyEvent(keys[n], UpAsync, 0)];
  }

  lemma OneEvent(k: Key, state: KeyState)
    ensures Events([k], state) == [KeyEvent(k, state, 0)]
  {
  }

  lemma {:induction false} SuccessiveEvents(keys: seq<Key>)
    requires DeviceKeys(keys)
    ensures forall i :: 0 <= i < 2 * |keys| ==>
      IsDeviceKey(SuccessiveExpression(keys)[i].key) && SuccessiveExpression(keys)[i].state != Not
  {
    if keys != [] {
      SuccessiveEvents(keys[..|keys| - 1]);
    }
  }

  lemma {:induction false} NothingToSync(sequence: KeySequence, i: nat)
    requires i <= |sequence| && forall j :: 0 <= j < |sequence| ==> sequence[j].key != TIMEOUT
    ensures SyncEvents(sequence, i) == []
  {
    if i > 0 {
      NothingToSync(sequence, i - 1);
    }
  }

  /** Inside of a group: a group of held keys keeps the keys pressed before,
      presses its own and releases them at its end, except for the first one,
      which is released by the group's own closing brace. */
  lemma {:induction false} ParseHeld(p: Parser, keys: seq<Key>, rest: seq<Token>)
    requires keys != [] && DeviceKeys(keys) && rest != [] && rest[0].CloseModified?
    requires p.isInput && !p.inTogether && p.buffer == []
    requires p.inModified == |p.pressedBefore| > 0
    requires forall j :: 0 <= j < |p.sequence| ==> p.sequence[j].key != TIMEOUT
    ensures ParseTokens(p, HeldTokens(keys) + rest) == ParseTokens(AfterHeld(p, keys), rest)
    decreases |keys|
  {
    hide Parser.Flush, Parser.ReleaseTo, Parser.CloseGroup, Parser.OpenGroup, Events, AfterHeld, SyncEvents;
    var named := p.(buffer := [keys[0]]);
    var tokens := HeldTokens(keys) + rest;
    assert tokens[0] == KeyName(keys[0]);
    FlushNothing(p);
    NameRead(p, keys[0]);
    if |keys| == 1 {
      assert tokens[1..] == rest;
      HeldOne(p, keys);
    } else {
      var inner := HeldTokens(keys[1..]) + ([CloseModified] + rest);
      assert tokens[1..] == [OpenModified] + inner;
      var within := named.OpenGroup();
      assert tokens[1..][0] == OpenModified && tokens[1..][1..] == inner;
      HeldOpen(p, keys[0]);
      ParseHeld(within, keys[1..], [CloseModified] + rest);
      var last := AfterHeld(within, keys[1..]);
      HeldClose(p, keys);
      assert ([CloseModified] + rest)[1..] == rest;
      assert ParseTokens(last, [CloseModified] + rest) == ParseTokens(last.CloseGroup(), rest);
    }
  }

  /** The parser behind `HeldTokens(keys)`: a lone key is still buffered. */
  function AfterHeld(p: Parser, keys: seq<Key>): Parser
    requires keys != []
  {
    if |keys| == 1 then p.(buffer := keys)
    else
      p.(hasModifier := true,
         sequence := p.sequence + Events(keys, Down) + Events(Reverse(keys), UpAsync))
  }

  lemma HeldOne(p: Parser, keys: seq<Key>)
    requires |keys| == 1
    ensures AfterHeld(p, keys) == p.(buffer := [keys[0]])
  {
    assert keys == [keys[0]];
  }

  lemma HeldOpen(p: Parser, k: Key)
    requires p.isInput && IsDeviceKey(k)
    ensures p.(buffer := [k]).OpenGroup() ==
      p.(buffer := [], pressedBefore := p.pressedBefore + [|p.pressed|], inModified := p.inModified + 1,
         hasModifier := true, pressed := p.pressed + [k], sequence := p.sequence + [Press(k)])
  {
    assert Events([k], Down) == [Press(k)];
    assert p.sequence + [Press(k)] + [] == p.sequence + [Press(k)];
  }

  lemma HeldClose(p: Parser, keys: seq<Key>)
    requires |keys| > 1 && DeviceKeys(keys)
    requires p.isInput && !p.inTogether && p.buffer == []
    requires p.inModified == |p.pressedBefore|
    requires forall j :: 0 <= j < |p.sequence| ==> p.sequence[j].key != TIMEOUT
    ensures var last := AfterHeld(p.(buffer := [keys[0]]).OpenGroup(), keys[1..]);
      && last.inModified > 0 && last.pressedBefore != [] && !last.inTogether
      && last.CloseGroup() == AfterHeld(p, keys)
  {
    hide Parser.Flush, Parser.ReleaseTo, Parser.OpenGroup, Events, SyncEvents;
    HeldOpen(p, keys[0]);
    var last := AfterHeld(p.(buffer := [keys[0]]).OpenGroup(), keys[1..]);
    HeldFlushed(p, keys, last);
    var flushed := last.Flush(true);
    HeldReleased(p, keys, flushed);
    var released := flushed.ReleaseTo(|p.pressed|);
    HeldSynced(p, keys);
    assert (p.pressedBefore + [|p.pressed|])[..|p.pressedBefore|] == p.pressedBefore;
    assert released.sequence + [] == released.sequence;
  }

  lemma HeldFlushed(p: Parser, keys: seq<Key>, last: Parser)
    requires |keys| > 1 && p.isInput
    requires last == AfterHeld(p.(buffer := [], pressedBefore := p.pressedBefore + [|p.pressed|],
                                  inModified := p.inModified + 1, hasModifier := true,
                                  pressed := p.pressed + [keys[0]], sequence := p.sequence + [Press(keys[0])]), keys[1..])
    ensures last.Flush(true) == last.(buffer := [],
      sequence := p.sequence + Events(keys, Down) + Events(Reverse(keys[1..]), UpAsync))
  {
    hide Events, Reverse;
    var rest := keys[1..];
    HeldDowns(keys);
    Associative(p.sequence, [Press(keys[0])], Events(rest, Down));
    if |rest| == 1 {
      HeldAlone(rest);
    } else {
      hide Parser.Flush;
      FlushNothing(last);
    }
  }

  lemma HeldDowns(keys: seq<Key>)
    requires keys != []
    ensures [Press(keys[0])] + Events(keys[1..], Down) == Events(keys, Down)
  {
  }

  lemma HeldAlone(keys: seq<Key>)
    requires |keys| == 1
    ensures Reverse(keys) == keys
  {
  }

  lemma HeldReleased(p: Parser, keys: seq<Key>, flushed: Parser)
    requires |keys| > 1 && p.isInput && flushed.isInput && flushed.pressed == p.pressed + [keys[0]]
    requires flushed.sequence == p.sequence + Events(keys, Down) + Events(Reverse(keys[1..]), UpAsync)
    ensures flushed.ReleaseTo(|p.pressed|) == flushed.(pressed := p.pressed,
      sequence := p.sequence + Events(keys, Down) + Events(Reverse(keys), UpAsync))
  {
    var k, rest := keys[0], keys[1..];
    assert flushed.pressed[|p.pressed|..] == [k];
    ReleaseOne(k);
    assert Events(Reverse(rest), UpAsync) + [KeyEvent(k, UpAsync, 0)] == Events(Reverse(keys), UpAsync);
    assert flushed.sequence + [KeyEvent(k, UpAsync, 0)]
        == p.sequence + Events(keys, Down) + (Events(Reverse(rest), UpAsync) + [KeyEvent(k, UpAsync, 0)]);
  }

  lemma HeldSynced(p: Parser, keys: seq<Key>)
    requires DeviceKeys(keys)
    requires forall j :: 0 <= j < |p.sequence| ==> p.sequence[j].key != TIMEOUT
    ensures var sequence := p.sequence + Events(keys, Down) + Events(Reverse(keys), UpAsync);
      SyncEvents(sequence, |sequence|) == []
  {
    var sequence := p.sequence + Events(keys, Down) + Events(Reverse(keys), UpAsync);
    NothingToSync(sequence, |sequence|);
  }

  lemma ReleaseOne(k: Key)
    ensures ReleaseEvents([k], true) == [KeyEvent(k, UpAsync, 0)]
  {
    assert [k][..0] == [];
  }

  lemma CompileHeld(keys: seq<Key>)
    requires keys != [] && DeviceKeys(keys)
    ensures Compile(HeldTokens(keys), true) == Ok(HeldExpression(keys))
  {
    hide Parser.Finish, Parser.Flush, Parser.OpenGroup, Parser.CloseGroup, Parser.Next, HeldExpression, AfterHeld, Events, Compile;
    if |keys| == 1 {
      CompileSuccessive(keys);
      HeldSingle(keys);
    } else {
      var tokens := HeldTokens(keys);
      CompileHeldGroup(keys, tokens);
    }
  }

  lemma HeldSingle(keys: seq<Key>)
    requires |keys| == 1
    ensures Names(keys) == HeldTokens(keys)
    ensures SuccessiveExpression(keys) == HeldExpression(keys)
  {
    HeldAlone(keys);
    HeldSingleEvents(keys);
    hide Events, Reverse, SuccessiveExpression;
    assert keys == [keys[0]];
  }

  lemma HeldSingleEvents(keys: seq<Key>)
    requires |keys| == 1
    ensures SuccessiveExpression(keys) == Events(keys, Down) + Events(keys, UpAsync)
  {
    assert keys[..0] == [] && SuccessiveExpression([]) == [];
    assert SuccessiveExpression(keys) == [] + [Press(keys[0]), KeyEvent(keys[0], UpAsync, 0)];
  }

  lemma HeldParsed(keys: seq<Key>)
    requires |keys| > 1 && DeviceKeys(keys)
    ensures var p := AfterHeld(Start(true), keys);
      && p == Start(true).(hasModifier := true, sequence := HeldExpression(keys))
      && p.Finish() == Ok(HeldExpression(keys))
      && p.Flush(true) == p
  {
    var p := AfterHeld(Start(true), keys);
    assert p.sequence == HeldExpression(keys);
    assert p.sequence[0] == Press(keys[0]);
    FlushNothing(p);
    FinishInput(p);
  }

  lemma CompileHeldGroup(keys: seq<Key>, tokens: seq<Token>)
    requires |keys| > 1 && DeviceKeys(keys) && tokens == HeldTokens(keys)
    ensures Compile(tokens, true) == Ok(HeldExpression(keys))
  {
    hide Parser.Finish, Parser.Flush, Parser.OpenGroup, Parser.CloseGroup, HeldExpression, AfterHeld, Events;
    var start := Start(true);
    var named := start.(buffer := [keys[0]]);
    FlushNothing(start);
    NameRead(start, keys[0]);
    var inner := HeldTokens(keys[1..]) + [CloseModified];
    assert tokens[1..] == [OpenModified] + inner;
    assert tokens[1..][1..] == inner;
    HeldOpen(start, keys[0]);
    assert ParseTokens(start, tokens) == ParseTokens(named, tokens[1..]);
    assert ParseTokens(named, tokens[1..]) == ParseTokens(named.OpenGroup(), inner);
    hide ParseTokens;
    ParseHeld(named.OpenGroup(), keys[1..], [CloseModified]);
    HeldClose(start, keys);
    HeldParsed(keys);
    var last := AfterHeld(named.OpenGroup(), keys[1..]);
    CloseParsed(last);
    assert last.CloseGroup() == AfterHeld(start, keys);
  }

  lemma CloseParsed(p: Parser)
    requires p.inModified > 0 && p.pressedBefore != []
    ensures ParseTokens(p, [CloseModified]) == Ok(p.CloseGroup().Flush(true))
  {
    hide Parser.CloseGroup, Parser.Flush;
    assert [CloseModified][1..] == [];
  }

  // ---------------------------------------------------------------------------
  // `!`

  /** `k1 ... kn !a r1 ... rm` */
  function NotTokens(keys: seq<Key>, a: Key, rest: seq<Key>): seq<Token> { Names(keys) + ([NotKey(a)] + Names(rest)) }

  /** What `k1 ... kn !a` compiles to, when something follows or not. */
  function WithNot(keys: seq<Key>, a: Key, isLast: bool): KeySequence {
    var n := |keys|;
    if n > 0 && keys[n - 1] == a then SuccessiveExpression(keys[..n - 1]) + [Press(a), Release(a)]
    else SuccessiveExpression(keys) + [KeyEvent(a, if a in keys || isLast then Up else Not, 0)]
  }

  lemma {:induction false} LastOfKey(keys: seq<Key>, a: Key)
    ensures var s := SuccessiveExpression(keys);
      if a in keys then RFindKey(s, a) >= 0 && s[RFindKey(s, a)].state == UpAsync else RFindKey(s, a) < 0
  {
    hide SuccessiveExpression;
    var s := SuccessiveExpression(keys);
    var i := RFindKey(s, a);
    forall j | 0 <= j < |keys| && keys[j] == a ensures i >= 0 { assert s[2 * j].key == a; }
    if i >= 0 {
      assert s[i].key == keys[i / 2] by { assert s[2 * (i / 2)].key == keys[i / 2] == s[2 * (i / 2) + 1].key; }
      assert i % 2 == 1 by { assert s[2 * (i / 2) + 1].key == a; }
      assert s[2 * (i / 2) + 1] == KeyEvent(a, UpAsync, 0);
    }
  }

  lemma ReleaseTapped(keys: seq<Key>, a: Key)
    requires keys != [] && keys[|keys| - 1] == a
    ensures var s, n := SuccessiveExpression(keys), |keys|;
      && s[2 * n - 1] == KeyEvent(a, UpAsync, 0)
      && s[2 * n - 1 := Release(a)] == SuccessiveExpression(keys[..n - 1]) + [Press(a), Release(a)]
  {
    hide SuccessiveExpression;
    SuccessiveLast(keys, |keys| - 1);
  }

  lemma NotAdded(keys: seq<Key>, a: Key)
    ensures var p := Start(true).(sequence := SuccessiveExpression(keys));
      p.AddNot(a) == p.(sequence := WithNot(keys, a, false))
  {
    hide SuccessiveExpression, Parser.Flush, RFindKey;
    var p := Start(true).(sequence := SuccessiveExpression(keys));
    FlushNothing(p);
    assert WithoutKeys([], [a]) == [];
    LastOfKey(keys, a);
    if keys != [] {
      var n := |keys|;
      assert p.sequence[2 * (n - 1) + 1] == KeyEvent(keys[n - 1], UpAsync, 0);
      if keys[n - 1] == a {
        ReleaseTapped(keys, a);
      }
    }
  }

  /** Reading `k1 ... kn !a`. */
  lemma NotRead(keys: seq<Key>, a: Key, rest: seq<Token>)
    ensures ParseTokens(Start(true), Names(keys) + ([NotKey(a)] + rest))
      == ParseTokens(Start(true).(sequence := WithNot(keys, a, false)), rest)
  {
    hide Parser.Flush, SuccessiveExpression, Parser.AddNot, WithNot;
    var tokens := [NotKey(a)] + rest;
    assert tokens[0] == NotKey(a) && tokens[1..] == rest;
    FlushNothing(Start(true));
    NotAdded(keys, a);
    if keys == [] {
      assert Names(keys) + tokens == tokens;
      SuccessiveNothing();
    } else {
      NamesRead(Start(true), keys, tokens);
      TappedFlushed(Start(true), keys);
      assert [] + SuccessiveExpression(keys) == SuccessiveExpression(keys);
      NotFlushes(Tapped(Start(true), keys), a);
    }
  }

  lemma NotFlushes(p: Parser, a: Key)
    requires p.isInput
    ensures p.AddNot(a) == p.Flush(true).AddNot(a)
  {
    hide Parser.Flush, RFindKey, WithoutKeys;
    FlushKeeps(p);
    FlushNothing(p.Flush(true));
  }

  /** An input of device keys with a release or a press is final, except for a `!` at
      its end. */
  lemma FinishNot(p: Parser, sequence: KeySequence)
    requires p.isInput && !p.isNoMightMatch && !p.inTogether && p.inModified == 0 && p.sequence != []
    requires forall i :: 0 <= i < |p.sequence| ==> IsDeviceKey(p.sequence[i].key)
    requires var n := |p.sequence|;
      sequence == if p.sequence[n - 1].state == Not then p.sequence[n - 1 := p.sequence[n - 1].(state := Up)] else p.sequence
    requires exists i :: 0 <= i < |sequence| && sequence[i].IsNonOptional()
    ensures p.Finish() == Ok(sequence)
  {
    var i :| 0 <= i < |sequence| && sequence[i].IsNonOptional();
    assert sequence[i].key == p.sequence[i].key;
    assert HasUpOrDown(sequence);
    assert forall j :: 0 <= j < |sequence| ==> sequence[j].key == p.sequence[j].key;
  }

  lemma WithNotEvents(keys: seq<Key>, a: Key, isLast: bool)
    requires DeviceKeys(keys) && IsDeviceKey(a)
    ensures var s := WithNot(keys, a, isLast);
      && s != [] && (forall i :: 0 <= i < |s| ==> IsDeviceKey(s[i].key))
      && s[|s| - 1] == KeyEvent(a, if a in keys || isLast then Up else Not, 0)
    ensures WithNot(keys, a, true) == var s := WithNot(keys, a, false); s[|s| - 1 := s[|s| - 1].(state := Up)]
  {
    hide SuccessiveExpression;
    SuccessiveEvents(keys);
    var n := |keys|;
    if n > 0 && keys[n - 1] == a {
      SuccessiveEvents(keys[..n - 1]);
    }
  }

  /** `!a` behind and before any keys: right behind a it is the release of a; so it is
      at the end, and when a came before; otherwise it demands that a is up. */
  lemma CompileNot(keys: seq<Key>, a: Key, rest: seq<Key>)
    requires DeviceKeys(keys) && IsDeviceKey(a) && DeviceKeys(rest)
    ensures Compile(NotTokens(keys, a, rest), true) == Ok(WithNot(keys, a, rest == []) + SuccessiveExpression(rest))
  {
    hide Parser.Finish, Parser.Flush, SuccessiveExpression, Parser.Next, WithNot;
    var p := Start(true).(sequence := WithNot(keys, a, false));
    NotRead(keys, a, Names(rest));
    WithNotEvents(keys, a, rest == []);
    FlushNothing(p);
    if rest == [] {
      SuccessiveNothing();
      assert Names(rest) == [] && WithNot(keys, a, true) + [] == WithNot(keys, a, true);
      WithNotEvents(keys, a, false);
      FinishNot(p, WithNot(keys, a, true));
    } else {
      assert Names(rest) + [] == Names(rest);
      NamesRead(p, rest, []);
      TappedFlushed(p, rest);
      WithNotEvents(keys, a, false);
      FinishNames(p, rest);
    }
  }

  lemma FinishNames(p: Parser, rest: seq<Key>)
    requires p.isInput && !p.isNoMightMatch && !p.inTogether && p.inModified == 0
    requires (forall i :: 0 <= i < |p.sequence| ==> IsDeviceKey(p.sequence[i].key)) && DeviceKeys(rest) && rest != []
    ensures var sequence := p.sequence + SuccessiveExpression(rest);
      p.(sequence := sequence).Finish() == Ok(sequence)
  {
    hide Parser.Finish, SuccessiveExpression;
    var sequence := p.sequence + SuccessiveExpression(rest);
    SuccessiveEvents(rest);
    assert SuccessiveExpression(rest)[2 * 0] == Press(rest[0]) == sequence[|p.sequence|];
    FinishNot(p.(sequence := sequence), sequence);
  }

  /** `!a k1 ... kn` */
  lemma CompileNotBefore(a: Key, keys: seq<Key>)
    requires IsDeviceKey(a) && DeviceKeys(keys) && keys != []
    ensures Compile([NotKey(a)] + Names(keys), true) == Ok(NotBefore(a, SuccessiveExpression(keys)))
  {
    hide SuccessiveExpression, Compile;
    CompileNot([], a, keys);
    assert NotTokens([], a, keys) == [NotKey(a)] + Names(keys);
    SuccessiveNothing();
    assert [] + [KeyEvent(a, Not, 0)] == [KeyEvent(a, Not, 0)];
  }

  /** `a{!b k1 ... kn}`: in a group `!b` is the release of b. */
  lemma CompileNotInGroup(a: Key, b: Key, keys: seq<Key>)
    requires IsDeviceKey(a) && IsDeviceKey(b) && a != b && DeviceKeys(keys) && keys != []
    ensures Compile([KeyName(a), OpenModified, NotKey(b)] + (Names(keys) + [CloseModified]), true)
      == Ok([Press(a), Release(b)] + SuccessiveExpression(keys) + [KeyEvent(a, UpAsync, 0)])
  {
    hide Parser.Finish, Parser.Flush, SuccessiveExpression, Parser.Next, Parser.CloseGroup, Parser.OpenGroup, Parser.AddNot;
    var rest := Names(keys) + [CloseModified];
    var tokens := [KeyName(a), OpenModified, NotKey(b)] + rest;
    assert tokens[1..] == [OpenModified, NotKey(b)] + rest && tokens[1..][1..] == [NotKey(b)] + rest && tokens[1..][1..][1..] == rest;
    FlushNothing(Start(true));
    NameRead(Start(true), a);
    GroupOpened(a, b);
    NamesRead(InGroup(a, b), keys, [CloseModified]);
    GroupClosed(a, b, keys);
    GroupRead(a, b, tokens, rest);
  }

  /** Behind `a{!b` */
  function InGroup(a: Key, b: Key): Parser {
    Start(true).(sequence := [Press(a), Release(b)], pressed := [a], pressedBefore := [0], inModified := 1, hasModifier := true)
  }

  lemma GroupOpened(a: Key, b: Key)
    requires IsDeviceKey(a) && a != b
    ensures Start(true).(buffer := [a]).OpenGroup().AddNot(b) == InGroup(a, b)
  {
    var p := Start(true).(sequence := [Press(a)], pressed := [a], pressedBefore := [0], inModified := 1, hasModifier := true);
    HeldOpen(Start(true), a);
    assert [] + [|Start(true).pressed|] == [0] && [] + [Press(a)] == [Press(a)] && [] + [a] == [a];
    FlushNothing(p);
    assert WithoutKeys([a], [b]) == [a];
    assert p.AddNot(b) == p.Add(b, Up, 0);
  }

  lemma GroupRead(a: Key, b: Key, tokens: seq<Token>, rest: seq<Token>)
    requires IsDeviceKey(a) && |tokens| >= 3 && tokens[0] == KeyName(a) && tokens[1] == OpenModified && tokens[2] == NotKey(b) && tokens[3..] == rest
    requires Start(true).(buffer := [a]).OpenGroup().AddNot(b) == InGroup(a, b)
    ensures ParseTokens(Start(true), tokens) == ParseTokens(InGroup(a, b), rest)
  {
    hide Parser.Flush, Parser.OpenGroup, Parser.AddNot;
    var named := Start(true).(buffer := [a]);
    FlushNothing(Start(true));
    NameRead(Start(true), a);
    HeldOpen(Start(true), a);
    assert ParseTokens(Start(true), tokens) == ParseTokens(named, tokens[1..]);
    assert ParseTokens(named, tokens[1..]) == ParseTokens(named.OpenGroup(), tokens[1..][1..]);
    assert tokens[1..][1..][0] == NotKey(b) && tokens[1..][1..][1..] == rest;
  }

  lemma GroupClosed(a: Key, b: Key, keys: seq<Key>)
    requires IsDeviceKey(a) && IsDeviceKey(b) && DeviceKeys(keys) && keys != []
    ensures var p := Tapped(InGroup(a, b), keys);
      && ParseTokens(p, [CloseModified]).Ok?
      && ParseTokens(p, [CloseModified]).value.Finish()
         == Ok([Press(a), Release(b)] + SuccessiveExpression(keys) + [KeyEvent(a, UpAsync, 0)])
  {
    hide Parser.Finish, Parser.Flush, Parser.CloseGroup, SuccessiveExpression, ParseTokens;
    var p, q := Tapped(InGroup(a, b), keys), InGroup(a, b);
    FlushNothing(q);
    FlushKeeps(q);
    TappedFlushed(q, keys);
    var sequence := [Press(a), Release(b)] + SuccessiveExpression(keys) + [KeyEvent(a, UpAsync, 0)];
    GroupEvents(a, b, keys);
    GroupReleased(a, b, p, sequence);
    CloseParsed(p);
    FlushNothing(p.CloseGroup());
    FinishInput(p.CloseGroup());
  }

  lemma GroupEvents(a: Key, b: Key, keys: seq<Key>)
    requires IsDeviceKey(a) && IsDeviceKey(b) && DeviceKeys(keys)
    ensures var events := [Press(a), Release(b)] + SuccessiveExpression(keys);
      var s := events + [KeyEvent(a, UpAsync, 0)];
      && s[0] == Press(a) && s[|s| - 1] == KeyEvent(a, UpAsync, 0) && s[..|s| - 1] == events
      && forall i :: 0 <= i < |s| ==> IsDeviceKey(s[i].key) && s[i].state != Not && s[i].key != TIMEOUT
  {
    hide SuccessiveExpression;
    SuccessiveEvents(keys);
  }

  lemma GroupReleased(a: Key, b: Key, p: Parser, sequence: KeySequence)
    requires p.inModified > 0 && p.pressedBefore != [] && sequence != [] && sequence[|sequence| - 1] == KeyEvent(a, UpAsync, 0)
    requires p.Flush(true) == InGroup(a, b).(sequence := sequence[..|sequence| - 1]) && p.isInput
    requires p.pressedBefore == [0] && p.inModified == 1
    requires forall i :: 0 <= i < |sequence| ==> sequence[i].key != TIMEOUT
    ensures p.CloseGroup() == Start(true).(hasModifier := true, sequence := sequence)
  {
    hide Parser.Flush, SyncEvents;
    ReleaseOne(a);
    assert [a][0..] == [a] && [a][..0] == [] && [0][..0] == [];
    assert sequence[..|sequence| - 1] + [KeyEvent(a, UpAsync, 0)] == sequence;
    NothingToSync(sequence, |sequence|);
    assert sequence + [] == sequence;
  }

  /** From the text of the configuration to the verdict: the three kinds of
      input, with the meaning the documentation gives them, and the second one with
      `!` in front while other keys are held. */
  lemma CompiledInputsMean(keys: seq<Key>, a: Key, held: KeySequence, sq: RealEvents, all: RealEvents, optional: bool)
    requires keys != [] && DeviceKeys(keys) && Distinct(keys) && IsDeviceKey(a) && Held(held) && all == held + sq
    ensures Compile(TogetherTokens(keys), true).Ok? && Compile(Names(keys), true).Ok? && Compile(HeldTokens(keys), true).Ok?
    ensures DistinctPresses(sq) ==>
      var r := Matching(Compile(TogetherTokens(keys), true).value, sq, optional).result;
      && (r == Match <==> multiset(KeysOf(sq)) == multiset(keys))
      && (r == MightMatch <==> multiset(KeysOf(sq)) < multiset(keys))
    ensures Typing(sq) ==>
      var r := Matching(Compile(Names(keys), true).value, sq, optional).result;
      && (r == Match <==> Downs(sq) == keys)
      && (r == MightMatch <==> Downs(sq) < keys)
    ensures Typing(sq) ==>
      var r := Matching(Compile(HeldTokens(keys), true).value, sq, optional).result;
      && (r == Match <==> Downs(sq) == keys && HeldWhilePressing(sq))
      && (r == MightMatch <==> OnlyPresses(sq) && KeysOf(sq) < keys)
    ensures Compile([NotKey(a)] + Names(keys), true).Ok?
    ensures Typing(sq) && a !in keys && (forall i :: 0 <= i < |held| ==> held[i].key !in keys) ==>
      var r := Matching(Compile([NotKey(a)] + Names(keys), true).value, all, true).result;
      && (r == Match <==> Downs(sq) == keys && NoPressFrom(all, 0, a))
      && (r == MightMatch <==> Downs(sq) < keys && NoPressFrom(all, 0, a))
  {
    hide Compile, Matching, TogetherExpression, SuccessiveExpression, HeldExpression;
    CompileTogether(keys);
    CompileSuccessive(keys);
    CompileHeld(keys);
    if DistinctPresses(sq) {
      TogetherAcceptsAnyOrder(keys, sq, optional);
    }
    if Typing(sq) {
      SuccessiveKeysInOrder(keys, sq, optional);
      HeldKeysStayDown(keys, sq, optional);
    }
    CompileNotBefore(a, keys);
    if Typing(sq) && a !in keys && (forall i :: 0 <= i < |held| ==> held[i].key !in keys) {
      NotKeyBeforeSuccessive(a, keys, held, sq);
    }
  }
}
