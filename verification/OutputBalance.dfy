/** Compiled outputs release only what they pressed: always up to `^`, and
    behind it exactly unless keys are still held when `^` is reached. */
module OutputBalance {
  import opened Keys
  import opened Compiler

  /** The releases from `from` on follow a press, or are of a held key. */
  predicate Paired(s: KeySequence, from: nat, held: seq<Key>) {
    forall i :: from <= i < |s| && s[i].state == Up ==> s[i].key in held || PressedIn(s, from, i, s[i].key)
  }

  /** Holds for the parser of an output in the half which begins at `mark`;
      `held` are the keys which were pressed when that half began. */
  predicate Half(p: Parser, mark: nat, held: seq<Key>) {
    && !p.isInput
    && mark <= |p.sequence|
    && Paired(p.sequence, mark, held)
    && (forall k :: k in p.pressed ==> k in held || PressedIn(p.sequence, mark, |p.sequence|, k))
    && (forall i :: mark <= i < |p.sequence| ==> p.sequence[i].state != OutputOnRelease)
  }

  /** What one token may do to the half and to what was compiled before it. */
  predicate Extends(p: Parser, next: Parser, mark: nat, held: seq<Key>) {
    Half(next, mark, held) && mark <= |p.sequence| && next.sequence[..mark] == p.sequence[..mark]
  }

  lemma PairedExtended(s: KeySequence, more: KeySequence, mark: nat, held: seq<Key>)
    requires mark <= |s| && Paired(s, mark, held)
    requires forall i :: 0 <= i < |more| && more[i].state == Up ==>
      more[i].key in held || PressedIn(s + more, mark, |s| + i, more[i].key)
    ensures Paired(s + more, mark, held)
  {
    var all := s + more;
    forall i | mark <= i < |all| && all[i].state == Up
      ensures all[i].key in held || PressedIn(all, mark, i, all[i].key)
    {
      if i < |s| {
        assert all[i] == s[i];
        if s[i].key !in held {
          var j :| mark <= j < i && j < |s| && s[j].key == s[i].key && s[j].state == Down;
          assert all[j] == s[j];
        }
      } else {
        assert all[i] == more[i - |s|];
      }
    }
  }

  lemma PressedMonotone(s: KeySequence, more: KeySequence, mark: nat, k: Key)
    requires PressedIn(s, mark, |s|, k)
    ensures PressedIn(s + more, mark, |s + more|, k)
    ensures forall to :: |s| <= to ==> PressedIn(s + more, mark, to, k)
  {
    var j :| mark <= j < |s| && s[j].key == k && s[j].state == Down;
    assert (s + more)[j] == s[j];
  }

  /** Appending events that release only keys pressed or held. */
  lemma HalfExtended(p: Parser, next: Parser, more: KeySequence, mark: nat, held: seq<Key>)
    requires Half(p, mark, held) && !next.isInput && next.sequence == p.sequence + more
    requires forall i :: 0 <= i < |more| ==> more[i].state != OutputOnRelease
    requires forall i :: 0 <= i < |more| && more[i].state == Up ==>
      more[i].key in p.pressed || PressedIn(next.sequence, mark, |p.sequence| + i, more[i].key)
    requires forall k :: k in next.pressed ==> k in p.pressed || PressedIn(next.sequence, mark, |next.sequence|, k)
    ensures Extends(p, next, mark, held)
  {
    forall k | k in p.pressed && k !in held
      ensures PressedIn(next.sequence, mark, |next.sequence|, k)
      ensures forall to :: |p.sequence| <= to ==> PressedIn(next.sequence, mark, to, k)
    {
      PressedMonotone(p.sequence, more, mark, k);
    }
    PairedExtended(p.sequence, more, mark, held);
  }

  lemma FlushExtends(p: Parser, up: bool, mark: nat, held: seq<Key>)
    requires Half(p, mark, held)
    ensures Extends(p, p.Flush(up), mark, held)
    ensures up ==> forall k :: k in p.Flush(up).pressed ==> k in p.pressed
  {
    var next := p.Flush(up);
    var n := |p.buffer|;
    var more := Events(p.buffer, Down) + (if up then Events(p.buffer, Up) else []);
    assert next.sequence == p.sequence + more;
    forall i | 0 <= i < n
      ensures forall to :: |p.sequence| + n <= to ==> PressedIn(next.sequence, mark, to, p.buffer[i])
    {
      assert next.sequence[|p.sequence| + i] == Press(p.buffer[i]);
    }
    HalfExtended(p, next, more, mark, held);
  }

  lemma {:induction false} ReleasedKeys(keys: seq<Key>)
    ensures forall i :: 0 <= i < |ReleaseEvents(keys, false)| ==>
      var event := ReleaseEvents(keys, false)[i]; event.key in keys && event.state in {Up, Not}
  {
    if keys != [] {
      ReleasedKeys(keys[..|keys| - 1]);
    }
  }

  lemma ReleaseExtends(p: Parser, keep: nat, mark: nat, held: seq<Key>)
    requires Half(p, mark, held)
    ensures Extends(p, p.ReleaseTo(keep), mark, held)
  {
    if |p.pressed| > keep {
      ReleasedKeys(p.pressed[keep..]);
      HalfExtended(p, p.ReleaseTo(keep), ReleaseEvents(p.pressed[keep..], false), mark, held);
    }
  }

  lemma AddExtends(p: Parser, k: Key, state: KeyState, value: Value, mark: nat, held: seq<Key>)
    requires Half(p, mark, held) && state != Up && state != OutputOnRelease
    ensures Extends(p, p.Add(k, state, value), mark, held)
  {
    HalfExtended(p, p.Add(k, state, value), [KeyEvent(k, state, value)], mark, held);
  }

  /** Only the value of an event changes. */
  lemma ValueExtends(p: Parser, n: nat, value: Value, mark: nat, held: seq<Key>)
    requires Half(p, mark, held) && mark <= n < |p.sequence|
    ensures Extends(p, p.(sequence := p.sequence[n := p.sequence[n].(value := value)]), mark, held)
  {
    var next := p.(sequence := p.sequence[n := p.sequence[n].(value := value)]);
    forall k, to: nat | PressedIn(p.sequence, mark, to, k)
      ensures PressedIn(next.sequence, mark, to, k)
    {
      var j :| mark <= j < to && j < |p.sequence| && p.sequence[j].key == k && p.sequence[j].state == Down;
      assert next.sequence[j].key == k && next.sequence[j].state == Down;
    }
    forall i | mark <= i < |next.sequence| && next.sequence[i].state == Up
      ensures next.sequence[i].key in held || PressedIn(next.sequence, mark, i, next.sequence[i].key)
    {
      assert p.sequence[i].state == Up && p.sequence[i].key == next.sequence[i].key;
    }
  }

  lemma ExtendsTransitive(p: Parser, q: Parser, r: Parser, mark: nat, held: seq<Key>)
    requires Extends(p, q, mark, held) && Extends(q, r, mark, held)
    ensures Extends(p, r, mark, held)
  {
  }

  /** The flags and lists a half does not speak of. */
  lemma SameHalf(p: Parser, q: Parser, mark: nat, held: seq<Key>)
    requires Half(p, mark, held) && !q.isInput && q.sequence == p.sequence
    requires forall k :: k in q.pressed ==> k in p.pressed
    ensures Extends(p, q, mark, held)
  {
  }

  lemma TimeoutExtends(p: Parser, value: Value, mark: nat, held: seq<Key>)
    requires Half(p, mark, held)
    requires mark > 0 ==> p.sequence[mark - 1].key != TIMEOUT
    ensures p.AddTimeout(value, false).Ok? && Extends(p, p.AddTimeout(value, false).value, mark, held)
  {
    hide Parser.Flush, Half;
    HalfIsOutput(p, mark, held);
    FlushExtends(p, true, mark, held);
    var f := p.Flush(true);
    var n := |f.sequence|;
    FlushedMark(p, f, mark, held);
    if n > 0 && f.sequence[n - 1].key == TIMEOUT && f.sequence[n - 1].state == Down {
      ValueExtends(f, n - 1, SumTimeouts(f.sequence[n - 1].value, value), mark, held);
    } else {
      AddExtends(f, TIMEOUT, Down, value, mark, held);
    }
    ExtendsTransitive(p, f, p.AddTimeout(value, false).value, mark, held);
  }

  lemma FlushedMark(p: Parser, f: Parser, mark: nat, held: seq<Key>)
    requires Extends(p, f, mark, held) && (mark > 0 ==> p.sequence[mark - 1].key != TIMEOUT)
    ensures mark <= |f.sequence| && (mark > 0 ==> f.sequence[mark - 1].key != TIMEOUT)
    ensures !f.isInput
  {
    if mark > 0 {
      assert p.sequence[..mark][mark - 1] == f.sequence[..mark][mark - 1];
    }
  }

  lemma NotExtends(p: Parser, k: Key, mark: nat, held: seq<Key>)
    requires Half(p, mark, held)
    ensures Extends(p, p.AddNot(k), mark, held)
  {
    hide Parser.Flush, Half;
    FlushExtends(p, IsVirtualKey(k), mark, held);
    var f := p.Flush(IsVirtualKey(k));
    var q := f.(pressed := WithoutKeys(f.pressed, [k]));
    HalfIsOutput(p, mark, held);
    HalfIsOutput(f, mark, held);
    SameHalf(f, q, mark, held);
    AddExtends(q, k, Not, 0, mark, held);
    ExtendsTransitive(p, f, q, mark, held);
    ExtendsTransitive(p, q, q.Add(k, Not, 0), mark, held);
  }

  lemma HalfIsOutput(p: Parser, mark: nat, held: seq<Key>)
    requires Half(p, mark, held)
    ensures !p.isInput
  {
  }

  lemma GroupExtends(p: Parser, mark: nat, held: seq<Key>)
    requires Half(p, mark, held)
    ensures Extends(p, p.OpenGroup(), mark, held)
    ensures p.inModified > 0 && p.pressedBefore != [] ==> Extends(p, p.CloseGroup(), mark, held)
  {
    hide Parser.Flush, Parser.ReleaseTo, Half;
    HalfIsOutput(p, mark, held);
    var q := p.(pressedBefore := p.pressedBefore + [|p.pressed|]);
    SameHalf(p, q, mark, held);
    FlushExtends(q, false, mark, held);
    var f := q.Flush(false);
    HalfIsOutput(f, mark, held);
    SameHalf(f, f.(inModified := p.inModified + 1, hasModifier := true), mark, held);
    ExtendsTransitive(p, q, f, mark, held);
    FlagsKept(q, false);
    ExtendsTransitive(p, f, p.OpenGroup(), mark, held);
    if p.inModified > 0 && p.pressedBefore != [] {
      var n := |p.pressedBefore| - 1;
      FlushExtends(p, true, mark, held);
      FlagsKept(p, true);
      var g := p.Flush(true);
      ReleaseExtends(g, p.pressedBefore[n], mark, held);
      var r := g.ReleaseTo(p.pressedBefore[n]);
      ReleaseKeepsFlags(g, p.pressedBefore[n]);
      HalfIsOutput(r, mark, held);
      SameHalf(r, p.CloseGroup(), mark, held);
      ExtendsTransitive(p, g, r, mark, held);
      ExtendsTransitive(p, r, p.CloseGroup(), mark, held);
    }
  }

  lemma FlagsKept(p: Parser, up: bool)
    ensures var f := p.Flush(up);
      f.inModified == p.inModified && f.pressedBefore == p.pressedBefore && f.isInput == p.isInput
  {
  }

  lemma ReleaseKeepsFlags(p: Parser, keep: nat)
    ensures var r := p.ReleaseTo(keep);
      r.inModified == p.inModified && r.pressedBefore == p.pressedBefore && r.isInput == p.isInput
  {
  }

  /** Every token but `^` keeps the half. */
  lemma TokenExtends(p: Parser, token: Token, mark: nat, held: seq<Key>)
    requires Half(p, mark, held) && !token.OnRelease? && p.Next(token).Ok?
    requires mark > 0 ==> p.sequence[mark - 1].key != TIMEOUT
    ensures Extends(p, p.Next(token).value, mark, held)
  {
    hide Parser.Flush, Parser.AddNot, Parser.AddTimeout, Parser.OpenGroup, Parser.CloseGroup, Half;
    var next := p.Next(token).value;
    HalfIsOutput(p, mark, held);
    match token
    case NotKey(key) => NotExtends(p, key, mark, held);
    case NotTimeout(value) => NoNotTimeout(p, value, mark, held);
    case Timeout(value) => TimeoutExtends(p, value, mark, held);
    case KeyName(key) =>
      FlushExtends(p, true, mark, held);
      var q := if p.inTogether then p else p.Flush(true);
      SameHalf(p, p, mark, held);
      HalfIsOutput(q, mark, held);
      SameHalf(q, next, mark, held);
      ExtendsTransitive(p, q, next, mark, held);
    case OpenTogether =>
      FlushExtends(p, true, mark, held);
      HalfIsOutput(p.Flush(true), mark, held);
      SameHalf(p.Flush(true), next, mark, held);
      ExtendsTransitive(p, p.Flush(true), next, mark, held);
    case CloseTogether =>
      assert p.sequence + [] == p.sequence;
      SameHalf(p, next, mark, held);
    case OpenModified => GroupExtends(p, mark, held);
    case CloseModified => GroupExtends(p, mark, held);
    case Command(action) =>
      FlushExtends(p, true, mark, held);
      AddExtends(p.Flush(true), action, Down, 0, mark, held);
      ExtendsTransitive(p, p.Flush(true), next, mark, held);
    case NoMightMatchMark =>
    case Comment => SameHalf(p, p, mark, held);
    case Invalid =>
  }

  lemma NoNotTimeout(p: Parser, value: Value, mark: nat, held: seq<Key>)
    requires Half(p, mark, held)
    ensures p.AddTimeout(value, true).Err?
  {
  }

  /** All tokens, without the final flush. */
  function Steps(p: Parser, tokens: seq<Token>): Result<Parser>
    decreases |tokens|
  {
    if tokens == [] then Ok(p)
    else
      match p.Next(tokens[0])
      case Err(error) => Err(error)
      case Ok(next) => Steps(next, tokens[1..])
  }

  predicate Plain(tokens: seq<Token>) {
    forall i :: 0 <= i < |tokens| ==> !tokens[i].Comment?
  }

  lemma {:induction false} ParseSplit(p: Parser, first: seq<Token>, rest: seq<Token>)
    requires Plain(first)
    ensures ParseTokens(p, first + rest)
      == match Steps(p, first) case Err(error) => Err(error) case Ok(q) => ParseTokens(q, rest)
    decreases |first|
  {
    if first == [] {
      assert first + rest == rest;
    } else {
      assert (first + rest)[1..] == first[1..] + rest;
      var next := p.Next(first[0]);
      if next.Ok? {
        ParseSplit(next.value, first[1..], rest);
      }
    }
  }

  predicate WithoutRelease(tokens: seq<Token>) {
    forall i :: 0 <= i < |tokens| ==> !tokens[i].OnRelease?
  }

  lemma {:induction false} StepsExtend(p: Parser, tokens: seq<Token>, mark: nat, held: seq<Key>)
    requires Half(p, mark, held) && WithoutRelease(tokens) && Steps(p, tokens).Ok?
    requires mark > 0 ==> p.sequence[mark - 1].key != TIMEOUT
    ensures Extends(p, Steps(p, tokens).value, mark, held)
    decreases |tokens|
  {
    hide Half;
    if tokens == [] {
      HalfIsOutput(p, mark, held);
      SameHalf(p, p, mark, held);
    } else {
      var next := p.Next(tokens[0]).value;
      TokenExtends(p, tokens[0], mark, held);
      FlushedMark(p, next, mark, held);
      StepsExtend(next, tokens[1..], mark, held);
      ExtendsTransitive(p, next, Steps(p, tokens).value, mark, held);
    }
  }

  /** Behind `^` a further `^` or a comment ends in an error or the end. */
  lemma {:induction false} ParseExtends(p: Parser, tokens: seq<Token>, mark: nat, held: seq<Key>)
    requires Half(p, mark, held) && ParseTokens(p, tokens).Ok?
    requires p.outputOnRelease || WithoutRelease(tokens)
    requires mark > 0 ==> p.sequence[mark - 1].key != TIMEOUT
    ensures Extends(p, ParseTokens(p, tokens).value, mark, held)
    decreases |tokens|
  {
    hide Half, Parser.Flush;
    if tokens == [] || tokens[0].Comment? {
      FlushExtends(p, true, mark, held);
    } else {
      var next := p.Next(tokens[0]).value;
      TokenExtends(p, tokens[0], mark, held);
      FlushedMark(p, next, mark, held);
      ReleaseFlagKept(p, tokens[0]);
      ParseExtends(next, tokens[1..], mark, held);
      ExtendsTransitive(p, next, ParseTokens(p, tokens).value, mark, held);
    }
  }

  lemma ReleaseFlagKept(p: Parser, token: Token)
    requires p.Next(token).Ok?
    ensures p.Next(token).value.outputOnRelease == (p.outputOnRelease || token.OnRelease?)
    ensures p.outputOnRelease ==> !token.OnRelease?
  {
    hide Events, ReleaseEvents, SyncEvents, Parser.AddNot, Parser.AddTimeout;
    match token
    case NotKey(key) => NotKeepsReleaseFlag(p, key);
    case NotTimeout(value) => TimeoutKeepsReleaseFlag(p, value, true);
    case Timeout(value) => TimeoutKeepsReleaseFlag(p, value, false);
    case _ =>
  }

  lemma NotKeepsReleaseFlag(p: Parser, k: Key)
    ensures p.AddNot(k).outputOnRelease == p.outputOnRelease
  {
    hide Parser.Flush, WithoutKeys, RFindKey;
    FlushKeepsReleaseFlag(p, p.isInput || IsVirtualKey(k));
  }

  lemma FlushKeepsReleaseFlag(p: Parser, up: bool)
    ensures p.Flush(up).outputOnRelease == p.outputOnRelease
  {
  }

  lemma TimeoutKeepsReleaseFlag(p: Parser, value: Value, isNot: bool)
    requires p.AddTimeout(value, isNot).Ok?
    ensures p.AddTimeout(value, isNot).value.outputOnRelease == p.outputOnRelease
  {
    hide Parser.Flush;
    FlushKeepsReleaseFlag(p, true);
  }

  /** What is left of a finished output is a prefix of the last state. */
  lemma FinishedHalf(p: Parser, mark: nat, held: seq<Key>)
    requires Half(p, mark, held) && p.Finish().Ok?
    requires mark > 0 ==> p.sequence[mark - 1].state == OutputOnRelease
    ensures var s := p.Finish().value;
      mark <= |s| && s[..mark] == p.sequence[..mark] && Paired(s, mark, held)
      && (forall i :: mark <= i < |s| ==> s[i].state != OutputOnRelease)
  {
    ReleaseExtends(p, 0, mark, held);
    var q := p.ReleaseTo(0);
    var s := p.Finish().value;
    assert s <= q.sequence;
    assert mark > 0 ==> q.sequence[..mark][mark - 1] == p.sequence[..mark][mark - 1];
    assert s[..mark] == q.sequence[..mark];
    PrefixPaired(q.sequence, s, mark, held);
  }

  lemma PrefixPaired(s: KeySequence, prefix: KeySequence, mark: nat, held: seq<Key>)
    requires prefix <= s && Paired(s, mark, held)
    ensures Paired(prefix, mark, held)
  {
    forall i | mark <= i < |prefix| && prefix[i].state == Up
      ensures prefix[i].key in held || PressedIn(prefix, mark, i, prefix[i].key)
    {
      assert s[i] == prefix[i];
      if prefix[i].key !in held {
        var j :| mark <= j < i && j < |s| && s[j].key == s[i].key && s[j].state == Down;
        assert prefix[j] == s[j];
      }
    }
  }

  /** An output without `^` releases only what it pressed. */
  lemma OutputWithoutReleaseIsBalanced(tokens: seq<Token>)
    requires WithoutRelease(tokens) && Compile(tokens, false).Ok?
    ensures BalancedPart(Compile(tokens, false).value)
    ensures BalancedOutput(Compile(tokens, false).value)
  {
    ParseExtends(Start(false), tokens, 0, []);
    var p := ParseTokens(Start(false), tokens).value;
    FinishedHalf(p, 0, []);
    HalvesAreBalanced(Compile(tokens, false).value, 0);
  }

  lemma HalvesAreBalanced(s: KeySequence, mark: nat)
    requires mark <= |s| && Paired(s[..mark], 0, []) && Paired(s, mark, [])
    requires forall i :: 0 <= i < |s| && i + 1 != mark ==> s[i].state != OutputOnRelease
    ensures BalancedOutput(s)
  {
    forall i | 0 <= i < |s| && s[i].state == Up
      ensures exists j :: 0 <= j < i && s[j].key == s[i].key && s[j].state == Down
                          && forall m :: j < m < i ==> s[m].state != OutputOnRelease
    {
      if i < mark {
        assert s[..mark][i] == s[i];
        assert PressedIn(s[..mark], 0, i, s[i].key);
        var j :| 0 <= j < i && s[..mark][j].key == s[i].key && s[..mark][j].state == Down;
        assert s[j] == s[..mark][j];
      } else {
        assert PressedIn(s, mark, i, s[i].key);
        var j :| mark <= j < i && s[j].key == s[i].key && s[j].state == Down;
      }
    }
  }

  /** The keys an output holds at the end of these tokens; at a `^` they are
      the source's `m_pressed_keys`. */
  function HeldAfter(tokens: seq<Token>): seq<Key> {
    match Steps(Start(false), tokens)
    case Err(_) => []
    case Ok(p) => p.Flush(true).pressed
  }

  /** The state at `^`, right behind it. */
  function AtRelease(first: seq<Token>): Parser
    requires Steps(Start(false), first).Ok?
  {
    var f := Steps(Start(false), first).value.Flush(true);
    f.(outputOnRelease := true, sequence := f.sequence + [KeyEvent(NONE, OutputOnRelease, 0)])
  }

  lemma ReleaseReached(first: seq<Token>, second: seq<Token>)
    requires Plain(first) && ParseTokens(Start(false), first + [OnRelease] + second).Ok?
    ensures Steps(Start(false), first).Ok?
    ensures ParseTokens(Start(false), first + [OnRelease] + second) == ParseTokens(AtRelease(first), second)
  {
    hide Parser.Flush;
    assert first + [OnRelease] + second == first + ([OnRelease] + second);
    ParseSplit(Start(false), first, [OnRelease] + second);
    assert ([OnRelease] + second)[1..] == second;
  }

  lemma FirstHalf(first: seq<Token>)
    requires WithoutRelease(first) && Steps(Start(false), first).Ok?
    ensures var f := Steps(Start(false), first).value.Flush(true);
      Half(f, 0, []) && Paired(AtRelease(first).sequence, 0, [])
  {
    hide Parser.Flush;
    StepsExtend(Start(false), first, 0, []);
    var p := Steps(Start(false), first).value;
    FlushExtends(p, true, 0, []);
    PairedExtended(p.Flush(true).sequence, [KeyEvent(NONE, OutputOnRelease, 0)], 0, []);
  }

  /** An output around `^`: the first half releases only what it pressed, the
      second only that and the keys held at `^`. */
  lemma OutputHalves(first: seq<Token>, second: seq<Token>) returns (mark: nat)
    requires Plain(first) && WithoutRelease(first)
    requires Compile(first + [OnRelease] + second, false).Ok?
    ensures var s := Compile(first + [OnRelease] + second, false).value;
      && 0 < mark <= |s| && s[mark - 1].state == OutputOnRelease
      && (forall i :: 0 <= i < |s| && i + 1 != mark ==> s[i].state != OutputOnRelease)
      && Paired(s[..mark], 0, []) && Paired(s, mark, HeldAfter(first))
  {
    hide Parser.Flush, Parser.Finish;
    ReleaseReached(first, second);
    FirstHalf(first);
    var q := AtRelease(first);
    mark := |q.sequence|;
    assert Half(q, mark, HeldAfter(first));
    ParseExtends(q, second, mark, HeldAfter(first));
    var r := ParseTokens(q, second).value;
    assert r.sequence[..mark] == q.sequence;
    assert r.sequence[mark - 1] == r.sequence[..mark][mark - 1] == q.sequence[mark - 1];
    FinishedHalf(r, mark, HeldAfter(first));
    var s := r.Finish().value;
    assert s[..mark] == q.sequence;
    forall i | 0 <= i < mark ensures s[i] == q.sequence[i] {
      assert s[..mark][i] == s[i];
    }
  }

  /** No key is held at `^`: the whole output is balanced. */
  lemma OutputIsBalancedIfNothingIsHeld(first: seq<Token>, second: seq<Token>)
    requires Plain(first) && WithoutRelease(first) && HeldAfter(first) == []
    requires Compile(first + [OnRelease] + second, false).Ok?
    ensures BalancedOutput(Compile(first + [OnRelease] + second, false).value)
  {
    hide Compile;
    var mark := OutputHalves(first, second);
    HalvesAreBalanced(Compile(first + [OnRelease] + second, false).value, mark);
  }

  /** Tapping a key twice behind `^` while `h` is held: `h` is released there
      although only another key was pressed. */
  lemma HeldKeyIsReleasedLater(p: Parser, h: Key, c: Key)
    requires !p.isInput && !p.inTogether && p.inModified == 0 && p.buffer == [] && p.outputOnRelease && !p.isNoMightMatch
    requires p.sequence != [] && p.sequence[|p.sequence| - 1] == KeyEvent(NONE, OutputOnRelease, 0)
    requires !HasKey(p.sequence, CONTEXT_ACTIVE) && CONTEXT_ACTIVE !in p.pressed
    requires h in p.pressed && c != h && IsDeviceKey(c)
    ensures ParseTokens(p, [KeyName(c), KeyName(c)]).Ok?
    ensures var r := ParseTokens(p, [KeyName(c), KeyName(c)]).value.Finish();
      r.Ok? && !BalancedOutput(r.value)
  {
    hide Parser.Finish, Parser.Flush, Parser.Next, HasKey, BalancedOutput;
    var last := TwoTaps(p, c);
    var tapped := ParseTokens(p, [KeyName(c), KeyName(c)]).value;
    ReleasedIn(tapped.pressed, h);
    ReleasedKeys(tapped.pressed);
    var released := ReleaseEvents(tapped.pressed, false);
    assert tapped.pressed[0..] == tapped.pressed;
    var s := tapped.sequence + released;
    FinishTaps(p, c, tapped, s);
    var n := |p.sequence|;
    var i :| 0 <= i < |released| && released[i] == Release(h);
    StrayRelease(s, n, n + 4 + i, h, c);
  }

  lemma TwoTaps(p: Parser, c: Key) returns (taps: KeySequence)
    requires !p.isInput && !p.inTogether && p.buffer == []
    ensures taps == [Press(c), Release(c), Press(c), Release(c)]
    ensures ParseTokens(p, [KeyName(c), KeyName(c)]).Ok?
    ensures var r := ParseTokens(p, [KeyName(c), KeyName(c)]).value;
      && r == p.(sequence := p.sequence + taps, pressed := r.pressed)
      && forall k :: k in r.pressed <==> k in p.pressed && k != c
  {
    taps := [Press(c), Release(c), Press(c), Release(c)];
    FlushNothing(p);
    var p1 := p.(buffer := [c]);
    assert [] + [c] == [c];
    assert p.Next(KeyName(c)) == Ok(p1);
    FlushOne(p1, c);
    var p2 := p1.Flush(true).(buffer := [c]);
    assert p1.Next(KeyName(c)) == Ok(p2);
    FlushOne(p2, c);
    assert [KeyName(c), KeyName(c)][1..] == [KeyName(c)];
    assert [KeyName(c)][1..] == [];
    assert ParseTokens(p, [KeyName(c), KeyName(c)]) == ParseTokens(p1, [KeyName(c)]) == ParseTokens(p2, [])
        == Ok(p2.Flush(true));
    assert p2.Flush(true).sequence == p.sequence + taps;
  }

  lemma FlushOne(p: Parser, c: Key)
    requires p.buffer == [c] && !p.isInput
    ensures p.Flush(true) == p.(buffer := [], pressed := WithoutKeys(p.pressed, [c]),
                                sequence := p.sequence + [Press(c)] + [Release(c)])
  {
    assert Events([c], Down) == [Press(c)];
    assert Events([c], Up) == [Release(c)];
  }

  lemma {:induction false} ReleasedIn(keys: seq<Key>, h: Key)
    requires h in keys
    ensures exists i :: 0 <= i < |ReleaseEvents(keys, false)| && ReleaseEvents(keys, false)[i] == Release(h)
  {
    var n := |keys| - 1;
    var events := ReleaseEvents(keys, false);
    if keys[n] == h {
      assert events[0] == Release(h);
    } else {
      ReleasedIn(keys[..n], h);
      var rest := ReleaseEvents(keys[..n], false);
      var i :| 0 <= i < |rest| && rest[i] == Release(h);
      assert events[|events| - |rest| + i] == rest[i];
    }
  }

  lemma FinishTaps(p: Parser, c: Key, tapped: Parser, s: KeySequence)
    requires !p.isInput && !p.inTogether && p.inModified == 0 && !p.isNoMightMatch
    requires !HasKey(p.sequence, CONTEXT_ACTIVE) && CONTEXT_ACTIVE !in tapped.pressed && c != CONTEXT_ACTIVE
    requires tapped == p.(sequence := p.sequence + [Press(c), Release(c), Press(c), Release(c)], pressed := tapped.pressed)
    requires s == tapped.sequence + ReleaseEvents(tapped.pressed, false)
    ensures tapped.Finish() == Ok(s)
  {
    var n := |p.sequence|;
    ReleasedKeys(tapped.pressed);
    assert tapped.pressed[0..] == tapped.pressed;
    if tapped.pressed == [] {
      assert s == tapped.sequence;
    }
    assert tapped.ReleaseTo(0).sequence == s;
    assert s[n + 1] == Release(c) && s[n + 2] == Press(c);
    assert !AllPressedAtOnce(s);
    assert !HasKey(s, CONTEXT_ACTIVE) by {
      forall i | 0 <= i < |s| ensures s[i].key != CONTEXT_ACTIVE {
        if i < n {
          assert s[i] == p.sequence[i];
        } else if i >= n + 4 {
          assert s[i] == ReleaseEvents(tapped.pressed, false)[i - n - 4];
        }
      }
    }
  }

  lemma StrayRelease(s: KeySequence, n: nat, i: nat, h: Key, c: Key)
    requires 0 < n <= i < |s| && s[n - 1].state == OutputOnRelease
    requires s[i] == Release(h) && c != h
    requires forall j :: n <= j < i ==> s[j].key == c || s[j].state != Down
    ensures !BalancedOutput(s)
  {
    forall j | 0 <= j < i && s[j].key == s[i].key && s[j].state == Down
      ensures !(forall m :: j < m < i ==> s[m].state != OutputOnRelease)
    {
      assert j < n - 1 < i;
    }
  }

  /** Exactly the outputs whose parser holds no key at `^` are balanced whatever
      follows `^`. */
  lemma BalancedBehindReleaseIffNothingHeld(first: seq<Token>)
    requires Plain(first) && WithoutRelease(first)
    requires Steps(Start(false), first).Ok?
    requires var p := Steps(Start(false), first).value;
      !p.inTogether && p.inModified == 0 && !HasKey(p.Flush(true).sequence, CONTEXT_ACTIVE)
    ensures (forall second :: Compile(first + [OnRelease] + second, false).Ok? ==>
               BalancedOutput(Compile(first + [OnRelease] + second, false).value))
      <==> HeldAfter(first) == []
  {
    hide Compile, Parser.Flush, BalancedOutput;
    if HeldAfter(first) == [] {
      forall second | Compile(first + [OnRelease] + second, false).Ok?
        ensures BalancedOutput(Compile(first + [OnRelease] + second, false).value)
      {
        OutputIsBalancedIfNothingIsHeld(first, second);
      }
    } else {
      var h := HeldAfter(first)[0];
      var c: Key := if h == 1 then 2 else 1;
      HeldStaysBehindRelease(first, h, c);
    }
  }

  lemma HeldStaysBehindRelease(first: seq<Token>, h: Key, c: Key)
    requires Plain(first) && WithoutRelease(first)
    requires Steps(Start(false), first).Ok?
    requires var p := Steps(Start(false), first).value;
      !p.inTogether && p.inModified == 0 && !HasKey(p.Flush(true).sequence, CONTEXT_ACTIVE)
    requires h in HeldAfter(first) && c != h && IsDeviceKey(c)
    ensures var r := Compile(first + [OnRelease] + [KeyName(c), KeyName(c)], false);
      r.Ok? && !BalancedOutput(r.value)
  {
    var second := [KeyName(c), KeyName(c)];
    var p := Steps(Start(false), first).value;
    var q := AtRelease(first);
    FirstHalf(first);
    PressedWasCompiled(first);
    OutputFlags(Start(false), first);
    assert first + [OnRelease] + second == first + ([OnRelease] + second);
    ParseSplit(Start(false), first, [OnRelease] + second);
    assert ([OnRelease] + second)[1..] == second;
    assert p.Next(OnRelease) == Ok(q);
    NoContextActive(p.Flush(true).sequence);
    HeldKeyIsReleasedLater(q, h, c);
  }

  lemma NoContextActive(s: KeySequence)
    requires !HasKey(s, CONTEXT_ACTIVE)
    ensures !HasKey(s + [KeyEvent(NONE, OutputOnRelease, 0)], CONTEXT_ACTIVE)
  {
  }

  /** Held keys were pressed before, so a parser without ContextActive holds none. */
  lemma PressedWasCompiled(first: seq<Token>)
    requires WithoutRelease(first) && Steps(Start(false), first).Ok?
    ensures var f := Steps(Start(false), first).value.Flush(true);
      !HasKey(f.sequence, CONTEXT_ACTIVE) ==> CONTEXT_ACTIVE !in f.pressed
  {
    hide Parser.Flush;
    FirstHalf(first);
  }

  lemma {:induction false} OutputFlags(p: Parser, tokens: seq<Token>)
    requires !p.isInput && !p.isNoMightMatch && !p.outputOnRelease && WithoutRelease(tokens) && Steps(p, tokens).Ok?
    ensures var q := Steps(p, tokens).value; !q.isInput && !q.isNoMightMatch && !q.outputOnRelease
    decreases |tokens|
  {
    if tokens != [] {
      var next := p.Next(tokens[0]).value;
      OutputFlagsStep(p, tokens[0]);
      OutputFlags(next, tokens[1..]);
    }
  }

  lemma OutputFlagsStep(p: Parser, token: Token)
    requires !p.isInput && !p.isNoMightMatch && !p.outputOnRelease && !token.OnRelease? && p.Next(token).Ok?
    ensures var q := p.Next(token).value; !q.isInput && !q.isNoMightMatch && !q.outputOnRelease
  {
    hide Events, WithoutKeys, ReleaseEvents, SyncEvents, RFindKey;
  }

  /** For instance `A !B ^ C C`: the `!` presses A without releasing it, so A is
      released at the very end, in the half that did not press it. */
  lemma NotKeyHoldsKeyAcrossRelease(a: Key, b: Key, c: Key)
    requires IsDeviceKey(a) && IsDeviceKey(b) && IsDeviceKey(c) && a != b && c != a
    ensures var r := Compile([KeyName(a), NotKey(b)] + [OnRelease] + [KeyName(c), KeyName(c)], false);
      r.Ok? && !BalancedOutput(r.value)
  {
    hide Parser.Flush, Parser.Finish, Compile;
    var first := [KeyName(a), NotKey(b)];
    FlushNothing(Start(false));
    assert [] + [a] == [a];
    var named := Start(false).(buffer := [a]);
    assert Start(false).Next(KeyName(a)) == Ok(named);
    NotKeyPresses(a, b);
    assert first[1..] == [NotKey(b)] && first[1..][1..] == [];
    var p := Start(false).(pressed := [a], sequence := [Press(a), KeyEvent(b, Not, 0)]);
    assert Steps(Start(false), first) == Steps(named, first[1..]) == Steps(p, []) == Ok(p);
    FlushNothing(p);
    HeldStaysBehindRelease(first, a, c);
  }

  lemma NotKeyPresses(a: Key, b: Key)
    requires IsDeviceKey(b) && a != b
    ensures Start(false).(buffer := [a]).Next(NotKey(b))
      == Ok(Start(false).(pressed := [a], sequence := [Press(a), KeyEvent(b, Not, 0)]))
  {
    var named := Start(false).(buffer := [a]);
    assert Events([a], Down) == [Press(a)];
    assert [] + [Press(a)] + [] == [Press(a)];
    assert [] + [a] == [a];
    var flushed := named.Flush(false);
    assert flushed == Start(false).(pressed := [a], sequence := [Press(a)]);
    assert [a][1..] == [];
    assert WithoutKeys([a], [b]) == [a] + WithoutKeys([], [b]) == [a];
    assert [Press(a)] + [KeyEvent(b, Not, 0)] == [Press(a), KeyEvent(b, Not, 0)];
  }

  /** The group stack has as many entries as groups are open, and outside of
      groups no key is pressed when `!` never presses keys for itself. */
  predicate Clean(p: Parser, last: Token) {
    && |p.pressedBefore| == p.inModified
    && (if p.inModified == 0 then p.pressed == [] else p.pressedBefore[0] == 0)
    && (p.buffer == [] || last.KeyName? || last.CloseTogether?)
  }

  predicate PressesForItself(last: Token, token: Token) {
    token.NotKey? && !IsVirtualKey(token.key) && (last.KeyName? || last.CloseTogether?)
  }

  lemma CleanStep(p: Parser, last: Token, token: Token)
    requires Clean(p, last) && !p.isInput && p.Next(token).Ok? && !PressesForItself(last, token) && !token.Comment?
    ensures Clean(p.Next(token).value, token) && !p.Next(token).value.isInput
  {
    hide Parser.Flush, Parser.AddNot, Parser.AddTimeout, Parser.OpenGroup, Parser.CloseGroup;
    FlushedLists(p, true);
    match token
    case NotKey(key) => NotKeyLists(p, key);
    case NotTimeout(value) => TimeoutLists(p, value, true);
    case Timeout(value) => TimeoutLists(p, value, false);
    case OpenModified => OpenedLists(p);
    case CloseModified => ClosedLists(p);
    case _ =>
  }

  lemma FlushedLists(p: Parser, up: bool)
    ensures var f := p.Flush(up);
      && f.inModified == p.inModified && f.pressedBefore == p.pressedBefore && f.isInput == p.isInput
      && f.buffer == [] && (up && p.pressed == [] ==> f.pressed == [])
      && (p.buffer == [] && p.pressed == [] ==> f.pressed == [])
  {
    FewerKeys(p);
    assert p.pressed == [] && p.buffer == [] ==> p.pressed + p.buffer == [];
  }

  lemma NotKeyLists(p: Parser, k: Key)
    requires !p.isInput
    ensures var f := p.AddNot(k);
      && f.inModified == p.inModified && f.pressedBefore == p.pressedBefore && !f.isInput
      && f.buffer == [] && (p.pressed == [] && (IsVirtualKey(k) || p.buffer == []) ==> f.pressed == [])
  {
    hide Parser.Flush;
    FlushedLists(p, IsVirtualKey(k));
  }

  lemma TimeoutLists(p: Parser, value: Value, isNot: bool)
    requires p.AddTimeout(value, isNot).Ok?
    ensures var f := p.AddTimeout(value, isNot).value;
      && f.inModified == p.inModified && f.pressedBefore == p.pressedBefore && f.isInput == p.isInput
      && f.buffer == [] && (p.pressed == [] ==> f.pressed == [])
  {
    hide Parser.Flush;
    FlushedLists(p, true);
  }

  lemma OpenedLists(p: Parser)
    ensures var f := p.OpenGroup();
      && f.inModified == p.inModified + 1 && f.pressedBefore == p.pressedBefore + [|p.pressed|]
      && f.isInput == p.isInput && f.buffer == []
  {
    hide Parser.Flush;
    FlushedLists(p.(pressedBefore := p.pressedBefore + [|p.pressed|]), false);
  }

  lemma ClosedLists(p: Parser)
    requires p.inModified > 0 && p.pressedBefore != []
    ensures var f := p.CloseGroup();
      && f.inModified == p.inModified - 1 && f.pressedBefore == p.pressedBefore[..|p.pressedBefore| - 1]
      && f.isInput == p.isInput && f.buffer == []
      && (p.pressedBefore[|p.pressedBefore| - 1] == 0 ==> f.pressed == [])
  {
    hide Parser.Flush, ReleaseEvents, SyncEvents;
    FlushedLists(p, true);
  }

  lemma FewerKeys(p: Parser)
    ensures p.pressed == [] ==> WithoutKeys(p.pressed, p.buffer) == []
  {
  }

  lemma {:induction false} CleanSteps(p: Parser, last: Token, tokens: seq<Token>)
    requires Clean(p, last) && !p.isInput && Steps(p, tokens).Ok? && Plain(tokens)
    requires tokens != [] ==> !PressesForItself(last, tokens[0])
    requires forall i :: 0 < i < |tokens| ==> !PressesForItself(tokens[i - 1], tokens[i])
    ensures var q := Steps(p, tokens).value;
      (q.inModified == |q.pressedBefore| && !q.isInput && (q.inModified == 0 ==> q.pressed == []))
    decreases |tokens|
  {
    if tokens != [] {
      CleanStep(p, last, tokens[0]);
      CleanSteps(p.Next(tokens[0]).value, tokens[0], tokens[1..]);
    }
  }

  /** A check on the tokens alone: no key is held at `^` when no `!` of a key
      that is not virtual stands right behind a key or a together group. */
  lemma NothingHeldWithoutNotBehindKey(first: seq<Token>)
    requires Plain(first) && Steps(Start(false), first).Ok? && Steps(Start(false), first).value.inModified == 0
    requires forall i :: 0 < i < |first| ==> !PressesForItself(first[i - 1], first[i])
    ensures HeldAfter(first) == []
  {
    CleanSteps(Start(false), Comment, first);
    FewerKeys(Steps(Start(false), first).value);
  }

  /** The group stack of input and output expressions. */
  lemma {:induction false} GroupStackMatchesOpenGroups(p: Parser, tokens: seq<Token>)
    requires |p.pressedBefore| == p.inModified && Steps(p, tokens).Ok?
    ensures var q := Steps(p, tokens).value; |q.pressedBefore| == q.inModified
    decreases |tokens|
  {
    if tokens != [] {
      StackStep(p, tokens[0]);
      GroupStackMatchesOpenGroups(p.Next(tokens[0]).value, tokens[1..]);
    }
  }

  lemma StackStep(p: Parser, token: Token)
    requires |p.pressedBefore| == p.inModified && p.Next(token).Ok?
    ensures var q := p.Next(token).value; |q.pressedBefore| == q.inModified
  {
    hide Parser.Flush, Parser.AddTimeout, Parser.OpenGroup, Parser.CloseGroup;
    FlushedLists(p, true);
    match token
    case NotKey(key) => FlushedLists(p, p.isInput || IsVirtualKey(key));
    case NotTimeout(value) => TimeoutLists(p, value, true);
    case Timeout(value) => TimeoutLists(p, value, false);
    case OpenModified => OpenedLists(p);
    case CloseModified => ClosedLists(p);
    case _ =>
  }
}
