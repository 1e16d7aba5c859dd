/** The expression compiler, `src/config/ParseKeySequence.cpp`, from tokens on.
    `Parser` and its functions describe what one token does to the parser's
    state; the class `ParseKeySequence` does it step by step. */
module Compiler {
  import opened Keys

  datatype Token =
    | NotKey(key: Key)              // !A
    | NotTimeout(value: Value)      // !100ms
    | Timeout(value: Value)         // 100ms
    | KeyName(key: Key)             // A
    | OpenTogether                  // (
    | CloseTogether                 // )
    | OpenModified                  // {
    | CloseModified                 // }
    | Command(action: Key)          // $(...), with the action key it was given
    | OnRelease                     // ^
    | NoMightMatchMark              // ?
    | Comment                       // # and everything behind it
    | Invalid                       // neither a symbol nor the name of a key

  datatype Error =
    | Unexpected
    | InvalidKey
    | TimeoutInGroup
    | StartsWithTimeout
    | NotTimeoutInOutput
    | GroupNotClosed
    | NoKeyEvent
    | VirtualKeyWithNoMightMatch
    | ContextActiveMisused

  datatype Result<+T> = Ok(value: T) | Err(error: Error)

  function Async(isInput: bool): KeyState { if isInput then UpAsync else Up }

  function WithoutKeys(keys: seq<Key>, removed: seq<Key>): (r: seq<Key>)
    ensures forall k :: k in r <==> k in keys && k !in removed
    ensures |r| <= |keys|
  {
    if keys == [] then []
    else if keys[0] in removed then WithoutKeys(keys[1..], removed)
    else [keys[0]] + WithoutKeys(keys[1..], removed)
  }

  /** The releases of pressed keys, last pressed first. */
  function ReleaseEvents(keys: seq<Key>, isInput: bool): KeySequence {
    if keys == [] then []
    else
      var k := keys[|keys| - 1];
      [KeyEvent(k, Async(isInput), 0)]
      + (if !isInput && IsVirtualKey(k) then [KeyEvent(k, Not, 0)] else [])
      + ReleaseEvents(keys[..|keys| - 1], isInput)
  }

  /** The Ups which `sync_after_not_timeout` appends: one for each UpAsync
      between the last not-timeout and the end, when nothing else is there. */
  function SyncEvents(sequence: KeySequence, i: nat): KeySequence
    requires i <= |sequence|
  {
    if i == 0 then []
    else
      var event := sequence[i - 1];
      if event.key == TIMEOUT && IsNotTimeoutState(event.state) then Events(KeysOf(sequence[i..]), Up)
      else if event.state == UpAsync then SyncEvents(sequence, i - 1)
      else []
  }

  /** No key is pressed after one was released. */
  predicate AllPressedAtOnce(sequence: KeySequence) {
    forall i, j :: 0 <= i < j < |sequence| && sequence[i].state == Up ==> sequence[j].state != Down
  }

  function WithoutFinal(sequence: KeySequence, state: KeyState): (r: KeySequence)
    ensures r <= sequence
    ensures forall i :: |r| <= i < |sequence| ==> sequence[i].state == state
    ensures r != [] ==> r[|r| - 1].state != state
  {
    if sequence != [] && sequence[|sequence| - 1].state == state
    then WithoutFinal(sequence[..|sequence| - 1], state)
    else sequence
  }

  predicate HasKey(sequence: KeySequence, k: Key) {
    exists i :: 0 <= i < |sequence| && sequence[i].key == k
  }

  predicate HasVirtualKey(sequence: KeySequence) {
    exists i :: 0 <= i < |sequence| && IsVirtualKey(sequence[i].key)
  }

  predicate HasUpOrDown(sequence: KeySequence) {
    exists i :: 0 <= i < |sequence| && sequence[i].key != TIMEOUT && sequence[i].IsNonOptional()
  }

  datatype Parser = Parser(
    isInput: bool,
    isNoMightMatch: bool,
    outputOnRelease: bool,
    inTogether: bool,
    inModified: nat,
    hasModifier: bool,
    pressed: seq<Key>,
    pressedBefore: seq<nat>,
    buffer: seq<Key>,
    sequence: KeySequence)
  {
    function Add(k: Key, state: KeyState, value: Value): Parser {
      this.(sequence := sequence + [KeyEvent(k, state, value)])
    }

    function Flush(upImmediately: bool): Parser {
      this.(buffer := [],
            sequence := sequence + Events(buffer, Down)
                        + (if upImmediately then Events(buffer, Async(isInput)) else []),
            pressed := if !upImmediately then pressed + buffer
                       else if isInput then pressed
                       else WithoutKeys(pressed, buffer))
    }

    function ReleaseTo(keep: nat): Parser {
      if |pressed| <= keep then this
      else this.(pressed := pressed[..keep],
                 sequence := sequence + ReleaseEvents(pressed[keep..], isInput))
    }

    function AddTimeout(timeout: Value, isNot: bool): Result<Parser> {
      var p := Flush(true);
      var n := |p.sequence|;
      if isInput && n == 0 then Err(StartsWithTimeout)
      else if !isInput && isNot then Err(NotTimeoutInOutput)
      else
        var before :=
          if isInput && p.sequence[n - 1].state == Not
          then p.sequence[n - 1 := p.sequence[n - 1].(state := Up)] else p.sequence;
        var state :=
          if !isInput then Down
          else if isNot then (if inModified > 0 then NotTimeoutCancelOnUpDown else Not)
          else if inModified > 0 then Up
          else Down;
        if n > 0 && before[n - 1].key == TIMEOUT && before[n - 1].state == state
        then Ok(p.(sequence := before[n - 1 := before[n - 1].(value := SumTimeouts(before[n - 1].value, timeout))]))
        else Ok(p.(sequence := before + [KeyEvent(TIMEOUT, state, timeout)]))
    }

    function AddNot(k: Key): Parser {
      var p := Flush(isInput || IsVirtualKey(k));
      var q := p.(pressed := WithoutKeys(p.pressed, [k]));
      var r := if k in p.pressed && isInput then q.Add(k, UpAsync, 0) else q;
      var n := |r.sequence|;
      if isInput && n > 0 && r.sequence[n - 1].key == k && r.sequence[n - 1].state == UpAsync
      then r.(sequence := r.sequence[n - 1 := r.sequence[n - 1].(state := Up)])
      else if isInput && ((RFindKey(r.sequence, k) >= 0 && r.sequence[RFindKey(r.sequence, k)].state != Up)
                          || inModified > 0)
      then r.Add(k, Up, 0)
      else r.Add(k, Not, 0)
    }

    function OpenGroup(): Parser {
      this.(pressedBefore := pressedBefore + [|pressed|]).Flush(false)
      .(inModified := inModified + 1, hasModifier := true)
    }

    function CloseGroup(): Parser
      requires inModified > 0 && pressedBefore != []
    {
      var n := |pressedBefore| - 1;
      var p := Flush(true).ReleaseTo(pressedBefore[n])
               .(pressedBefore := pressedBefore[..n], inModified := inModified - 1);
      if isInput then p.(sequence := p.sequence + SyncEvents(p.sequence, |p.sequence|)) else p
    }

    function CloseTogetherGroup(): Parser {
      this.(inTogether := false, sequence := sequence + (if isInput then Events(buffer, DownAsync) else []))
    }

    function Next(token: Token): Result<Parser> {
      match token
      case NotKey(key) =>
        if inTogether then Err(Unexpected) else Ok(AddNot(key))
      case NotTimeout(value) =>
        if inTogether then Err(TimeoutInGroup) else AddTimeout(value, true)
      case Timeout(value) =>
        if inTogether then Err(TimeoutInGroup) else AddTimeout(value, false)
      case KeyName(key) =>
        var p := if inTogether then this else Flush(true);
        Ok(p.(buffer := p.buffer + [key]))
      case OpenTogether =>
        if inTogether then Err(Unexpected) else Ok(Flush(true).(inTogether := true))
      case CloseTogether =>
        if !inTogether then Err(Unexpected)
        else Ok(CloseTogetherGroup())
      case OpenModified =>
        if inTogether || buffer == [] then Err(Unexpected)
        else Ok(OpenGroup())
      case CloseModified =>
        if inModified == 0 || pressedBefore == [] then Err(Unexpected)
        else Ok(CloseGroup())
      case Command(action) =>
        if isInput || inTogether || inModified > 0 then Err(Unexpected)
        else Ok(Flush(true).Add(action, Down, 0))
      case OnRelease =>
        if isInput || outputOnRelease || inTogether || inModified > 0 then Err(Unexpected)
        else Ok(Flush(true).Add(NONE, OutputOnRelease, 0).(outputOnRelease := true))
      case NoMightMatchMark =>
        if !isInput || outputOnRelease || sequence != [] || buffer != [] || inTogether then Err(Unexpected)
        else Ok(Add(NONE, NoMightMatch, 0).(isNoMightMatch := true))
      case Comment => Ok(this)
      case Invalid => Err(InvalidKey)
    }

    /** What happens after the last token. */
    function Finish(): Result<KeySequence> {
      if inTogether || inModified > 0 then Err(GroupNotClosed)
      else
        var p := if isInput then this else ReleaseTo(0);
        var trimmed :=
          if isInput then (if isNoMightMatch then WithoutFinal(p.sequence, UpAsync) else p.sequence)
          else if !hasModifier && AllPressedAtOnce(p.sequence) then WithoutFinal(p.sequence, Up)
          else p.sequence;
        var n := |trimmed|;
        var converted :=
          if isInput && n > 0 && trimmed[n - 1].state == Not && trimmed[n - 1].key != TIMEOUT
          then trimmed[n - 1 := trimmed[n - 1].(state := Up)] else trimmed;
        if isInput && !HasUpOrDown(converted) then Err(NoKeyEvent)
        else if isNoMightMatch && HasVirtualKey(converted) then Err(VirtualKeyWithNoMightMatch)
        else if !HasKey(converted, CONTEXT_ACTIVE) then Ok(converted)
        else if !isInput || n != 2 then Err(ContextActiveMisused)
        else Ok(converted[..1])
    }
  }

  function Start(isInput: bool): Parser {
    Parser(isInput, false, false, false, 0, false, [], [], [], [])
  }

  /** The state after all tokens. */
  function ParseTokens(p: Parser, tokens: seq<Token>): Result<Parser>
    decreases |tokens|
  {
    if tokens == [] || tokens[0].Comment? then Ok(p.Flush(true))
    else
      match p.Next(tokens[0])
      case Err(error) => Err(error)
      case Ok(next) => ParseTokens(next, tokens[1..])
  }

  function Compile(tokens: seq<Token>, isInput: bool): Result<KeySequence> {
    match ParseTokens(Start(isInput), tokens)
    case Err(error) => Err(error)
    case Ok(p) => p.Finish()
  }

  lemma {:induction false} RemoveOneByOne(keys: seq<Key>, removed: seq<Key>, k: Key)
    ensures WithoutKeys(keys, removed + [k]) == WithoutKeys(WithoutKeys(keys, removed), [k])
  {
    if keys != [] {
      RemoveOneByOne(keys[1..], removed, k);
    }
  }

  lemma {:induction false} RemoveNothing(keys: seq<Key>)
    ensures WithoutKeys(keys, []) == keys
  {
    if keys != [] {
      RemoveNothing(keys[1..]);
    }
  }

  lemma FlushNothing(p: Parser)
    requires p.buffer == []
    ensures p.Flush(true) == p
  {
    assert p.sequence + [] + [] == p.sequence;
    if !p.isInput {
      RemoveNothing(p.pressed);
    }
  }

  /** The compiler object. The flags which are locals of the source's `parse`
      are fields here, so that the body of its loop can be a method. */
  class ParseKeySequence {
    var isInput: bool
    var isNoMightMatch: bool
    var outputOnRelease: bool
    var inTogether: bool
    var inModified: nat
    var hasModifier: bool
    var pressed: seq<Key>
    var pressedBefore: seq<nat>
    var buffer: seq<Key>
    var sequence: KeySequence

    constructor ()
      ensures Now() == Start(false)
    {
      isInput, isNoMightMatch, outputOnRelease, inTogether, inModified, hasModifier := false, false, false, false, 0, false;
      pressed, pressedBefore, buffer, sequence := [], [], [], [];
    }

    ghost function Now(): Parser
      reads this
    {
      Parser(isInput, isNoMightMatch, outputOnRelease, inTogether, inModified, hasModifier,
             pressed, pressedBefore, buffer, sequence)
    }

    method AddEvents(keys: seq<Key>, state: KeyState)
      modifies `sequence
      ensures sequence == old(sequence) + Events(keys, state)
    {
      var i := 0;
      while i < |keys|
        invariant i <= |keys|
        invariant sequence == old(sequence) + Events(keys, state)[..i]
      {
        sequence := sequence + [KeyEvent(keys[i], state, 0)];
        i := i + 1;
      }
    }

    method RemoveFromPressedKeys(keys: seq<Key>)
      modifies `pressed
      ensures pressed == WithoutKeys(old(pressed), keys)
    {
      RemoveNothing(pressed);
      var i := 0;
      while i < |keys|
        invariant i <= |keys|
        invariant pressed == WithoutKeys(old(pressed), keys[..i])
      {
        assert keys[..i] + [keys[i]] == keys[..i + 1];
        RemoveOneByOne(old(pressed), keys[..i], keys[i]);
        pressed := WithoutKeys(pressed, [keys[i]]);
        i := i + 1;
      }
      assert keys[..i] == keys;
    }

    method FlushKeyBuffer(upImmediately: bool)
      modifies `pressed, `buffer, `sequence
      ensures Now() == old(Now()).Flush(upImmediately)
    {
      hide Events;
      AddEvents(buffer, Down);
      if upImmediately {
        AddEvents(buffer, if isInput then UpAsync else Up);
        if !isInput {
          RemoveFromPressedKeys(buffer);
        }
      } else {
        assert sequence + [] == sequence;
        pressed := pressed + buffer;
      }
      buffer := [];
    }

    method ReleasePressedKeys(keep: nat)
      modifies `pressed, `sequence
      ensures Now() == old(Now()).ReleaseTo(keep)
    {
      if |pressed| <= keep {
        return;
      }
      hide ReleaseEvents;
      ghost var kept, rest := pressed[..keep], pressed[keep..];
      ghost var all := sequence + ReleaseEvents(rest, isInput);
      assert pressed == kept + rest;
      while |pressed| > keep
        invariant pressed == kept + rest
        invariant sequence + ReleaseEvents(rest, isInput) == all
        decreases |rest|
      {
        LastOf(kept, rest);
        rest := rest[..|rest| - 1];
        AddRelease(pressed[|pressed| - 1], rest, all);
        pressed := pressed[..|pressed| - 1];
      }
      AllReleased(kept, rest, sequence);
    }

    static lemma LastOf(kept: seq<Key>, rest: seq<Key>)
      requires rest != []
      ensures var all, n := kept + rest, |rest| - 1;
        && rest == rest[..n] + [all[|all| - 1]]
        && all[..|all| - 1] == kept + rest[..n]
    {
    }

    static lemma AllReleased(kept: seq<Key>, rest: seq<Key>, sequence: KeySequence)
      requires rest == []
      ensures kept + rest == kept
      ensures forall isInput :: sequence + ReleaseEvents(rest, isInput) == sequence
    {
    }

    method AddRelease(key: Key, ghost rest: seq<Key>, ghost all: KeySequence)
      requires sequence + ReleaseEvents(rest + [key], isInput) == all
      modifies `sequence
      ensures sequence + ReleaseEvents(rest, isInput) == all
    {
      assert (rest + [key])[..|rest|] == rest;
      ghost var tail := ReleaseEvents(rest, isInput);
      ghost var was := sequence;
      if !isInput && IsVirtualKey(key) {
        sequence := sequence + [KeyEvent(key, Up, 0)] + [KeyEvent(key, Not, 0)];
      } else {
        sequence := sequence + [KeyEvent(key, if isInput then UpAsync else Up, 0)];
        assert [KeyEvent(key, Async(isInput), 0)] + [] + tail == [KeyEvent(key, Async(isInput), 0)] + tail;
      }
    }

    method EndTogetherGroup()
      modifies `inTogether, `sequence
      ensures Now() == old(Now()).CloseTogetherGroup()
    {
      if isInput {
        AddEvents(buffer, DownAsync);
      } else {
        assert sequence + [] == sequence;
      }
      inTogether := false;
    }

    method BeginModifiedGroup()
      modifies this
      ensures Now() == old(Now()).OpenGroup()
    {
      hide Events;
      pressedBefore := pressedBefore + [|pressed|];
      FlushKeyBuffer(false);
      inModified := inModified + 1;
      hasModifier := true;
    }

    method EndModifiedGroup()
      requires inModified > 0 && pressedBefore != []
      modifies this
      ensures Now() == old(Now()).CloseGroup()
    {
      hide Events, ReleaseEvents, SyncEvents, WithoutKeys;
      FlushKeyBuffer(true);
      ReleasePressedKeys(pressedBefore[|pressedBefore| - 1]);
      pressedBefore := pressedBefore[..|pressedBefore| - 1];
      inModified := inModified - 1;
      if isInput {
        SyncAfterNotTimeout();
      }
    }

    method SyncAfterNotTimeout()
      modifies `sequence
      ensures sequence == old(sequence) + SyncEvents(old(sequence), |old(sequence)|)
    {
      var last := |sequence|;
      var i := last;
      while i > 0
        invariant 0 <= i <= last && sequence == old(sequence)
        invariant SyncEvents(sequence, last) == SyncEvents(sequence, i)
      {
        var event := sequence[i - 1];
        if event.key == TIMEOUT && IsNotTimeoutState(event.state) {
          var j := i;
          ghost var ups := Events(KeysOf(old(sequence)[i..]), Up);
          while j < last
            invariant i <= j <= last && sequence == old(sequence) + ups[..j - i]
          {
            sequence := sequence + [Release(sequence[j].key)];
            j := j + 1;
          }
          return;
        } else if event.state != UpAsync {
          return;
        }
        i := i - 1;
      }
    }

    method RemoveAllFromEnd(state: KeyState)
      modifies `sequence
      ensures sequence == WithoutFinal(old(sequence), state)
    {
      while sequence != [] && sequence[|sequence| - 1].state == state
        invariant WithoutFinal(sequence, state) == WithoutFinal(old(sequence), state)
      {
        sequence := sequence[..|sequence| - 1];
      }
    }

    method AddTimeoutEvent(timeout: Value, isNot: bool) returns (r: Result<()>)
      modifies `pressed, `buffer, `sequence
      ensures match old(Now()).AddTimeout(timeout, isNot)
        case Ok(next) => r.Ok? && Now() == next
        case Err(error) => r == Err(error)
    {
      FlushKeyBuffer(true);
      if isInput && sequence == [] {
        return Err(StartsWithTimeout);
      }
      if !isInput && isNot {
        return Err(NotTimeoutInOutput);
      }
      var last := |sequence| - 1;
      if isInput && sequence[last].state == Not {
        sequence := sequence[last := sequence[last].(state := Up)];
      }
      var cancelOnUp := inModified > 0;
      var state :=
        if !isInput then Down
        else if isNot then (if cancelOnUp then NotTimeoutCancelOnUpDown else Not)
        else if cancelOnUp then Up else Down;
      if sequence != [] && sequence[last].key == TIMEOUT && sequence[last].state == state {
        sequence := sequence[last := sequence[last].(value := SumTimeouts(sequence[last].value, timeout))];
      } else {
        sequence := sequence + [KeyEvent(TIMEOUT, state, timeout)];
      }
      r := Ok(());
    }

    method AddNotKey(key: Key)
      modifies `pressed, `buffer, `sequence
      ensures Now() == old(Now()).AddNot(key)
    {
      hide Parser.Flush;
      FlushKeyBuffer(isInput || IsVirtualKey(key));
      var removed := key in pressed;
      pressed := WithoutKeys(pressed, [key]);
      if removed && isInput {
        sequence := sequence + [KeyEvent(key, UpAsync, 0)];
      }
      var last := |sequence| - 1;
      var it := RFindKey(sequence, key);
      if isInput && last >= 0 && sequence[last].key == key && sequence[last].state == UpAsync {
        sequence := sequence[last := sequence[last].(state := Up)];
      } else if isInput && ((it >= 0 && sequence[it].state != Up) || inModified > 0) {
        sequence := sequence + [KeyEvent(key, Up, 0)];
      } else {
        sequence := sequence + [KeyEvent(key, Not, 0)];
      }
    }

    /** The body of the loop over the expression. */
    method ParseToken(token: Token) returns (r: Result<()>)
      modifies this
      ensures match old(Now()).Next(token)
        case Ok(next) => r.Ok? && Now() == next
        case Err(error) => r == Err(error)
    {
      hide Parser.Flush, Parser.AddNot, Parser.AddTimeout, Parser.OpenGroup, Parser.CloseGroup, Parser.CloseTogetherGroup;
      r := Ok(());
      match token
      case NotKey(key) =>
        if inTogether {
          return Err(Unexpected);
        }
        AddNotKey(key);
      case NotTimeout(value) =>
        if inTogether {
          return Err(TimeoutInGroup);
        }
        r := AddTimeoutEvent(value, true);
      case Timeout(value) =>
        if inTogether {
          return Err(TimeoutInGroup);
        }
        r := AddTimeoutEvent(value, false);
      case KeyName(key) =>
        if !inTogether {
          FlushKeyBuffer(true);
        }
        buffer := buffer + [key];
      case OpenTogether =>
        if inTogether {
          return Err(Unexpected);
        }
        FlushKeyBuffer(true);
        inTogether := true;
      case CloseTogether =>
        if !inTogether {
          return Err(Unexpected);
        }
        EndTogetherGroup();
      case OpenModified =>
        if inTogether || buffer == [] {
          return Err(Unexpected);
        }
        BeginModifiedGroup();
      case CloseModified =>
        if inModified == 0 || pressedBefore == [] {
          return Err(Unexpected);
        }
        EndModifiedGroup();
      case Command(action) =>
        if isInput || inTogether || inModified > 0 {
          return Err(Unexpected);
        }
        FlushKeyBuffer(true);
        sequence := sequence + [Press(action)];
      case OnRelease =>
        if isInput || outputOnRelease || inTogether || inModified > 0 {
          return Err(Unexpected);
        }
        FlushKeyBuffer(true);
        sequence := sequence + [KeyEvent(NONE, OutputOnRelease, 0)];
        outputOnRelease := true;
      case NoMightMatchMark =>
        if !isInput || outputOnRelease || sequence != [] || buffer != [] || inTogether {
          return Err(Unexpected);
        }
        sequence := sequence + [KeyEvent(NONE, NoMightMatch, 0)];
        isNoMightMatch := true;
      case Comment =>
      case Invalid => r := Err(InvalidKey);
    }

    /** What happens after the last token. */
    method FinishSequence() returns (r: Result<KeySequence>)
      modifies `pressed, `sequence
      ensures r == old(Now()).Finish()
    {
      if inTogether || inModified > 0 {
        return Err(GroupNotClosed);
      }
      if isInput {
        if isNoMightMatch {
          RemoveAllFromEnd(UpAsync);
        }
      } else {
        ReleasePressedKeys(0);
        if !hasModifier && AllPressedAtOnce(sequence) {
          RemoveAllFromEnd(Up);
        }
      }
      var last := |sequence| - 1;
      if isInput && last >= 0 && sequence[last].state == Not && sequence[last].key != TIMEOUT {
        sequence := sequence[last := sequence[last].(state := Up)];
      }
      if isInput && !HasUpOrDown(sequence) {
        return Err(NoKeyEvent);
      }
      if isNoMightMatch && HasVirtualKey(sequence) {
        return Err(VirtualKeyWithNoMightMatch);
      }
      if HasKey(sequence, CONTEXT_ACTIVE) {
        if !isInput || |sequence| != 2 {
          return Err(ContextActiveMisused);
        }
        sequence := sequence[..1];
      }
      r := Ok(sequence);
    }

    method Parse(tokens: seq<Token>, isInput: bool) returns (r: Result<KeySequence>)
      modifies this
      ensures r == Compile(tokens, isInput)
    {
      this.isInput := isInput;
      isNoMightMatch, outputOnRelease, inTogether, inModified, hasModifier := false, false, false, 0, false;
      pressed, pressedBefore, buffer, sequence := [], [], [], [];
      var i := 0;
      assert tokens[0..] == tokens;
      while i < |tokens| && !tokens[i].Comment?
        invariant i <= |tokens|
        invariant ParseTokens(Now(), tokens[i..]) == ParseTokens(Start(isInput), tokens)
      {
        var parsed := ParseToken(tokens[i]);
        if parsed.Err? {
          return Err(parsed.error);
        }
        assert tokens[i..][1..] == tokens[i + 1..];
        i := i + 1;
      }
      FlushKeyBuffer(true);
      r := FinishSequence();
    }
  }
}
