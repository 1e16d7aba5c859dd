/** The one kind of input that is accepted although it demands no key: `?` with
    ContextActive, whose event is taken out again. `src/config/ParseKeySequence.cpp`:
    `check_ContextActive_usage`. */
module BareMark {
  import opened Keys
  import opened Compiler
  import B = OutputBalance

  const MARK := KeyEvent(NONE, NoMightMatch, 0)

  /** The tokens in front of a comment, without braces and without parentheses
      that enclose nothing else; `open` when a parenthesis was just opened. */
  function Essence(tokens: seq<Token>, open: bool): seq<Token>
    decreases |tokens|
  {
    if tokens == [] || tokens[0].Comment? then (if open then [OpenTogether] else [])
    else if tokens[0].OpenModified? || tokens[0].CloseModified? then Essence(tokens[1..], open)
    else if tokens[0].OpenTogether? then
      (if open then [OpenTogether] + Essence(tokens[1..], true) else Essence(tokens[1..], true))
    else if tokens[0].CloseTogether? && open then Essence(tokens[1..], false)
    else if open then [OpenTogether, tokens[0]] + Essence(tokens[1..], false)
    else [tokens[0]] + Essence(tokens[1..], false)
  }

  predicate IsBareMark(input: KeySequence) { |input| == 1 && input[0].state == NoMightMatch }

  // ---------------------------------------------------------------------------
  // What the parser took in only grows

  /** Events other than the releases which end a key. */
  function Solid(s: KeySequence): nat {
    if s == [] then 0 else Solid(s[..|s| - 1]) + (if s[|s| - 1].state == UpAsync then 0 else 1)
  }

  lemma {:induction false} SolidSplit(a: KeySequence, b: KeySequence)
    ensures Solid(a + b) == Solid(a) + Solid(b)
    decreases |b|
  {
    if b == [] {
      assert a + b == a;
    } else {
      assert (a + b)[..|a + b| - 1] == a + b[..|b| - 1];
      SolidSplit(a, b[..|b| - 1]);
    }
  }

  lemma {:induction false} SolidEvents(keys: seq<Key>, state: KeyState)
    ensures Solid(Events(keys, state)) == if state == UpAsync then 0 else |keys|
    decreases |keys|
  {
    if keys != [] {
      var n := |keys| - 1;
      assert Events(keys, state)[..n] == Events(keys[..n], state);
      SolidEvents(keys[..n], state);
    }
  }

  lemma SolidUpdate(s: KeySequence, event: KeyEvent)
    requires s != [] && event.state != UpAsync
    ensures Solid(s[|s| - 1 := event]) == Solid(s) + (if s[|s| - 1].state == UpAsync then 1 else 0)
  {
    assert s[|s| - 1 := event][..|s| - 1] == s[..|s| - 1];
  }

  /** The weight of what was read: keys in parentheses count twice, as they are
      pressed in any order and in order. */
  function Weight(p: Parser): nat {
    Solid(p.sequence) + |p.buffer| + (if p.inTogether && p.inModified == 0 then |p.buffer| else 0)
  }

  function Trace(p: Parser): seq<Key> { KeysOf(p.sequence) + p.buffer }

  predicate FirstKept(s: KeySequence, t: KeySequence) {
    s != [] ==> t != [] && t[0].key == s[0].key && (t[0].state == NoMightMatch <==> s[0].state == NoMightMatch)
  }

  /** A mark comes only first, and has no key. */
  predicate MarkIsFirst(p: Parser, q: Parser) {
    p.sequence == [] && q.sequence != [] && q.sequence[0].state == NoMightMatch ==>
      p.buffer == [] && q.sequence[0].key == NONE
  }

  predicate Grows(p: Parser, q: Parser) {
    Weight(p) <= Weight(q) && Trace(p) <= Trace(q) && FirstKept(p.sequence, q.sequence) && MarkIsFirst(p, q)
  }

  lemma GrowsOn(p: Parser, q: Parser, r: Parser)
    requires Grows(p, q) && Grows(q, r)
    requires p.buffer != [] ==> q.sequence != [] || q.buffer != []
    ensures Grows(p, r)
  {
  }

  /** Events are appended, and the buffer stays or is emptied into them. */
  lemma GrowsByAppending(p: Parser, q: Parser, more: KeySequence)
    requires q.sequence == p.sequence + more && (p.sequence == [] && more != [] ==> more[0].state != NoMightMatch)
    requires q.buffer == [] && p.buffer <= KeysOf(more) && Solid(more) >= |p.buffer|
    requires p.buffer == [] || !p.inTogether || p.inModified > 0
    ensures Grows(p, q)
  {
    SolidSplit(p.sequence, more);
    assert KeysOf(q.sequence) == KeysOf(p.sequence) + KeysOf(more);
    assert Trace(q) == KeysOf(q.sequence);
  }

  lemma FlushGrows(p: Parser, up: bool)
    requires p.isInput && (!p.inTogether || p.inModified > 0)
    ensures Grows(p, p.Flush(up)) && p.Flush(up).buffer == [] && p.Flush(up).isInput
    ensures p.buffer != [] ==> p.Flush(up).sequence != []
    ensures p.Flush(up).inTogether == p.inTogether && p.Flush(up).inModified == p.inModified
  {
    hide Solid;
    var downs, ups := Events(p.buffer, Down), if up then Events(p.buffer, UpAsync) else [];
    Associative(p.sequence, downs, ups);
    SolidSplit(downs, ups);
    SolidEvents(p.buffer, Down);
    assert KeysOf(downs + ups)[..|p.buffer|] == p.buffer;
    GrowsByAppending(p, p.Flush(up), downs + ups);
  }

  /** One more event, which is not the release that ends a key. */
  lemma GrowsByOne(p: Parser, q: Parser, event: KeyEvent)
    requires q.sequence == p.sequence + [event] && p.buffer == [] == q.buffer
    requires event.state != UpAsync && event.state != NoMightMatch
    ensures Grows(p, q) && Weight(p) < Weight(q)
  {
    OneSolid(event);
    SolidSplit(p.sequence, [event]);
    assert KeysOf(q.sequence) == KeysOf(p.sequence) + [event.key];
  }

  /** The last event changes its state or value. */
  lemma GrowsByUpdate(p: Parser, q: Parser, event: KeyEvent)
    requires p.sequence != [] && q.sequence == p.sequence[|p.sequence| - 1 := event] && p.buffer == [] == q.buffer
    requires event.key == p.sequence[|p.sequence| - 1].key && event.state != UpAsync
    requires event.state != NoMightMatch && p.sequence[|p.sequence| - 1].state != NoMightMatch
    ensures Grows(p, q)
    ensures p.sequence[|p.sequence| - 1].state == UpAsync ==> Weight(p) < Weight(q)
  {
    SolidUpdate(p.sequence, event);
    assert KeysOf(q.sequence) == KeysOf(p.sequence);
  }

  lemma NotGrows(p: Parser, k: Key)
    requires p.isInput && !p.inTogether
    ensures Grows(p, p.AddNot(k)) && p.AddNot(k).isInput && Weight(p) < Weight(p.AddNot(k))
  {
    hide Parser.Flush, Weight, Trace, FirstKept, MarkIsFirst;
    FlushGrows(p, true);
    AddedNotGrows(p, k);
    hide Parser.AddNot;
    GrowsOn(p, p.Flush(true), p.AddNot(k));
    HeavierOn(p, p.Flush(true), p.AddNot(k));
  }

  lemma HeavierOn(p: Parser, q: Parser, r: Parser)
    requires Grows(p, q) && Weight(q) < Weight(r)
    ensures Weight(p) < Weight(r)
  {
  }

  lemma AddedNotGrows(p: Parser, k: Key)
    requires p.isInput && p.Flush(true).isInput && p.Flush(true).buffer == []
    ensures Grows(p.Flush(true), p.AddNot(k)) && p.AddNot(k).isInput && Weight(p.Flush(true)) < Weight(p.AddNot(k))
  {
    hide Parser.Flush, RFindKey, WithoutKeys, Weight, Grows;
    var f, q := p.Flush(true), p.AddNot(k);
    var n := |f.sequence|;
    if k in f.pressed {
      assert q.sequence == f.sequence + [Release(k)];
      GrowsByOne(f, q, Release(k));
    } else if n > 0 && f.sequence[n - 1].key == k && f.sequence[n - 1].state == UpAsync {
      GrowsByUpdate(f, q, f.sequence[n - 1].(state := Up));
    } else {
      assert q.sequence == f.sequence + [q.sequence[n]];
      GrowsByOne(f, q, q.sequence[n]);
    }
  }

  lemma TimeoutGrows(p: Parser, value: Value, isNot: bool)
    requires p.isInput && !p.inTogether && p.AddTimeout(value, isNot).Ok?
    ensures Grows(p, p.AddTimeout(value, isNot).value) && p.AddTimeout(value, isNot).value.isInput
    ensures p.Flush(true).sequence != []
    ensures p.Flush(true).sequence[|p.Flush(true).sequence| - 1].key != TIMEOUT ==>
      Weight(p) < Weight(p.AddTimeout(value, isNot).value)
  {
    hide Parser.Flush, Weight, Trace, FirstKept, MarkIsFirst;
    var f, q := p.Flush(true), p.AddTimeout(value, isNot).value;
    FlushGrows(p, true);
    var n := |f.sequence|;
    var last := f.sequence[n - 1];
    var g := f.(sequence := f.sequence[n - 1 := if last.state == Not then last.(state := Up) else last]);
    if last.state == Not {
      GrowsByUpdate(f, g, last.(state := Up));
    } else {
      assert g == f;
    }
    if |q.sequence| == n {
      GrowsByUpdate(g, q, q.sequence[n - 1]);
    } else {
      assert q.sequence == g.sequence + [q.sequence[n]];
      GrowsByOne(g, q, q.sequence[n]);
    }
    hide Parser.AddTimeout;
    GrowsOn(f, g, q);
    GrowsOn(p, f, q);
    if last.key != TIMEOUT {
      HeavierOn(f, g, q);
      HeavierOn(p, f, q);
    }
  }

  lemma OneSolid(event: KeyEvent)
    ensures Solid([event]) == if event.state == UpAsync then 0 else 1
  {
    assert [event][..0] == [];
  }

  lemma {:induction false} ReleasesOnly(keys: seq<Key>)
    ensures forall i :: 0 <= i < |ReleaseEvents(keys, true)| ==> ReleaseEvents(keys, true)[i].state == UpAsync
    decreases |keys|
  {
    if keys != [] {
      ReleasesOnly(keys[..|keys| - 1]);
    }
  }

  lemma {:induction false} SyncsOnly(s: KeySequence, i: nat)
    requires i <= |s|
    ensures forall j :: 0 <= j < |SyncEvents(s, i)| ==> SyncEvents(s, i)[j].state == Up
  {
    if i > 0 {
      SyncsOnly(s, i - 1);
    }
  }

  lemma CloseGrows(p: Parser)
    requires p.isInput && p.inModified > 0 && p.pressedBefore != []
    ensures Grows(p, p.CloseGroup()) && p.CloseGroup().isInput
  {
    hide Parser.Flush, ReleaseEvents, SyncEvents, Solid;
    var keep := p.pressedBefore[|p.pressedBefore| - 1];
    var f := p.Flush(true);
    var r := f.ReleaseTo(keep);
    var released := if |f.pressed| <= keep then [] else ReleaseEvents(f.pressed[keep..], true);
    var synced := SyncEvents(r.sequence, |r.sequence|);
    FlushGrows(p, true);
    ReleasesOnly(if |f.pressed| <= keep then [] else f.pressed[keep..]);
    SyncsOnly(r.sequence, |r.sequence|);
    assert r.sequence == f.sequence + released;
    Associative(f.sequence, released, synced);
    GrowsByAppending(f, p.CloseGroup(), released + synced);
    GrowsOn(p, f, p.CloseGroup());
  }

  lemma CloseTogetherGrows(p: Parser)
    requires p.isInput && p.inTogether
    ensures Grows(p, p.CloseTogetherGroup()) && p.CloseTogetherGroup().isInput
  {
    hide Solid;
    var q := p.CloseTogetherGroup();
    SolidSplit(p.sequence, Events(p.buffer, DownAsync));
    SolidEvents(p.buffer, DownAsync);
    assert KeysOf(q.sequence) == KeysOf(p.sequence) + p.buffer;
    assert Trace(q) == Trace(p) + p.buffer;
  }

  /** Every token of an input grows what was read. */
  lemma NextGrows(p: Parser, token: Token)
    requires p.isInput && p.Next(token).Ok?
    ensures Grows(p, p.Next(token).value) && p.Next(token).value.isInput
  {
    hide Parser.Flush, Parser.AddNot, Parser.AddTimeout, Parser.CloseGroup, Parser.CloseTogetherGroup, Solid;
    var q := p.Next(token).value;
    match token
    case NotKey(key) => NotGrows(p, key);
    case NotTimeout(value) => TimeoutGrows(p, value, true);
    case Timeout(value) => TimeoutGrows(p, value, false);
    case KeyName(key) => KeyGrows(p, key);
    case OpenTogether =>
      FlushGrows(p, true);
    case CloseTogether => CloseTogetherGrows(p);
    case OpenModified =>
      FlushGrows(p.(pressedBefore := p.pressedBefore + [|p.pressed|]), false);
    case CloseModified => CloseGrows(p);
    case NoMightMatchMark =>
      assert KeysOf(q.sequence) == [NONE];
      SolidSplit(p.sequence, [MARK]);
    case Command(_) =>
    case OnRelease =>
    case Comment =>
    case Invalid =>
  }

  lemma KeyGrows(p: Parser, k: Key)
    requires p.isInput
    ensures Grows(p, p.Next(KeyName(k)).value) && p.Next(KeyName(k)).value.isInput
    ensures Weight(p) < Weight(p.Next(KeyName(k)).value)
  {
    hide Parser.Flush, Solid;
    var q := p.Next(KeyName(k)).value;
    if !p.inTogether {
      FlushGrows(p, true);
      var f := p.Flush(true);
      assert Trace(q) == Trace(f) + [k];
      GrowsOn(p, f, q);
    } else {
      assert Trace(q) == Trace(p) + [k];
    }
  }

  // ---------------------------------------------------------------------------
  // Inputs that cannot become the bare mark any more

  predicate Lost(p: Parser) {
    && p.isInput
    && (p.sequence != [] && p.sequence[0].state == NoMightMatch ==> p.sequence[0].key == NONE)
    && (|| Weight(p) > 2
        || (|Trace(p)| > 1 && Trace(p)[1] != CONTEXT_ACTIVE)
        || (Trace(p) != [] && !(p.sequence != [] && p.sequence[0].state == NoMightMatch)))
  }

  lemma GrowsKeepsLost(p: Parser, q: Parser)
    requires Lost(p) && Grows(p, q) && q.isInput
    ensures Lost(q)
  {
  }

  lemma {:induction false} TrimmedSolid(s: KeySequence)
    ensures Solid(WithoutFinal(s, UpAsync)) == Solid(s) <= |s|
    decreases |s|
  {
    if s != [] {
      TrimmedSolid(s[..|s| - 1]);
    }
  }

  /** The bare mark is what is left of the mark and an event of ContextActive. */
  lemma BareEnds(q: Parser)
    requires q.isInput && q.Finish().Ok? && IsBareMark(q.Finish().value)
    requires q.sequence != [] && q.sequence[0].state == NoMightMatch ==> q.sequence[0].key == NONE
    ensures Solid(q.sequence) <= 2 <= |q.sequence|
    ensures q.sequence[0].state == NoMightMatch && q.sequence[1].key == CONTEXT_ACTIVE
  {
    hide Solid, WithoutFinal, HasVirtualKey;
    TrimmedSolid(q.sequence);
    var left := if q.isNoMightMatch then WithoutFinal(q.sequence, UpAsync) else q.sequence;
    TrimmedSolid(left);
    assert |left| == 2 && left <= q.sequence && left[0].state == NoMightMatch;
    var converted := if left[1].state == Not && left[1].key != TIMEOUT then left[1 := left[1].(state := Up)] else left;
    assert HasKey(converted, CONTEXT_ACTIVE) && converted[0] == left[0] && converted[1].key == left[1].key;
    assert q.sequence[0] == left[0] && q.sequence[1] == left[1];
  }

  lemma LostIsNotBare(p: Parser)
    requires Lost(p) && p.Flush(true).Finish().Ok?
    ensures !IsBareMark(p.Flush(true).Finish().value)
  {
    hide Parser.Flush, Solid, IsBareMark;
    SameFlags(p);
    FinishedOutside(p.Flush(true));
    FlushGrows(p, true);
    GrowsKeepsLost(p, p.Flush(true));
    if IsBareMark(p.Flush(true).Finish().value) {
      BareEnds(p.Flush(true));
    }
  }

  lemma FinishedOutside(p: Parser)
    requires p.Finish().Ok?
    ensures !p.inTogether
  {
  }

  lemma SameFlags(p: Parser)
    ensures p.Flush(true).inTogether == p.inTogether && p.Flush(true).isInput == p.isInput
  {
  }

  /** The compiler accepts what follows. */
  predicate Accepts(p: Parser, tokens: seq<Token>) {
    ParseTokens(p, tokens).Ok? && ParseTokens(p, tokens).value.Finish().Ok?
  }

  function Accepted(p: Parser, tokens: seq<Token>): KeySequence
    requires Accepts(p, tokens)
  {
    ParseTokens(p, tokens).value.Finish().value
  }

  lemma {:induction false} LostForever(p: Parser, tokens: seq<Token>)
    requires Lost(p) && Accepts(p, tokens)
    ensures !IsBareMark(Accepted(p, tokens))
    decreases |tokens|
  {
    hide Lost, Parser.Next, Parser.Flush, Parser.Finish, IsBareMark;
    if tokens == [] || tokens[0].Comment? {
      LostIsNotBare(p);
    } else {
      LostIsInput(p);
      NextGrows(p, tokens[0]);
      GrowsKeepsLost(p, p.Next(tokens[0]).value);
      LostForever(p.Next(tokens[0]).value, tokens[1..]);
    }
  }

  lemma LostIsInput(p: Parser)
    requires Lost(p)
    ensures p.isInput
  {
  }

  // ---------------------------------------------------------------------------
  // The way to the bare mark

  const CA_DOWN := Press(CONTEXT_ACTIVE)
  const CA_RELEASED := KeyEvent(CONTEXT_ACTIVE, UpAsync, 0)
  const CA_NOT := KeyEvent(CONTEXT_ACTIVE, Not, 0)

  predicate Idle(p: Parser) {
    p.isInput && p.buffer == [] && p.pressed == [] && p.inModified == 0 && p.pressedBefore == []
  }

  predicate NothingRead(p: Parser) { Idle(p) && p.sequence == [] && !p.isNoMightMatch && !p.outputOnRelease }

  predicate MarkRead(p: Parser) { Idle(p) && p.sequence == [MARK] && p.isNoMightMatch }

  predicate KeyBuffered(p: Parser) {
    MarkRead(p.(buffer := [])) && p.buffer == [CONTEXT_ACTIVE] && !p.inTogether
  }

  predicate KeyRead(p: Parser) {
    Idle(p) && p.isNoMightMatch && p.sequence in {[MARK, CA_DOWN, CA_RELEASED], [MARK, CA_NOT]}
  }

  predicate KeyHeld(p: Parser) {
    && p.isInput && p.isNoMightMatch && p.sequence == [MARK, CA_DOWN] && p.buffer == [] && p.pressed == [CONTEXT_ACTIVE]
    && p.inModified == 1 && p.pressedBefore == [0]
  }

  /** Besides the mark and one event nothing more may come. */
  lemma HeavyIsLost(p: Parser, token: Token)
    requires p.isInput && Weight(p) == 2 && p.sequence != [] && p.sequence[0] == MARK && p.Next(token).Ok?
    requires token.KeyName? || token.NotKey? || token.Timeout? || token.NotTimeout?
    requires var s := p.Flush(true).sequence; s[|s| - 1].key != TIMEOUT
    ensures Lost(p.Next(token).value)
  {
    hide Parser.Flush, Parser.AddNot, Parser.AddTimeout, Solid;
    NextGrows(p, token);
    match token
    case KeyName(k) => KeyGrows(p, k);
    case NotKey(k) => NotGrows(p, k);
    case Timeout(value) => TimeoutGrows(p, value, false);
    case NotTimeout(value) => TimeoutGrows(p, value, true);
    case _ =>
  }

  lemma NothingNext(p: Parser, token: Token)
    requires NothingRead(p) && !token.Comment? && p.Next(token).Ok?
    ensures var q := p.Next(token).value;
      match token
      case OpenTogether => NothingRead(q) && q.inTogether && !p.inTogether
      case CloseTogether => NothingRead(q) && !q.inTogether && p.inTogether
      case NoMightMatchMark => MarkRead(q) && !q.inTogether && !p.inTogether
      case KeyName(_) => Lost(q)
      case NotKey(_) => Lost(q)
      case _ => false
  {
    hide Parser.Flush;
    FlushNothing(p);
    if token.KeyName? || token.NotKey? {
      FirstIsLost(p, token);
    }
  }

  lemma FirstIsLost(p: Parser, token: Token)
    requires NothingRead(p) && (token.KeyName? || token.NotKey?) && p.Next(token).Ok?
    ensures Lost(p.Next(token).value)
  {
    hide Parser.Flush;
    FlushNothing(p);
    NextGrows(p, token);
  }

  lemma MarkNext(p: Parser, token: Token)
    requires MarkRead(p) && !token.Comment? && p.Next(token).Ok?
    ensures var q := p.Next(token).value;
      match token
      case OpenTogether => MarkRead(q) && q.inTogether && !p.inTogether
      case CloseTogether => MarkRead(q) && !q.inTogether && p.inTogether
      case KeyName(k) => if k == CONTEXT_ACTIVE && !p.inTogether then KeyBuffered(q) else Lost(q)
      case NotKey(k) => !p.inTogether && if k == CONTEXT_ACTIVE then KeyRead(q) && !q.inTogether else Lost(q)
      case Timeout(_) => Lost(q)
      case NotTimeout(_) => Lost(q)
      case _ => false
  {
    hide Parser.Flush, Solid;
    FlushNothing(p);
    OneSolid(MARK);
    var q := p.Next(token).value;
    match token
    case CloseTogether =>
      assert [MARK] + [] == [MARK];
    case NotKey(k) =>
      assert q.sequence[0] == MARK && q.sequence[1].key == k;
      assert k == CONTEXT_ACTIVE ==> q.sequence == [MARK, CA_NOT];
    case _ =>
  }

  lemma BufferedNext(p: Parser, token: Token)
    requires KeyBuffered(p) && !token.Comment? && p.Next(token).Ok?
    ensures var q := p.Next(token).value;
      match token
      case OpenTogether => KeyRead(q) && q.inTogether
      case OpenModified => KeyHeld(q) && !q.inTogether
      case KeyName(_) => Lost(q)
      case NotKey(_) => Lost(q)
      case Timeout(_) => Lost(q)
      case NotTimeout(_) => Lost(q)
      case _ => false
  {
    hide Parser.Flush, Solid;
    BufferFlushed(p);
    match token
    case KeyName(k) => HeavyIsLost(p, token);
    case NotKey(k) => HeavyIsLost(p, token);
    case Timeout(_) => HeavyIsLost(p, token);
    case NotTimeout(_) => HeavyIsLost(p, token);
    case _ =>
  }

  lemma BufferFlushed(p: Parser)
    requires KeyBuffered(p)
    ensures p.Flush(true) == p.(buffer := [], sequence := [MARK, CA_DOWN, CA_RELEASED])
    ensures p.OpenGroup()
      == p.(buffer := [], sequence := [MARK, CA_DOWN], pressed := [CONTEXT_ACTIVE], pressedBefore := [0], inModified := 1,
            hasModifier := true)
    ensures Weight(p) == 2
  {
    assert Events([CONTEXT_ACTIVE], Down) == [CA_DOWN] && Events([CONTEXT_ACTIVE], UpAsync) == [CA_RELEASED];
    assert [MARK] + [CA_DOWN] + [CA_RELEASED] == [MARK, CA_DOWN, CA_RELEASED];
    assert [MARK] + [CA_DOWN] + [] == [MARK, CA_DOWN];
    assert [] + [CONTEXT_ACTIVE] == [CONTEXT_ACTIVE];
    assert p.pressedBefore + [|p.pressed|] == [0];
    OneSolid(MARK);
  }

  lemma ReadWeighs(p: Parser)
    requires KeyRead(p) || KeyHeld(p)
    ensures Weight(p) == 2
  {
    assert [MARK, CA_DOWN, CA_RELEASED][..2] == [MARK, CA_DOWN] && [MARK, CA_DOWN][..1] == [MARK];
    assert [MARK, CA_NOT][..1] == [MARK];
    OneSolid(MARK);
    assert Solid([MARK, CA_DOWN]) == 2 && Solid([MARK, CA_NOT]) == 2;
  }

  lemma ReadNext(p: Parser, token: Token)
    requires KeyRead(p) && !token.Comment? && p.Next(token).Ok?
    ensures var q := p.Next(token).value;
      match token
      case OpenTogether => KeyRead(q) && q.inTogether && !p.inTogether
      case CloseTogether => KeyRead(q) && !q.inTogether && p.inTogether
      case KeyName(_) => Lost(q)
      case NotKey(_) => Lost(q)
      case Timeout(_) => Lost(q)
      case NotTimeout(_) => Lost(q)
      case _ => false
  {
    hide Parser.Flush, Parser.AddNot, Parser.AddTimeout, Solid;
    FlushNothing(p);
    ReadWeighs(p);
    match token
    case CloseTogether =>
      assert p.sequence + [] == p.sequence;
    case OpenTogether =>
    case _ => HeavyIsLost(p, token);
  }

  lemma HeldNext(p: Parser, token: Token)
    requires KeyHeld(p) && !token.Comment? && p.Next(token).Ok?
    ensures var q := p.Next(token).value;
      match token
      case OpenTogether => KeyHeld(q) && q.inTogether && !p.inTogether
      case CloseTogether => KeyHeld(q) && !q.inTogether && p.inTogether
      case CloseModified => KeyRead(q) && q.inTogether == p.inTogether
      case KeyName(_) => Lost(q)
      case NotKey(_) => Lost(q)
      case Timeout(_) => Lost(q)
      case NotTimeout(_) => Lost(q)
      case _ => false
  {
    hide Parser.Flush, Parser.AddNot, Parser.AddTimeout, Parser.CloseGroup, Solid;
    FlushNothing(p);
    ReadWeighs(p);
    match token
    case CloseTogether =>
      assert p.sequence + [] == p.sequence;
    case CloseModified => HeldCloses(p);
    case OpenTogether =>
    case _ => HeavyIsLost(p, token);
  }

  lemma HeldCloses(p: Parser)
    requires KeyHeld(p)
    ensures KeyRead(p.CloseGroup()) && p.CloseGroup().inTogether == p.inTogether
  {
    hide Parser.Flush;
    FlushNothing(p);
    assert p.pressed[0..] == [CONTEXT_ACTIVE] && p.pressed[..0] == [] && p.pressedBefore[..0] == [];
    assert ReleaseEvents([], true) == [];
    assert [CONTEXT_ACTIVE][..0] == [];
    assert ReleaseEvents([CONTEXT_ACTIVE], true) == [CA_RELEASED] + [] + [] == [CA_RELEASED];
    var s := [MARK, CA_DOWN, CA_RELEASED];
    assert [MARK, CA_DOWN] + [CA_RELEASED] == s;
    assert SyncEvents(s, 3) == SyncEvents(s, 2) == [];
    assert s + [] == s;
  }

  // ---------------------------------------------------------------------------
  // The end

  lemma EndsBare(p: Parser)
    requires (KeyBuffered(p) || KeyRead(p)) && !p.inTogether
    ensures p.Flush(true).Finish() == Ok([MARK]) && IsBareMark([MARK])
  {
    hide Parser.Flush;
    var q := p.Flush(true);
    if KeyBuffered(p) { BufferFlushed(p); } else { FlushNothing(p); }
    var s := q.sequence;
    var left := [MARK, CA_DOWN];
    if |s| == 3 {
      assert s[..2] == left;
      assert WithoutFinal(s, UpAsync) == WithoutFinal(left, UpAsync) == left;
      OneKey(left);
    } else {
      assert WithoutFinal(s, UpAsync) == s;
      OneKey(s[1 := s[1].(state := Up)]);
    }
  }

  lemma OneKey(s: KeySequence)
    requires |s| == 2 && s[0] == MARK && s[1].key == CONTEXT_ACTIVE && s[1].IsNonOptional()
    ensures HasKey(s, CONTEXT_ACTIVE) && HasUpOrDown(s) && !HasVirtualKey(s) && s[..1] == [MARK]
  {
    assert s[1].key == CONTEXT_ACTIVE;
  }

  /** Without a key the input is not accepted, neither with an open group. */
  lemma EndsRejected(p: Parser)
    requires NothingRead(p) || MarkRead(p) || KeyHeld(p) || (p.isInput && p.inTogether)
    ensures p.Flush(true).Finish().Err?
  {
    if NothingRead(p) || MarkRead(p) || KeyHeld(p) {
      FlushNothing(p);
    }
    hide Parser.Flush;
    SameFlags(p);
    if p.sequence == [MARK] {
      assert WithoutFinal([MARK], UpAsync) == [MARK];
    }
  }

  // ---------------------------------------------------------------------------
  // The whole way

  const BARE: set<seq<Token>> :=
    {[NoMightMatchMark, KeyName(CONTEXT_ACTIVE)], [NoMightMatchMark, NotKey(CONTEXT_ACTIVE)]}

  const BEHIND_MARK: set<seq<Token>> := {[KeyName(CONTEXT_ACTIVE)], [NotKey(CONTEXT_ACTIVE)]}

  lemma {:induction false} AfterKey(p: Parser, tokens: seq<Token>)
    requires (KeyBuffered(p) || KeyRead(p) || KeyHeld(p)) && Accepts(p, tokens)
    ensures IsBareMark(Accepted(p, tokens)) <==> Essence(tokens, p.inTogether) == []
    decreases |tokens|
  {
    hide KeyBuffered, KeyRead, KeyHeld, Lost, Parser.Next, Parser.Flush, Parser.Finish, IsBareMark;
    if tokens == [] || tokens[0].Comment? {
      if p.inTogether || KeyHeld(p) {
        BehindMarkIsInput(p);
        EndsRejected(p);
      } else {
        EndsBare(p);
      }
    } else {
      var token, rest := tokens[0], tokens[1..];
      if KeyBuffered(p) { BufferedIsOutside(p); BufferedNext(p, token); }
      else if KeyRead(p) { ReadNext(p, token); }
      else { HeldNext(p, token); }
      if token.OpenTogether? || token.CloseTogether? || token.OpenModified? || token.CloseModified? {
        AfterKey(p.Next(token).value, rest);
      } else {
        LostForever(p.Next(token).value, rest);
      }
    }
  }

  lemma BufferedIsOutside(p: Parser)
    requires KeyBuffered(p)
    ensures !p.inTogether
  {
  }

  lemma BehindMarkIsInput(p: Parser)
    requires KeyBuffered(p) || KeyRead(p) || KeyHeld(p)
    ensures p.isInput
  {
  }

  lemma OnlyKey(token: Token, later: seq<Token>)
    requires token in {KeyName(CONTEXT_ACTIVE), NotKey(CONTEXT_ACTIVE)}
    ensures [token] + later in BEHIND_MARK <==> later == []
  {
    assert later == [] ==> [token] + later == [token];
  }

  lemma EssenceStarts(tokens: seq<Token>, open: bool)
    requires tokens != [] && !(tokens[0].Comment? || tokens[0].OpenModified? || tokens[0].CloseModified?)
    requires !tokens[0].OpenTogether? && !tokens[0].CloseTogether?
    ensures Essence(tokens, open) != [] && Essence(tokens, open)[0] == if open then OpenTogether else tokens[0]
    ensures forall s :: s in BEHIND_MARK ==> s[0] in {KeyName(CONTEXT_ACTIVE), NotKey(CONTEXT_ACTIVE)}
    ensures forall s :: s in BARE ==> s[0] == NoMightMatchMark
  {
  }

  lemma {:induction false} AfterMark(p: Parser, tokens: seq<Token>)
    requires MarkRead(p) && Accepts(p, tokens)
    ensures IsBareMark(Accepted(p, tokens)) <==> Essence(tokens, p.inTogether) in BEHIND_MARK
    decreases |tokens|
  {
    hide KeyBuffered, KeyRead, KeyHeld, MarkRead, Lost, Parser.Next, Parser.Flush, Parser.Finish, IsBareMark;
    if tokens == [] || tokens[0].Comment? {
      EndsRejected(p);
    } else {
      var token, rest := tokens[0], tokens[1..];
      var q := p.Next(token).value;
      MarkNext(p, token);
      if token.OpenTogether? || token.CloseTogether? {
        AfterMark(q, rest);
      } else if token == NotKey(CONTEXT_ACTIVE) || (token == KeyName(CONTEXT_ACTIVE) && !p.inTogether) {
        if token.KeyName? { BufferedIsOutside(q); }
        AfterKey(q, rest);
        OnlyKey(token, Essence(rest, false));
      } else {
        LostForever(q, rest);
        EssenceStarts(tokens, p.inTogether);
      }
    }
  }

  lemma MarkBefore(later: seq<Token>)
    ensures [NoMightMatchMark] + later in BARE <==> later in BEHIND_MARK
  {
    assert ([NoMightMatchMark] + later)[1..] == later;
    assert forall t: Token :: [NoMightMatchMark] + [t] == [NoMightMatchMark, t];
  }

  lemma {:induction false} FromStart(p: Parser, tokens: seq<Token>)
    requires NothingRead(p) && Accepts(p, tokens)
    ensures IsBareMark(Accepted(p, tokens)) <==> Essence(tokens, p.inTogether) in BARE
    decreases |tokens|
  {
    hide MarkRead, NothingRead, Lost, Parser.Next, Parser.Flush, Parser.Finish, IsBareMark;
    if tokens == [] || tokens[0].Comment? {
      EndsRejected(p);
    } else {
      var token, rest := tokens[0], tokens[1..];
      var q := p.Next(token).value;
      NothingNext(p, token);
      if token.OpenTogether? || token.CloseTogether? {
        FromStart(q, rest);
      } else if token.NoMightMatchMark? {
        AfterMark(q, rest);
        MarkBefore(Essence(rest, false));
      } else {
        LostForever(q, rest);
        EssenceStarts(tokens, p.inTogether);
      }
    }
  }

  /** An accepted input is the mark `?` alone, without any event behind it, if and
      only if it was `? ContextActive` or `? !ContextActive`, apart from braces,
      parentheses that enclose nothing, and a comment. */
  lemma BareMarkIffContextActive(tokens: seq<Token>)
    requires Compile(tokens, true).Ok?
    ensures IsBareMark(Compile(tokens, true).value) <==> Essence(tokens, false) in BARE
  {
    hide Parser.Next, Parser.Flush, Parser.Finish;
    FromStart(Start(true), tokens);
  }

  /** Both are accepted. */
  lemma BareMarkIsAccepted(tokens: seq<Token>)
    requires tokens in BARE
    ensures Compile(tokens, true) == Ok([MARK])
  {
    hide Parser.Flush, Parser.Finish, Parser.AddNot;
    var p := Start(true);
    var q := p.Next(tokens[0]).value;
    assert tokens[1..] == [tokens[1]] && tokens[1..][1..] == [];
    assert [] + [MARK] == [MARK];
    NothingNext(p, tokens[0]);
    FlushNothing(q);
    MarkNext(q, tokens[1]);
    var r := q.Next(tokens[1]).value;
    EndsBare(r);
    assert ParseTokens(p, tokens) == ParseTokens(q, [tokens[1]]) == ParseTokens(r, []) == Ok(r.Flush(true));
  }

  // ---------------------------------------------------------------------------
  // `?` and virtual keys

  predicate KeepsMark(p: Parser, q: Parser) { q.isNoMightMatch == p.isNoMightMatch && q.isInput == p.isInput }

  lemma FlushKeepsFlags(p: Parser, upImmediately: bool)
    ensures KeepsMark(p, p.Flush(upImmediately))
  {
  }

  lemma NotKeepsFlags(p: Parser, k: Key)
    ensures KeepsMark(p, p.AddNot(k))
  {
    hide Parser.Flush, RFindKey, WithoutKeys;
    FlushKeepsFlags(p, p.isInput || IsVirtualKey(k));
  }

  lemma TimeoutKeepsFlags(p: Parser, timeout: Value, isNot: bool)
    ensures p.AddTimeout(timeout, isNot).Ok? ==> KeepsMark(p, p.AddTimeout(timeout, isNot).value)
  {
    hide Parser.Flush;
    FlushKeepsFlags(p, true);
  }

  lemma GroupKeepsFlags(p: Parser)
    ensures KeepsMark(p, p.OpenGroup()) && KeepsMark(p, p.CloseTogetherGroup())
    ensures p.inModified > 0 && p.pressedBefore != [] ==> KeepsMark(p, p.CloseGroup())
  {
    hide Parser.Flush, ReleaseEvents, SyncEvents;
    FlushKeepsFlags(p, true);
    FlushKeepsFlags(p.(pressedBefore := p.pressedBefore + [|p.pressed|]), false);
  }

  lemma MarkStays(p: Parser, token: Token)
    requires p.Next(token).Ok?
    ensures var q := p.Next(token).value;
      q.isNoMightMatch == (p.isNoMightMatch || token.NoMightMatchMark?) && q.isInput == p.isInput
  {
    hide Parser.Flush, Parser.AddNot, Parser.AddTimeout, Parser.OpenGroup, Parser.CloseGroup, Parser.CloseTogetherGroup;
    FlushKeepsFlags(p, true);
    GroupKeepsFlags(p);
    match token
    case NotKey(key) => NotKeepsFlags(p, key);
    case NotTimeout(value) => TimeoutKeepsFlags(p, value, true);
    case Timeout(value) => TimeoutKeepsFlags(p, value, false);
    case _ =>
  }

  /** The text has a `?` in front of any comment. */
  predicate HasMark(tokens: seq<Token>) {
    tokens != [] && !tokens[0].Comment? && (tokens[0].NoMightMatchMark? || HasMark(tokens[1..]))
  }

  lemma {:induction false} MarkIsRead(p: Parser, tokens: seq<Token>)
    requires ParseTokens(p, tokens).Ok?
    ensures var q := ParseTokens(p, tokens).value;
      q.isInput == p.isInput && (q.isNoMightMatch <==> p.isNoMightMatch || HasMark(tokens))
    decreases |tokens|
  {
    hide Parser.Next, Parser.Flush;
    FlushKeepsFlags(p, true);
    if tokens != [] && !tokens[0].Comment? {
      MarkStays(p, tokens[0]);
      MarkIsRead(p.Next(tokens[0]).value, tokens[1..]);
    }
  }

  /** An accepted input with `?` has no virtual key, because histories have none. */
  lemma MarkedInputHasNoVirtualKey(tokens: seq<Token>)
    requires Compile(tokens, true).Ok? && HasMark(tokens)
    ensures forall i :: 0 <= i < |Compile(tokens, true).value| ==> !IsVirtualKey(Compile(tokens, true).value[i].key)
  {
    hide ParseTokens, Parser.Finish;
    MarkIsRead(Start(true), tokens);
    FinishedWithoutVirtualKey(ParseTokens(Start(true), tokens).value);
  }

  lemma FinishedWithoutVirtualKey(p: Parser)
    requires p.isInput && p.isNoMightMatch && p.Finish().Ok?
    ensures forall i :: 0 <= i < |p.Finish().value| ==> !IsVirtualKey(p.Finish().value[i].key)
  {
    hide WithoutFinal, HasUpOrDown, HasKey;
  }
}
