/** Messages in a stream of bytes: `Connection::send_message` and
    `Connection::read_messages` of `src/common/Connection.h`. */
module Framing {
  import opened Keys
  import opened Contexts
  import opened Wire

  /** What `send_message` sends: the size, then the message. */
  function Framed(message: Bytes): Bytes { Size(|message|) + message }

  function FramedAll(messages: seq<Bytes>): Bytes {
    if messages == [] then [] else Framed(messages[0]) + FramedAll(messages[1..])
  }

  /** The bytes begin with a complete message. */
  predicate HasMessage(b: Bytes) { |b| >= 4 && |b| - 4 >= ReadNumber(b).value }

  function FirstSize(b: Bytes): (r: nat)
    requires HasMessage(b)
    ensures 4 + r <= |b|
  {
    ReadNumber(b).value
  }

  function FirstMessage(b: Bytes): Bytes
    requires HasMessage(b)
  {
    b[4..4 + FirstSize(b)]
  }

  function AfterFirst(b: Bytes): (r: Bytes)
    requires HasMessage(b)
    ensures |r| < |b|
  {
    b[4 + FirstSize(b)..]
  }

  /** All complete messages. */
  function Complete(b: Bytes): seq<Bytes>
    decreases |b|
  {
    if HasMessage(b) then [FirstMessage(b)] + Complete(AfterFirst(b)) else []
  }

  /** What remains behind them. */
  function Incomplete(b: Bytes): (r: Bytes)
    ensures !HasMessage(r)
    decreases |b|
  {
    if HasMessage(b) then Incomplete(AfterFirst(b)) else b
  }

  // ---------------------------------------------------------------------------
  // Chunks

  lemma MoreBytes(a: Bytes, b: Bytes)
    requires HasMessage(a)
    ensures HasMessage(a + b) && FirstMessage(a + b) == FirstMessage(a) && AfterFirst(a + b) == AfterFirst(a) + b
  {
    assert forall i :: 0 <= i < 4 ==> (a + b)[i] == a[i];
    assert ReadNumber(a + b).value == ReadNumber(a).value;
    var n := FirstSize(a);
    assert (a + b)[4..4 + n] == a[4..4 + n];
    assert (a + b)[4 + n..] == a[4 + n..] + b;
  }

  /** Bytes which arrive later continue what is incomplete. */
  lemma {:induction false} LaterBytes(a: Bytes, b: Bytes)
    ensures Complete(a + b) == Complete(a) + Complete(Incomplete(a) + b)
    ensures Incomplete(a + b) == Incomplete(Incomplete(a) + b)
    decreases |a|
  {
    hide HasMessage, FirstMessage, AfterFirst;
    if HasMessage(a) {
      MoreBytes(a, b);
      LaterBytes(AfterFirst(a), b);
    }
  }

  /** The chunks of a stream, read one after the other. */
  function Received(buffer: Bytes, chunks: seq<Bytes>): (seq<Bytes>, Bytes)
    decreases |chunks|
  {
    if chunks == [] then ([], buffer)
    else
      var all := buffer + chunks[0];
      var (others, rest) := Received(Incomplete(all), chunks[1..]);
      (Complete(all) + others, rest)
  }

  function Concat(chunks: seq<Bytes>): Bytes {
    if chunks == [] then [] else chunks[0] + Concat(chunks[1..])
  }

  lemma {:induction false} NothingComplete(b: Bytes)
    requires !HasMessage(b)
    ensures Complete(b) == [] && Incomplete(b) == b
  {
  }

  /** However the stream is cut into chunks, the same messages are read in the same
      order, and the same bytes are kept. */
  lemma {:induction false} ChunkingIsIrrelevant(buffer: Bytes, chunks: seq<Bytes>)
    requires !HasMessage(buffer)
    ensures Received(buffer, chunks) == (Complete(buffer + Concat(chunks)), Incomplete(buffer + Concat(chunks)))
    decreases |chunks|
  {
    hide HasMessage, Complete, Incomplete;
    if chunks == [] {
      assert buffer + [] == buffer;
      NothingComplete(buffer);
    } else {
      var all, behind := buffer + chunks[0], Concat(chunks[1..]);
      ChunkingIsIrrelevant(Incomplete(all), chunks[1..]);
      LaterBytes(all, behind);
      assert buffer + Concat(chunks) == all + behind;
    }
  }

  // ---------------------------------------------------------------------------
  // What was sent is read

  lemma FramedIsMessage(message: Bytes, rest: Bytes)
    requires Fits(|message|)
    ensures var b := Framed(message) + rest;
      HasMessage(b) && FirstMessage(b) == message && AfterFirst(b) == rest
  {
    var b := Framed(message) + rest;
    assert b == Size(|message|) + (message + rest);
    SizeRead(|message|, message + rest);
    assert b[4..] == message + rest;
    assert b[4..4 + |message|] == message && b[4 + |message|..] == rest;
  }

  lemma {:induction false} SentIsComplete(messages: seq<Bytes>, partial: Bytes)
    requires forall i :: 0 <= i < |messages| ==> Fits(|messages[i]|)
    requires !HasMessage(partial)
    ensures Complete(FramedAll(messages) + partial) == messages && Incomplete(FramedAll(messages) + partial) == partial
    decreases |messages|
  {
    hide HasMessage, FirstMessage, AfterFirst, Framed, Fits;
    if messages == [] {
      assert FramedAll(messages) + partial == partial;
    } else {
      var others := FramedAll(messages[1..]) + partial;
      assert FramedAll(messages) + partial == Framed(messages[0]) + others;
      FramedIsMessage(messages[0], others);
      SentIsComplete(messages[1..], partial);
    }
  }

  /** Every message that was sent completely is read once, in order, for every
      chunking of the stream, and the beginning of the next one is kept. */
  lemma SentIsReceived(messages: seq<Bytes>, partial: Bytes, chunks: seq<Bytes>)
    requires forall i :: 0 <= i < |messages| ==> Fits(|messages[i]|)
    requires !HasMessage(partial) && Concat(chunks) == FramedAll(messages) + partial
    ensures Received([], chunks) == (messages, partial)
  {
    hide HasMessage, Complete, Incomplete, Received, FramedAll, Concat, Fits;
    NoMessageInNothing();
    ChunkingIsIrrelevant([], chunks);
    SentIsComplete(messages, partial);
    assert [] + Concat(chunks) == Concat(chunks);
  }

  lemma NoMessageInNothing()
    ensures !HasMessage([])
  {
  }

  // ---------------------------------------------------------------------------
  // The connection

  /** How many of the remaining bytes a handler reads. */
  type Handler = Bytes -> nat

  /** The handler reads exactly its message, for every complete one. */
  predicate Exact(handler: Handler, b: Bytes)
    decreases |b|
  {
    !HasMessage(b) || (handler(b[4..]) == FirstSize(b) && Exact(handler, AfterFirst(b)))
  }

  class Connection {
    var buffer: Bytes
    // what handlers were called with so far
    var handled: seq<Bytes>

    constructor ()
      ensures buffer == [] && handled == []
    {
      buffer, handled := [], [];
    }

    /** Reads the messages which are complete with the bytes that arrived. Fails
        when nothing can be received, or a handler reads too much or too little. */
    method ReadMessages(arrived: Option<Bytes>, handler: Handler) returns (succeeded: bool)
      modifies this
      ensures arrived.None? ==> !succeeded && buffer == old(buffer) && handled == old(handled)
      ensures arrived.Some? ==> (succeeded <==> Exact(handler, old(buffer) + arrived.value))
      ensures succeeded ==>
        && handled == old(handled) + Complete(old(buffer) + arrived.value)
        && buffer == Incomplete(old(buffer) + arrived.value)
      ensures old(handled) <= handled
    {
      if arrived.None? {
        return false;
      }
      buffer := buffer + arrived.value;
      var it, exact := DeserializeComplete(handler);
      if !exact {
        return false;
      }
      buffer := buffer[it..];
      return true;
    }

    /** Deserializes the complete messages, up to one that is not read exactly. */
    method DeserializeComplete(handler: Handler) returns (it: nat, exact: bool)
      modifies `handled
      ensures exact <==> Exact(handler, buffer)
      ensures exact ==> it <= |buffer| && buffer[it..] == Incomplete(buffer) && handled == old(handled) + Complete(buffer)
      ensures old(handled) <= handled
    {
      hide Complete, Incomplete, Exact, HasMessage, FirstMessage, AfterFirst, FirstSize, ReadNumber;
      it, exact := 0, true;
      ghost var rest := buffer;
      var done := false;
      while !done && it + 4 <= |buffer|
        invariant it <= |buffer| && buffer[it..] == rest
        invariant handled + Complete(rest) == old(handled) + Complete(buffer)
        invariant Incomplete(rest) == Incomplete(buffer)
        invariant Exact(handler, rest) <==> Exact(handler, buffer)
        invariant old(handled) <= handled
        invariant done ==> !HasMessage(rest)
        decreases !done, |buffer| - it
      {
        Unfold(rest, handler);
        ghost var before := handled;
        var next;
        next, exact := DeserializeNext(it, handler);
        if !exact {
          return;
        }
        if next == it {
          done := true;
        } else {
          assert before + ([FirstMessage(rest)] + Complete(AfterFirst(rest))) == handled + Complete(AfterFirst(rest));
          rest := AfterFirst(rest);
        }
        it := next;
      }
      if !done {
        TooShort(rest);
      }
      Unfold(rest, handler);
      assert handled + [] == handled;
    }

    /** One round of the loop: the message at `it`, if it is complete. */
    method DeserializeNext(it: nat, handler: Handler) returns (next: nat, exact: bool)
      requires it + 4 <= |buffer|
      modifies `handled
      ensures !HasMessage(buffer[it..]) ==> next == it && exact && handled == old(handled)
      ensures HasMessage(buffer[it..]) ==>
        && handled == old(handled) + [FirstMessage(buffer[it..])]
        && (exact <==> handler(buffer[it..][4..]) == FirstSize(buffer[it..]))
        && (exact ==> it < next <= |buffer| && buffer[next..] == AfterFirst(buffer[it..]))
    {
      var size := ReadNumber(buffer[it..it + 4]).value;
      MessageAt(buffer, it, size);
      hide HasMessage, FirstMessage, AfterFirst, FirstSize;
      next, exact := it, true;
      if it + 4 + size <= |buffer| {
        var end := it + 4 + size;
        handled := handled + [buffer[it + 4..end]];
        next := it + 4 + handler(buffer[it + 4..]);
        exact := next == end;
      }
    }
  }

  lemma TooShort(b: Bytes)
    requires |b| < 4
    ensures !HasMessage(b)
  {
  }

  lemma MessageAt(b: Bytes, it: nat, size: nat)
    requires it + 4 <= |b| && size == ReadNumber(b[it..it + 4]).value
    ensures HasMessage(b[it..]) <==> it + 4 + size <= |b|
    ensures HasMessage(b[it..]) ==>
      && FirstSize(b[it..]) == size && FirstMessage(b[it..]) == b[it + 4..it + 4 + size]
      && AfterFirst(b[it..]) == b[it + 4 + size..]
    ensures b[it..][4..] == b[it + 4..]
  {
    assert forall i :: 0 <= i < 4 ==> b[it..][i] == b[it..it + 4][i];
  }

  lemma Unfold(b: Bytes, handler: Handler)
    ensures HasMessage(b) ==>
      && Complete(b) == [FirstMessage(b)] + Complete(AfterFirst(b)) && Incomplete(b) == Incomplete(AfterFirst(b))
      && (Exact(handler, b) <==> handler(b[4..]) == FirstSize(b) && Exact(handler, AfterFirst(b)))
    ensures !HasMessage(b) ==> Complete(b) == [] && Incomplete(b) == b && Exact(handler, b)
  {
  }
}
