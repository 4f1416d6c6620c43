/** Two `ChunkedIOFd` endpoints on the two ends of one descriptor pair: what every
    interleaving of their operations delivers. */
module Link {
  import opened Bytes
  import opened Frames
  import opened ChunkedIO

  /** One direction is in order: the bytes the sender gave away are those the receiver
      took plus those in the kernel, and the receiver's frames start the sender's. */
  ghost predicate Flow(x: ChunkedIOFd, y: ChunkedIOFd)
    reads x, x.writeBuffer, x.outbound, y, y.readBuffer, y.inbound
  {
    && x.outbound == y.inbound
    && x.outbound.Valid()
    && x.Sending() && x.Accounted()
    && y.Receiving()
    && y.extracted <= x.framed
  }

  /** The receiver is looking at the start of the frames it has not extracted yet. */
  lemma FlowFeeds(x: ChunkedIOFd, y: ChunkedIOFd)
    requires Flow(x, y)
    ensures y.Feeds(x.framed)
  {
    hide WireAll;
    var done, rest := y.extracted, x.framed[|y.extracted|..];
    var ahead := y.Window() + y.inbound.fifo;
    var tail := x.writeBuffer[x.writePos..x.writeLen] + WireAll(x.pending);
    assert WireAll(x.framed) == WireAll(done) + WireAll(rest) by {
      assert x.framed == done + rest;
      WireAllConcat(done, rest);
    }
    assert x.outbound.sent + tail == WireAll(x.framed);
    assert x.outbound.sent == WireAll(done) + ahead;
    Ahead(WireAll(done), ahead, tail, WireAll(rest));
  }

  lemma Ahead(p: seq<byte>, ahead: seq<byte>, tail: seq<byte>, rest: seq<byte>)
    requires p + ahead + tail == p + rest
    ensures ahead <= rest
  {
    assert p + (ahead + tail) == p + rest;
    CancelPrefix(p, ahead + tail, rest);
  }

  lemma CancelPrefix(p: seq<byte>, a: seq<byte>, b: seq<byte>)
    requires p + a == p + b
    ensures a == b
  {
    assert a == (p + a)[|p|..] && b == (p + b)[|p|..];
  }

  /** Safety: what has come out is a prefix of what was accepted, chunk for chunk. */
  lemma FlowSafe(x: ChunkedIOFd, y: ChunkedIOFd)
    requires Flow(x, y)
    ensures y.delivered <= x.accepted
  {
    GluedPrefixOfAccepted(y.extracted, x.accepted);
  }

  /** The sender holds nothing back, the kernel is empty, the receiver sees no frame. */
  ghost predicate Drained(x: ChunkedIOFd, y: ChunkedIOFd)
    reads x, x.outbound, y, y.readBuffer
  {
    && x.writeLen == 0 && x.pending == []
    && x.outbound.fifo == []
    && y.WindowOk() && HeadLength(y.Window()) == 0
  }

  /** Nothing is lost: once the sender holds nothing back, the kernel is empty and the
      receiver sees no further frame, every accepted chunk has come out whole. */
  lemma FlowDrained(x: ChunkedIOFd, y: ChunkedIOFd)
    requires Flow(x, y) && Drained(x, y)
    ensures y.delivered == x.accepted && y.partial == None && y.Window() == []
  {
    var done, rest := y.extracted, x.framed[|y.extracted|..];
    assert x.framed == done + rest;
    WireAllConcat(done, rest);
    assert WireAll(done) + y.Window() == WireAll(done) + WireAll(rest);
    CancelPrefix(WireAll(done), y.Window(), WireAll(rest));
    HeadOfStream(y.Window(), rest);
    assert rest == [];
    assert y.extracted == x.framed;
    GlueSplitAll(x.accepted);
  }

  datatype Action = Write(chunk: Chunk) | Flush | Read | HangUp

  /** An operation called by the first endpoint (`first`) or by the second. */
  datatype Event = Event(first: bool, action: Action)

  predicate Callable(e: Event) {
    e.action.Write? ==> 0 < |e.action.chunk| < TWO_TO_THE_32
  }

  /** What an operation returned; `Gone` when its descriptor was closed before. */
  datatype Answer = Wrote(ok: bool) | Done | Got(ok: bool, chunk: Option<Chunk>) | Gone

  predicate Answers(action: Action, r: Answer) {
    match action
    case Write(_) => r.Wrote?
    case Read => r.Got?
    case _ => r.Done?
  }

  /** The chunk a call handed over to be sent. */
  function Taken(action: Action, r: Answer): seq<Chunk> {
    if action.Write? && r.Wrote? && r.ok then [action.chunk] else []
  }

  /** The chunk a call gave back. */
  function Handed(r: Answer): seq<Chunk> {
    if r.Got? && r.chunk.Some? then [r.chunk.value] else []
  }

  /** The chunks for which the writes of one end returned true, in order. */
  function AcceptedFrom(events: seq<Event>, answers: seq<Answer>, first: bool): seq<Chunk>
    requires |answers| <= |events|
  {
    if answers == [] then []
    else
      var n := |answers| - 1;
      AcceptedFrom(events, answers[..n], first)
      + if events[n].first == first then Taken(events[n].action, answers[n]) else []
  }

  /** The chunks that the reads of one end returned, in order. */
  function ReturnedTo(events: seq<Event>, answers: seq<Answer>, first: bool): seq<Chunk>
    requires |answers| <= |events|
  {
    if answers == [] then []
    else
      var n := |answers| - 1;
      ReturnedTo(events, answers[..n], first) + if events[n].first == first then Handed(answers[n]) else []
  }

  ghost predicate HungUp(events: seq<Event>, n: nat, first: bool)
    requires n <= |events|
  {
    exists j :: 0 <= j < n && events[j] == Event(first, HangUp)
  }

  lemma HungUpNext(events: seq<Event>, n: nat, first: bool)
    requires n < |events|
    ensures HungUp(events, n + 1, first) <==> HungUp(events, n, first) || events[n] == Event(first, HangUp)
  {
  }

  /** The `n`-th operation was performed, unless its end had hung up; `gone` if that was before. */
  ghost predicate PerformedAt(events: seq<Event>, n: nat, r: Answer, gone: bool)
    requires n < |events|
  {
    if gone || HungUp(events, n, events[n].first) then r == Gone else Answers(events[n].action, r)
  }

  ghost predicate Performed(events: seq<Event>, answers: seq<Answer>, goneA: bool, goneB: bool)
    requires |answers| <= |events|
  {
    forall i :: 0 <= i < |answers| ==> PerformedAt(events, i, answers[i], if events[i].first then goneA else goneB)
  }

  /** What one end has accepted and delivered since, going by the answers. */
  ghost predicate Recorded(
    events: seq<Event>, answers: seq<Answer>, first: bool,
    accepted: seq<Chunk>, accepted': seq<Chunk>, delivered: seq<Chunk>, delivered': seq<Chunk>)
    requires |answers| <= |events|
  {
    && accepted' == accepted + AcceptedFrom(events, answers, first)
    && delivered' == delivered + ReturnedTo(events, answers, first)
  }

  lemma NothingRecorded(events: seq<Event>, accepted: seq<Chunk>, delivered: seq<Chunk>)
    ensures forall first :: Recorded(events, [], first, accepted, accepted, delivered, delivered)
    ensures forall first :: !HungUp(events, 0, first)
  {
  }

  lemma RecordedNext(
    events: seq<Event>, answers: seq<Answer>, r: Answer, first: bool,
    accepted: seq<Chunk>, accepted': seq<Chunk>, delivered: seq<Chunk>, delivered': seq<Chunk>)
    requires |answers| < |events| && Recorded(events, answers, first, accepted, accepted', delivered, delivered')
    ensures var e := events[|answers|];
      Recorded(events, answers + [r], first,
        accepted, accepted' + (if e.first == first then Taken(e.action, r) else []),
        delivered, delivered' + (if e.first == first then Handed(r) else []))
  {
    hide Taken, Handed;
    assert (answers + [r])[..|answers|] == answers;
  }

  /** The two ends share nothing but the two pipes, and both directions are in order. */
  ghost predicate Connected(x: ChunkedIOFd, y: ChunkedIOFd)
    reads x, x.readBuffer, x.writeBuffer, x.inbound, x.outbound
    reads y, y.readBuffer, y.writeBuffer, y.inbound, y.outbound
  {
    && x != y && x.inbound != x.outbound
    && x.readBuffer != y.readBuffer && x.readBuffer != y.writeBuffer
    && x.writeBuffer != y.readBuffer && x.writeBuffer != y.writeBuffer
    && Flow(x, y) && Flow(y, x)
  }

  method StepWrite(x: ChunkedIOFd, y: ChunkedIOFd, chunk: Chunk) returns (ok: bool)
    requires Connected(x, y) && 0 < |chunk| < TWO_TO_THE_32
    modifies x, x.writeBuffer, x.outbound
    ensures Connected(x, y) && x.outbound.closed == old(x.outbound.closed)
    ensures ok <==> old(|x.pending|) <= MAX_BUFFERED_CHUNKS
    ensures x.accepted == old(x.accepted) + if ok then [chunk] else []
    ensures x.delivered == old(x.delivered)
  {
    hide WireAll, Glue, AllSendable, SplitAll, AllNonEmpty;
    ok := x.Write(chunk);
    assert Flow(y, x);
    assert Flow(x, y);
  }

  method StepFlush(x: ChunkedIOFd, y: ChunkedIOFd)
    requires Connected(x, y)
    modifies x, x.writeBuffer, x.outbound
    ensures Connected(x, y) && x.outbound.closed == old(x.outbound.closed)
    ensures x.accepted == old(x.accepted) && x.delivered == old(x.delivered)
  {
    hide WireAll, Glue, AllSendable, SplitAll, AllNonEmpty;
    x.Flush();
    assert Flow(y, x);
    assert Flow(x, y);
  }

  method StepRead(x: ChunkedIOFd, y: ChunkedIOFd) returns (ok: bool, chunk: Option<Chunk>)
    requires Connected(x, y)
    modifies x, x.writeBuffer, x.outbound, x.readBuffer, x.inbound
    ensures Connected(x, y)
    ensures x.outbound.closed == old(x.outbound.closed) && x.inbound.closed == old(x.inbound.closed)
    ensures x.accepted == old(x.accepted)
    ensures x.delivered == old(x.delivered) + if chunk.Some? then [chunk.value] else []
  {
    hide WireAll, Glue, AllSendable, SplitAll, AllNonEmpty, HeadLength;
    FlowFeeds(y, x);
    ok, chunk := x.Read(y.framed);
    assert Flow(y, x);
    assert Flow(x, y);
  }

  method Step(x: ChunkedIOFd, y: ChunkedIOFd, action: Action) returns (r: Answer)
    requires Connected(x, y)
    requires action.Write? ==> 0 < |action.chunk| < TWO_TO_THE_32
    modifies x, x.writeBuffer, x.outbound, x.readBuffer, x.inbound
    ensures Connected(x, y)
    ensures x.outbound.closed == (old(x.outbound.closed) || action.HangUp?) && x.inbound.closed == old(x.inbound.closed)
    ensures if old(x.outbound.closed) then r == Gone else Answers(action, r)
    ensures r.Wrote? ==> (r.ok <==> old(|x.pending|) <= MAX_BUFFERED_CHUNKS)
    ensures x.accepted == old(x.accepted) + Taken(action, r)
    ensures x.delivered == old(x.delivered) + Handed(r)
  {
    hide Flow;
    if x.outbound.closed {
      return Gone;
    }
    match action {
      case Write(chunk) =>
        var ok := StepWrite(x, y, chunk);
        r := Wrote(ok);
      case Flush =>
        StepFlush(x, y);
        r := Done;
      case Read =>
        var ok, chunk := StepRead(x, y);
        r := Got(ok, chunk);
      case HangUp =>
        StepHangUp(x, y);
        r := Done;
    }
  }

  method StepHangUp(x: ChunkedIOFd, y: ChunkedIOFd)
    requires Connected(x, y)
    modifies x.outbound`closed
    ensures Connected(x, y) && x.outbound.closed
  {
    x.outbound.closed := true;
  }

  lemma ConnectedFacts(x: ChunkedIOFd, y: ChunkedIOFd)
    requires Connected(x, y)
    ensures Connected(y, x) && x != y && x.outbound == y.inbound && x.inbound == y.outbound && x.inbound != x.outbound
  {
    hide Flow;
    FlowPipes(x, y);
    FlowPipes(y, x);
  }

  lemma FlowPipes(x: ChunkedIOFd, y: ChunkedIOFd)
    requires Flow(x, y)
    ensures x.outbound == y.inbound
  {
  }

  /** An operation of one end: what it answered, and what that end and the other have done. */
  method Turn(a: ChunkedIOFd, b: ChunkedIOFd, e: Event) returns (r: Answer)
    requires Connected(a, b) && Callable(e)
    modifies a, a.readBuffer, a.writeBuffer, a.inbound, a.outbound
    modifies b, b.readBuffer, b.writeBuffer, b.inbound, b.outbound
    ensures Connected(a, b)
    ensures if old(if e.first then a.outbound.closed else b.outbound.closed) then r == Gone else Answers(e.action, r)
    ensures a.outbound.closed == (old(a.outbound.closed) || e == Event(true, HangUp))
    ensures b.outbound.closed == (old(b.outbound.closed) || e == Event(false, HangUp))
    ensures a.accepted == old(a.accepted) + if e.first then Taken(e.action, r) else []
    ensures b.accepted == old(b.accepted) + if e.first then [] else Taken(e.action, r)
    ensures a.delivered == old(a.delivered) + if e.first then Handed(r) else []
    ensures b.delivered == old(b.delivered) + if e.first then [] else Handed(r)
  {
    hide Connected, Answers, Taken, Handed;
    ConnectedFacts(a, b);
    if e.first {
      r := Step(a, b, e.action);
    } else {
      r := Step(b, a, e.action);
      ConnectedFacts(b, a);
    }
  }

  /** Two new endpoints on a new descriptor pair. */
  method Connect() returns (a: ChunkedIOFd, b: ChunkedIOFd)
    ensures Connected(a, b)
    ensures fresh({a, b, a.inbound, a.outbound, a.readBuffer, a.writeBuffer, b.readBuffer, b.writeBuffer})
    ensures a.accepted == [] && b.accepted == []
  {
    var ab := new Pipe();
    var ba := new Pipe();
    a := new ChunkedIOFd(ba, ab);
    b := new ChunkedIOFd(ab, ba);
    assert Flow(a, b);
    assert Flow(b, a);
  }

  /** Any interleaving of any operations, with any short reads and writes: each side has got
      from its reads a prefix of what the writes of the other took, and all of it once drained. */
  method Run(a: ChunkedIOFd, b: ChunkedIOFd, events: seq<Event>) returns (answers: seq<Answer>)
    requires Connected(a, b)
    requires forall i :: 0 <= i < |events| ==> Callable(events[i])
    modifies a, a.readBuffer, a.writeBuffer, a.inbound, a.outbound
    modifies b, b.readBuffer, b.writeBuffer, b.inbound, b.outbound
    ensures Connected(a, b) && |answers| == |events|
    ensures Performed(events, answers, old(a.outbound.closed), old(b.outbound.closed))
    ensures a.accepted == old(a.accepted) + AcceptedFrom(events, answers, true)
    ensures b.accepted == old(b.accepted) + AcceptedFrom(events, answers, false)
    ensures a.delivered == old(a.delivered) + ReturnedTo(events, answers, true)
    ensures b.delivered == old(b.delivered) + ReturnedTo(events, answers, false)
    ensures b.delivered <= a.accepted && a.delivered <= b.accepted
    ensures Drained(a, b) ==> b.delivered == a.accepted && b.partial == None
    ensures Drained(b, a) ==> a.delivered == b.accepted && a.partial == None
  {
    hide WireAll, Glue, AllSendable, SplitAll, AllNonEmpty, HeadLength, Flow, HungUp, PerformedAt, AcceptedFrom;
    hide ReturnedTo;
    answers := Turns(a, b, events);
    FlowSafe(a, b);
    FlowSafe(b, a);
    if Drained(a, b) {
      FlowDrained(a, b);
    }
    if Drained(b, a) {
      FlowDrained(b, a);
    }
  }

  method Turns(a: ChunkedIOFd, b: ChunkedIOFd, events: seq<Event>) returns (answers: seq<Answer>)
    requires Connected(a, b)
    requires forall i :: 0 <= i < |events| ==> Callable(events[i])
    modifies a, a.readBuffer, a.writeBuffer, a.inbound, a.outbound
    modifies b, b.readBuffer, b.writeBuffer, b.inbound, b.outbound
    ensures Connected(a, b) && |answers| == |events|
    ensures Performed(events, answers, old(a.outbound.closed), old(b.outbound.closed))
    ensures Recorded(events, answers, true, old(a.accepted), a.accepted, old(a.delivered), a.delivered)
    ensures Recorded(events, answers, false, old(b.accepted), b.accepted, old(b.delivered), b.delivered)
  {
    hide Connected, Answers, Taken, Handed, HungUp, Recorded, Callable;
    answers := [];
    NothingRecorded(events, a.accepted, a.delivered);
    NothingRecorded(events, b.accepted, b.delivered);
    for i := 0 to |events|
      invariant Connected(a, b) && |answers| == i
      invariant a.outbound.closed == (old(a.outbound.closed) || HungUp(events, i, true))
      invariant b.outbound.closed == (old(b.outbound.closed) || HungUp(events, i, false))
      invariant Performed(events, answers, old(a.outbound.closed), old(b.outbound.closed))
      invariant Recorded(events, answers, true, old(a.accepted), a.accepted, old(a.delivered), a.delivered)
      invariant Recorded(events, answers, false, old(b.accepted), b.accepted, old(b.delivered), b.delivered)
    {
      HungUpNext(events, i, true);
      HungUpNext(events, i, false);
      ghost var (aAccepted, aDelivered, bAccepted, bDelivered) := (a.accepted, a.delivered, b.accepted, b.delivered);
      var r := Turn(a, b, events[i]);
      RecordedNext(events, answers, r, true, old(a.accepted), aAccepted, old(a.delivered), aDelivered);
      RecordedNext(events, answers, r, false, old(b.accepted), bAccepted, old(b.delivered), bDelivered);
      answers := answers + [r];
    }
  }
}
