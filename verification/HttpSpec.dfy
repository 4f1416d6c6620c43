/** The parser as a machine that reads one byte at a time, and what it reports. */
module HttpSpec {
  import opened Bytes
  import opened HttpTypes
  import opened HttpStep

  /** A notification, or one byte of a URL, header field, header value or body. */
  datatype Event = Notified(n: Notice) | Delivered(part: Part, b: byte)

  /** A parser with everything it has reported; not `live` after an error or after the
      hand-over to another protocol. */
  datatype Run = Run(p: Parser, events: seq<Event>, live: bool)

  predicate RunOk(r: Run) {
    if r.live then Resting(r.p) else r.p.errno != Ok || r.p.upgrade
  }

  function Tagged(part: Part, bytes: seq<byte>): (es: seq<Event>)
    ensures |es| == |bytes|
  {
    seq(|bytes|, i requires 0 <= i < |bytes| => Delivered(part, bytes[i]))
  }

  /** The last byte of several. */
  lemma TaggedSnoc(part: Part, bytes: seq<byte>)
    requires bytes != []
    ensures var n := |bytes| - 1;
      && Tagged(part, [bytes[n]]) == [Delivered(part, bytes[n])]
      && Tagged(part, bytes) == Tagged(part, bytes[..n]) + [Delivered(part, bytes[n])]
  {
  }

  /** The bytes a switch execution adds to what will be delivered. */
  function DataEvents(before: State, o: Outcome, bytes: seq<byte>): seq<Event> {
    if BodyLike(before) then Tagged(Body, bytes)
    else if o.exit == Break && Holds(o.p.state).Some? then Tagged(Holds(o.p.state).value, bytes)
    else []
  }

  function Events(before: State, o: Outcome, bytes: seq<byte>): seq<Event> {
    DataEvents(before, o, bytes) + if o.note.Some? then [Notified(o.note.value)] else []
  }

  /** The switch, executed until the byte is consumed; `Rank` bounds how often. */
  function Dispatch(p: Parser, ch: byte): (r: Run)
    requires AtSwitch(p)
    ensures RunOk(r)
    decreases Rank(p.state)
  {
    hide Resting, AtSwitch, MarksFit, Rank;
    var o := Step(p, ch, 1);
    match o.exit
    case Break => Run(o.p, Events(p.state, o, [ch]), true)
    case Return => Run(o.p, Events(p.state, o, [ch]), false)
    case Error => Run(o.p, [], false)
    case Reexecute =>
      var r := Dispatch(o.p, ch);
      Run(r.p, Events(p.state, o, [ch]) + r.events, r.live)
  }

  function Counted(p: Parser): Parser {
    if ParsingHeader(p.state) then p.(nread := p.nread + 1) else p
  }

  /** One byte of input. */
  function ReadByte(p: Parser, ch: byte): (r: Run)
    requires Resting(p)
    ensures RunOk(r)
  {
    var q := Counted(p);
    if ParsingHeader(p.state) && q.nread > MAX_HEADER_SIZE then Run(q.(errno := HeaderOverflow), [], false)
    else Dispatch(q, ch)
  }

  /** The parser with one more byte counted. */
  function Next(p: Parser): Parser {
    p.(nread := p.nread + 1)
  }

  /** What is reported of a byte that leaves the switch by `break`, away from bodies. */
  function Reported(o: Outcome, ch: byte): seq<Event> {
    (match Holds(o.p.state) case None => [] case Some(part) => [Delivered(part, ch)])
    + if o.note.Some? then [Notified(o.note.value)] else []
  }

  /** A byte that is looked at just once. */
  lemma LookedAtOnce(p: Parser, ch: byte, o: Outcome)
    requires AtSwitch(p) && Step(p, ch, 1) == o && o.exit == Break && !BodyLike(p.state)
    ensures Dispatch(p, ch) == Run(o.p, Reported(o, ch), true)
  {
    hide Step, AtSwitch, Resting, MarksFit, Holds;
    if Holds(o.p.state).Some? {
      assert Tagged(Holds(o.p.state).value, [ch]) == [Delivered(Holds(o.p.state).value, ch)];
    }
  }

  /** The same before the body, where bytes are counted. */
  lemma ReadOnce(p: Parser, ch: byte, o: Outcome)
    requires Resting(p) && ParsingHeader(p.state) && p.nread < MAX_HEADER_SIZE && AtSwitch(Next(p))
    requires Step(Next(p), ch, 1) == o && o.exit == Break
    ensures ReadByte(p, ch) == Run(o.p, Reported(o, ch), true)
  {
    hide Step, AtSwitch, Resting, Reported, Dispatch;
    LookedAtOnce(Next(p), ch, o);
  }

  lemma NextAtSwitch(p: Parser)
    requires Resting(p) && ParsingHeader(p.state)
    ensures AtSwitch(Next(p))
  {
  }

  function Then(r: Run, ch: byte): (s: Run)
    requires RunOk(r)
    ensures RunOk(s)
  {
    if !r.live then r
    else
      var s := ReadByte(r.p, ch);
      Run(s.p, r.events + s.events, s.live)
  }

  /** A whole stream of input. */
  function Feed(r: Run, bytes: seq<byte>): (s: Run)
    requires RunOk(r)
    ensures RunOk(s)
  {
    hide RunOk, Then;
    if bytes == [] then r else Then(Feed(r, bytes[..|bytes| - 1]), bytes[|bytes| - 1])
  }

  lemma FeedNothing(r: Run)
    requires RunOk(r)
    ensures Feed(r, []) == r
  {
  }

  /** Feeding a stream in two parts is feeding it whole. */
  lemma {:induction false} FeedConcat(r: Run, a: seq<byte>, b: seq<byte>)
    requires RunOk(r)
    ensures Feed(r, a + b) == Feed(Feed(r, a), b)
  {
    hide RunOk, Then;
    if b == [] {
      assert a + b == a;
    } else {
      var n := |b| - 1;
      assert (a + b)[..|a| + n] == a + b[..n];
      FeedConcat(r, a, b[..n]);
    }
  }

  /** A parser that has stopped takes no notice of further input. */
  lemma {:induction false} FeedStopped(r: Run, bytes: seq<byte>)
    requires RunOk(r) && !r.live
    ensures Feed(r, bytes) == r
  {
    if bytes != [] {
      FeedStopped(r, bytes[..|bytes| - 1]);
    }
  }

  function Join(pieces: seq<seq<byte>>): seq<byte> {
    if pieces == [] then [] else pieces[0] + Join(pieces[1..])
  }

  // ---- Bodies, byte by byte ----

  /** Reading some, but not all, of the bytes a body still needs. */
  lemma {:induction false} FeedBody(r: Run, bytes: seq<byte>)
    requires RunOk(r) && r.live && BodyLike(r.p.state)
    requires r.p.state.BodyIdentityEof? || |bytes| < r.p.contentLength
    ensures Feed(r, bytes) == Run(BodyRest(r.p, |bytes|), r.events + Tagged(Body, bytes), true)
  {
    if bytes == [] {
      assert r.events + Tagged(Body, []) == r.events;
    } else {
      var n := |bytes| - 1;
      FeedBody(r, bytes[..n]);
      BodyRestRests(r.p, n);
      hide Resting, ReadByte, Tagged;
      BodyByte(BodyRest(r.p, n), bytes[n]);
      TaggedSnoc(Body, bytes);
      var so, last := Tagged(Body, bytes[..n]), [Delivered(Body, bytes[n])];
      assert r.events + so + last == r.events + (so + last);
    }
  }

  lemma BodyRestRests(p: Parser, n: nat)
    requires Resting(p) && BodyLike(p.state) && (p.state.BodyIdentityEof? || n < p.contentLength)
    ensures Resting(BodyRest(p, n))
  {
  }

  function BodyRest(p: Parser, n: nat): Parser
    requires p.state.BodyIdentityEof? || n <= p.contentLength
  {
    if p.state.BodyIdentityEof? then p else p.(contentLength := p.contentLength - n)
  }

  lemma BodyByte(p: Parser, ch: byte)
    requires Resting(p) && BodyLike(p.state)
    requires p.state.BodyIdentityEof? || p.contentLength > 1
    ensures ReadByte(p, ch) == Run(BodyRest(p, 1), [Delivered(Body, ch)], true)
  {
    StepInBody(p, ch, 1);
    hide Step;
    assert Tagged(Body, [ch]) == [Delivered(Body, ch)];
  }

  function After(events: seq<Event>, r: Run): Run {
    Run(r.p, events + r.events, r.live)
  }

  /** Taking as much of a body as is there at once is reading it byte by byte; at the end of
      an identity body the last byte is looked at once more. */
  lemma BodyAtOnce(p: Parser, ch: byte, avail: nat, bytes: seq<byte>)
    requires Resting(p) && AtSwitch(p) && BodyLike(p.state) && avail > 0
    requires |bytes| == Step(p, ch, avail).taken
    ensures var o := Step(p, ch, avail);
      && (o.exit == Break ==> Feed(Run(p, [], true), bytes) == Run(o.p, Tagged(Body, bytes), true))
      && (o.exit == Reexecute ==>
        Feed(Run(p, [], true), bytes) == After(Tagged(Body, bytes), Dispatch(o.p, bytes[|bytes| - 1])))
      && (o.exit == Break || o.exit == Reexecute)
      && Feed(Run(p, [], true), bytes[..|bytes| - 1]).live
  {
    hide Step, Resting, AtSwitch, MarksFit, Rank, Tagged, BodyRest, Dispatch;
    var n := |bytes| - 1;
    var q := BodyEnds(p, ch, avail, bytes[n]);
    FeedBody(Run(p, [], true), bytes[..n]);
    TaggedSnoc(Body, bytes);
    var o := Step(p, ch, avail);
    var r := Feed(Run(p, [], true), bytes[..n]);
    assert r == Run(q, Tagged(Body, bytes[..n]), true);
    assert Feed(Run(p, [], true), bytes) == After(r.events, Dispatch(q, bytes[n]));
    if o.exit == Reexecute {
      AfterAfter(r.events, Tagged(Body, [bytes[n]]), Dispatch(o.p, bytes[n]));
    }
  }

  /** How much of a body is taken at once. */
  lemma BodyTaken(p: Parser, ch: byte, avail: nat)
    requires AtSwitch(p) && BodyLike(p.state) && avail > 0
    ensures var o := Step(p, ch, avail);
      && (p.state.BodyIdentityEof? || o.taken <= p.contentLength) && 0 < o.taken <= avail
      && (o.exit == Break || o.exit == Reexecute)
  {
    hide MarksFit;
    StepInBody(p, ch, avail);
    hide Step;
  }

  lemma BodyRested(p: Parser, n: nat)
    requires Resting(p) && AtSwitch(p) && BodyLike(p.state) && (p.state.BodyIdentityEof? || n < p.contentLength)
    ensures var q := BodyRest(p, n);
      q.state == p.state && Resting(q) && AtSwitch(q) && Counted(q) == q && !ParsingHeader(q.state)
  {
  }

  /** The last of the bytes taken at once ends as the whole of them does. */
  lemma LastOfBody(p: Parser, ch: byte, avail: nat, last: byte)
    requires Resting(p) && AtSwitch(p) && BodyLike(p.state) && avail > 0
    requires var n := Step(p, ch, avail).taken; n > 0 && (p.state.BodyIdentityEof? || n <= p.contentLength)
    requires AtSwitch(BodyRest(p, Step(p, ch, avail).taken - 1))
    ensures var o := Step(p, ch, avail);
      var last := Step(BodyRest(p, o.taken - 1), last, 1);
      last.exit == o.exit && last.p == o.p
  {
    hide Good, MarksFit;
    StepInBody(p, ch, avail);
    StepInBody(BodyRest(p, Step(p, ch, avail).taken - 1), last, 1);
    hide Step;
  }

  lemma LastEvents(q: Parser, last: byte)
    requires AtSwitch(q) && BodyLike(q.state)
    ensures var o := Step(q, last, 1);
      o.exit != Error ==> MarksFit(q.state, o) && Events(q.state, o, [last]) == Tagged(Body, [last])
  {
    hide Step, AtSwitch, MarksFit;
    if Step(q, last, 1).exit != Error { EventsOfBody(q, Step(q, last, 1), [last]); }
  }

  lemma BodyEnds(p: Parser, ch: byte, avail: nat, last: byte) returns (q: Parser)
    requires Resting(p) && AtSwitch(p) && BodyLike(p.state) && avail > 0
    ensures var o := Step(p, ch, avail);
      && (p.state.BodyIdentityEof? || o.taken <= p.contentLength)
      && o.taken > 0 && q == BodyRest(p, o.taken - 1) && Resting(q) && AtSwitch(q) && Counted(q) == q
      && !ParsingHeader(q.state)
      && (o.exit == Break ==> Dispatch(q, last) == Run(o.p, Tagged(Body, [last]), true))
      && (o.exit == Reexecute ==> Dispatch(q, last) == After(Tagged(Body, [last]), Dispatch(o.p, last)))
      && (o.exit == Break || o.exit == Reexecute)
  {
    hide Good, MarksFit;
    BodyTaken(p, ch, avail);
    q := BodyRest(p, Step(p, ch, avail).taken - 1);
    BodyRested(p, Step(p, ch, avail).taken - 1);
    LastOfBody(p, ch, avail, last);
    hide Step, AtSwitch, Resting, BodyRest;
    LastEvents(q, last);
    DispatchOnce(q, last, []);
  }

  // ---- The buffered loop, seen from the byte machine ----

  /** Looking at `data[j]` from `p`, with `events` reported so far, continues the run from `r`. */
  ghost predicate Ahead(r: Run, events: seq<Event>, p: Parser, data: seq<byte>, j: nat)
    requires RunOk(r) && j < |data|
  {
    && AtSwitch(p)
    && Feed(r, data[..j + 1]) == After(events, Dispatch(p, data[j]))
    && Feed(r, data[..j]).live
    && (BodyLike(p.state) ==> Resting(p) && Feed(r, data[..j]) == Run(p, events, true))
  }

  lemma FeedSnoc(r: Run, a: seq<byte>, ch: byte)
    requires RunOk(r)
    ensures Feed(r, a + [ch]) == Then(Feed(r, a), ch)
  {
    hide RunOk, Then;
    assert (a + [ch])[..|a|] == a;
  }

  lemma FeedOne(r: Run, data: seq<byte>, i: nat)
    requires RunOk(r) && i < |data|
    ensures Feed(r, data[..i + 1]) == Then(Feed(r, data[..i]), data[i])
  {
    hide RunOk, Then;
    assert data[..i + 1][..i] == data[..i];
  }

  /** Counting a byte of a header, before it is looked at. */
  lemma Begin(r: Run, events: seq<Event>, p: Parser, data: seq<byte>, i: nat)
    requires RunOk(r) && i < |data| && Resting(p) && Feed(r, data[..i]) == Run(p, events, true)
    ensures var q := Counted(p);
      if ParsingHeader(p.state) && q.nread > MAX_HEADER_SIZE
      then Feed(r, data[..i + 1]) == Run(q.(errno := HeaderOverflow), events, false)
      else Ahead(r, events, q, data, i)
  {
    hide Feed, Dispatch, Resting, AtSwitch, BodyLike, ParsingHeader;
    FeedOne(r, data, i);
    CountedBody(p);
    assert events + [] == events;
  }

  lemma CountedBody(p: Parser)
    requires Resting(p)
    ensures AtSwitch(Counted(p)) && (BodyLike(Counted(p).state) ==> Counted(p) == p)
  {
  }

  /** One execution of the switch in the buffered loop: where it leaves the run. */
  lemma Advance(r: Run, events: seq<Event>, p: Parser, data: seq<byte>, j: nat)
    requires RunOk(r) && j < |data| && Ahead(r, events, p, data, j)
    ensures var o := Step(p, data[j], |data| - j);
      var k := j + o.taken;
      && (o.exit == Error ==> Feed(r, data[..j + 1]) == Run(o.p, events, false))
      && (o.exit != Error ==>
        var events' := events + Events(p.state, o, data[j..k]);
        && (o.exit == Reexecute ==> Ahead(r, events', o.p, data, k - 1))
        && (o.exit == Return ==> Feed(r, data[..k - 1]).live)
        && (o.exit != Reexecute ==> Feed(r, data[..k]) == Run(o.p, events', o.exit == Break)))
  {
    hide Step, Resting, AtSwitch, Rank, Feed, RunOk, Dispatch, MarksFit, Events;
    if BodyLike(p.state) {
      AdvanceBody(r, events, p, data, j);
    } else {
      StepInBody(p, data[j], |data| - j);
      var o := Step(p, data[j], 1);
      NotBody(p, o);
      assert [data[j]] == data[j..j + 1];
      assert o == Step(p, data[j], |data| - j);
      DispatchOnce(p, data[j], events);
    }
  }

  /** One execution of the switch at the front of what a byte does. */
  lemma DispatchOnce(p: Parser, ch: byte, events: seq<Event>)
    requires AtSwitch(p)
    ensures var o, d := Step(p, ch, 1), After(events, Dispatch(p, ch));
      var es := events + Events(p.state, o, [ch]);
      match o.exit
      case Error => d == Run(o.p, events, false)
      case Break => d == Run(o.p, es, true)
      case Return => d == Run(o.p, es, false)
      case Reexecute => d == After(es, Dispatch(o.p, ch))
  {
    hide Step, Resting, AtSwitch, Rank, MarksFit, Events;
    var o := Step(p, ch, 1);
    if o.exit == Error {
      assert events + [] == events;
    } else if o.exit == Reexecute {
      var es, d := Events(p.state, o, [ch]), Dispatch(o.p, ch);
      assert events + es + d.events == events + (es + d.events);
    }
  }

  /** Only bodies are taken more than a byte at a time. */
  lemma NotBody(p: Parser, o: Outcome)
    requires !BodyLike(p.state) && Good(p, 1, o)
    ensures o.taken == 1
  {
  }

  lemma AdvanceBody(r: Run, events: seq<Event>, p: Parser, data: seq<byte>, j: nat)
    requires RunOk(r) && j < |data| && Ahead(r, events, p, data, j) && BodyLike(p.state)
    ensures var o := Step(p, data[j], |data| - j);
      var k := j + o.taken;
      var events' := events + Events(p.state, o, data[j..k]);
      && (o.exit == Reexecute ==> Ahead(r, events', o.p, data, k - 1))
      && (o.exit == Break ==> Feed(r, data[..k]) == Run(o.p, events', true))
      && (o.exit == Break || o.exit == Reexecute)
  {
    hide Step, Resting, AtSwitch, Rank, Feed, Dispatch, Events, MarksFit, Tagged, Good, RunOk, Ahead, BodyLike;
    InBody(r, events, p, data, j);
    var o := Step(p, data[j], |data| - j);
    BodyTaken(p, data[j], |data| - j);
    var k := j + o.taken;
    SliceOfSlice(data, j, k);
    BodyAtOnce(p, data[j], |data| - j, data[j..k]);
    BodyOutcome(p, data[j], |data| - j, data[j..k]);
    if o.exit == Reexecute {
      LookAgainAfter(r, events, p, data, j, k, o.p);
    } else {
      ReadPast(r, events, p, data, j, k, o.p);
    }
  }

  lemma InBody(r: Run, events: seq<Event>, p: Parser, data: seq<byte>, j: nat)
    requires RunOk(r) && j < |data| && Ahead(r, events, p, data, j) && BodyLike(p.state)
    ensures Resting(p) && AtSwitch(p) && Feed(r, data[..j]) == Run(p, events, true)
  {
    hide Resting, AtSwitch, Feed, Dispatch;
  }

  /** A body that ends in the buffer: its last byte is looked at again. */
  lemma LookAgainAfter(r: Run, events: seq<Event>, p: Parser, data: seq<byte>, j: nat, k: nat, q: Parser)
    requires RunOk(r) && j < k <= |data| && Resting(p) && Feed(r, data[..j]) == Run(p, events, true)
    requires AtSwitch(q) && !BodyLike(q.state) && Feed(Run(p, [], true), data[j..k - 1]).live
    requires Feed(Run(p, [], true), data[j..k]) == After(Tagged(Body, data[j..k]), Dispatch(q, data[k - 1]))
    ensures Ahead(r, events + Tagged(Body, data[j..k]), q, data, k - 1)
  {
    hide Resting, AtSwitch, Feed, Dispatch, Tagged, BodyLike, RunOk;
    ReadOn(r, events, p, data, j, k);
    ReadOn(r, events, p, data, j, k - 1);
    AfterAfter(events, Tagged(Body, data[j..k]), Dispatch(q, data[k - 1]));
  }

  /** A body that goes on after the buffer or is followed by a byte of its own. */
  lemma ReadPast(r: Run, events: seq<Event>, p: Parser, data: seq<byte>, j: nat, k: nat, q: Parser)
    requires RunOk(r) && j < k <= |data| && Resting(p) && Feed(r, data[..j]) == Run(p, events, true)
    requires Feed(Run(p, [], true), data[j..k]) == Run(q, Tagged(Body, data[j..k]), true)
    ensures Feed(r, data[..k]) == Run(q, events + Tagged(Body, data[j..k]), true)
  {
    hide Resting, Feed, Tagged;
    ReadOn(r, events, p, data, j, k);
  }

  lemma BodyOutcome(p: Parser, ch: byte, avail: nat, bytes: seq<byte>)
    requires AtSwitch(p) && BodyLike(p.state) && avail > 0
    ensures var o := Step(p, ch, avail);
      && (o.exit != Error ==> MarksFit(p.state, o) && Events(p.state, o, bytes) == Tagged(Body, bytes))
      && (o.exit == Reexecute ==> AtSwitch(o.p) && !BodyLike(o.p.state))
  {
    hide Step, AtSwitch, MarksFit, Resting, Events, Tagged;
    if Step(p, ch, avail).exit != Error { EventsOfBody(p, Step(p, ch, avail), bytes); }
  }

  lemma SliceOfSlice(data: seq<byte>, j: nat, k: nat)
    requires j < k <= |data|
    ensures data[j..k][..k - j - 1] == data[j..k - 1] && data[j..k][k - j - 1] == data[k - 1]
  {
  }

  lemma AfterAfter(a: seq<Event>, b: seq<Event>, r: Run)
    ensures After(a, After(b, r)) == After(a + b, r)
  {
    assert a + b + r.events == a + (b + r.events);
  }

  /** Reading on from where the run has come to. */
  lemma ReadOn(r: Run, events: seq<Event>, p: Parser, data: seq<byte>, j: nat, k: nat)
    requires RunOk(r) && j <= k <= |data| && Resting(p) && Feed(r, data[..j]) == Run(p, events, true)
    ensures Feed(r, data[..k]) == After(events, Feed(Run(p, [], true), data[j..k]))
  {
    hide Feed, Resting, RunOk;
    assert data[..j] + data[j..k] == data[..k];
    FeedConcat(r, data[..j], data[j..k]);
    FeedEvents(p, events, data[j..k]);
  }

  lemma EventsOfBody(p: Parser, o: Outcome, bytes: seq<byte>)
    requires BodyLike(p.state) && MarksFit(p.state, o)
    ensures Events(p.state, o, bytes) == Tagged(Body, bytes)
  {
    hide Tagged;
  }

  /** What was reported before plays no part in what is reported next. */
  lemma {:induction false} FeedEvents(p: Parser, events: seq<Event>, bytes: seq<byte>)
    requires Resting(p)
    ensures Feed(Run(p, events, true), bytes) == After(events, Feed(Run(p, [], true), bytes))
  {
    hide Resting, ReadByte;
    if bytes != [] {
      FeedEvents(p, events, bytes[..|bytes| - 1]);
    }
  }
}
