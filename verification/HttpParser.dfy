/** `http_parser_execute`: the buffered loop with its marks, its bulk skipping of bodies and
    its leftover callbacks, proved to do what the byte-at-a-time machine does. */
module HttpParser {
  import opened Bytes
  import opened HttpTypes
  import opened HttpStep
  import opened HttpSpec

  /** A callback made to the application. */
  datatype Call = Notice(n: Notice) | Data(part: Part, bytes: seq<byte>)

  /** What a call reports: a notification, or the bytes of a data callback one by one. */
  function Said(c: Option<Call>): seq<Event> {
    match c
    case None => []
    case Some(Notice(n)) => [Notified(n)]
    case Some(Data(part, bytes)) => Tagged(part, bytes)
  }

  /** Everything reported by a log of calls. */
  function Flat(log: seq<Call>): seq<Event> {
    if log == [] then [] else Flat(log[..|log| - 1]) + Said(Some(log[|log| - 1]))
  }

  lemma FlatSnoc(log: seq<Call>, c: Call)
    ensures Flat(log + [c]) == Flat(log) + Said(Some(c))
  {
    assert (log + [c])[..|log|] == log;
  }

  // ---- Marks ----

  datatype Marks = Marks(url: Option<nat>, field: Option<nat>, value: Option<nat>, body: Option<nat>)

  function Get(m: Marks, part: Part): Option<nat> {
    match part case Url => m.url case Field => m.field case Value => m.value case Body => m.body
  }

  function Set(m: Marks, part: Part, at: Option<nat>): Marks {
    match part
    case Url => m.(url := at)
    case Field => m.(field := at)
    case Value => m.(value := at)
    case Body => m.(body := at)
  }

  predicate Before(m: Marks, i: nat) {
    && (m.url.Some? ==> m.url.value <= i)
    && (m.field.Some? ==> m.field.value <= i)
    && (m.value.Some? ==> m.value.value <= i)
    && (m.body.Some? ==> m.body.value <= i)
  }

  predicate MayHoldBody(s: State) {
    BodyLike(s) || s.ChunkDataAlmostDone?
  }

  /** Exactly the mark that goes with the state is set, at or before position `i`. */
  predicate MarksOk(m: Marks, s: State, i: nat) {
    && (m.url.Some? <==> Holds(s) == Some(Url))
    && (m.field.Some? <==> Holds(s) == Some(Field))
    && (m.value.Some? <==> Holds(s) == Some(Value))
    && (m.body.Some? ==> MayHoldBody(s))
    && Before(m, i)
  }

  /** The parser's final assertion. */
  lemma AtMostOneMark(m: Marks, s: State, i: nat)
    requires MarksOk(m, s, i)
    ensures forall a, b :: Get(m, a).Some? && Get(m, b).Some? ==> a == b
  {
  }

  /** The bytes behind the mark that is set. */
  function Pending(m: Marks, data: seq<byte>, i: nat): seq<Event>
    requires i <= |data|
    requires Before(m, i)
  {
    if m.url.Some? then Tagged(Url, data[m.url.value..i])
    else if m.field.Some? then Tagged(Field, data[m.field.value..i])
    else if m.value.Some? then Tagged(Value, data[m.value.value..i])
    else if m.body.Some? then Tagged(Body, data[m.body.value..i])
    else []
  }

  const NO_MARKS := Marks(None, None, None, None)

  /** The marks a new buffer starts with. */
  function InitialMarks(s: State): Marks {
    match Holds(s) case None => NO_MARKS case Some(part) => Set(NO_MARKS, part, Some(0))
  }

  lemma InitialMarksOk(s: State, data: seq<byte>)
    ensures MarksOk(InitialMarks(s), s, 0) && Before(InitialMarks(s), 0) && Pending(InitialMarks(s), data, 0) == []
  {
    hide UrlState;
  }

  // ---- MARK and CALLBACK_DATA ----

  /** The marks after MARK (which does not move a mark already set) and CALLBACK_DATA. */
  function MarksAfter(m: Marks, o: Outcome, i: nat): Marks {
    var m1 := if o.mark.Some? && Get(m, o.mark.value).None? then Set(m, o.mark.value, Some(i)) else m;
    if o.emit.Some? then Set(m1, o.emit.value, None) else m1
  }

  /** The data callback made, if any; at the end of an identity body it includes the last byte. */
  function CallOf(m: Marks, o: Outcome, data: seq<byte>, i: nat): (c: Option<Call>)
    requires i + o.taken <= |data|
    requires Before(m, i)
    ensures c.Some? ==> c.value.Data?
  {
    if o.emit.None? then None
    else
      var part := o.emit.value;
      var from := if o.mark == o.emit && Get(m, part).None? then Some(i) else Get(m, part);
      if from.None? then None
      else Some(Data(part, data[from.value..if o.mark == Some(Body) then i + o.taken else i]))
  }

  /** Marks and callbacks account for every byte: what was pending and what this step adds is
      called out now or pending afterwards. */
  ghost predicate Accounted(m: Marks, before: State, o: Outcome, data: seq<byte>, i: nat)
    requires Before(m, i) && i + o.taken <= |data|
  {
    && Before(MarksAfter(m, o, i), i + o.taken)
    && MarksOk(MarksAfter(m, o, i), o.p.state, i + o.taken)
    && (o.exit != Break || o.note.Some? ==> MarksAfter(m, o, i) == NO_MARKS)
    && Pending(m, data, i) + DataEvents(before, o, data[i..i + o.taken]) ==
      Said(CallOf(m, o, data, i)) + Pending(MarksAfter(m, o, i), data, i + o.taken)
  }

  lemma CallbacksAccount(m: Marks, before: State, o: Outcome, data: seq<byte>, i: nat)
    requires MarksOk(m, before, i) && MarksFit(before, o) && o.exit != Error
    requires o.taken >= 1 && i + o.taken <= |data|
    ensures Accounted(m, before, o, data, i)
  {
    if BodyLike(before) {
      BodyAccount(m, before, o, data, i);
    } else if before.ChunkDataAlmostDone? {
      hide UrlState;
      assert Pending(m, data, i) == if m.body.Some? then Tagged(Body, data[m.body.value..i]) else [];
    } else {
      TextAccount(m, before, o, data, i);
    }
  }

  lemma BodyAccount(m: Marks, before: State, o: Outcome, data: seq<byte>, i: nat)
    requires MarksOk(m, before, i) && MarksFit(before, o) && o.exit != Error && BodyLike(before)
    requires o.taken >= 1 && i + o.taken <= |data|
    ensures Accounted(m, before, o, data, i)
  {
    hide Tagged;
    assert Holds(before).None? && m == NO_MARKS.(body := m.body);
    var k := if m.body.Some? then m.body.value else i;
    TaggedConcat(Body, data, k, i, o.taken);
    TaggedNone(Body, data, i);
    assert MarksAfter(m, o, i) == if o.emit.Some? then NO_MARKS else NO_MARKS.(body := Some(k));
    if o.emit.Some? {
      assert CallOf(m, o, data, i) == Some(Data(Body, data[k..i + o.taken]));
    }
  }

  lemma TaggedNone(part: Part, data: seq<byte>, i: nat)
    requires i <= |data|
    ensures Tagged(part, data[i..i]) == []
  {
  }

  lemma TextAccount(m: Marks, before: State, o: Outcome, data: seq<byte>, i: nat)
    requires MarksOk(m, before, i) && MarksFit(before, o) && o.exit != Error && !MayHoldBody(before)
    requires o.taken >= 1 && i + o.taken <= |data|
    ensures Accounted(m, before, o, data, i)
  {
    hide UrlState, Tagged;
    var held, holds := Holds(before), Holds(o.p.state);
    if held.Some? {
      var k := Get(m, held.value);
      assert m == Set(NO_MARKS, held.value, k);
      TaggedConcat(held.value, data, k.value, i, 1);
      assert Pending(m, data, i) == Tagged(held.value, data[k.value..i]);
    } else {
      assert m == NO_MARKS;
      TaggedNone(Value, data, i);
    }
  }

  lemma TaggedConcat(part: Part, data: seq<byte>, k: nat, i: nat, n: nat)
    requires k <= i && i + n <= |data|
    ensures Tagged(part, data[k..i]) + Tagged(part, data[i..i + n]) == Tagged(part, data[k..i + n])
  {
    assert data[k..i] + data[i..i + n] == data[k..i + n];
  }

  // ---- The buffered loop ----

  function NoteOf(o: Outcome): Option<Call> {
    if o.note.Some? then Some(Notice(o.note.value)) else None
  }

  lemma Regroup(f: seq<Event>, pending: seq<Event>, data: seq<Event>, call: seq<Event>, pending': seq<Event>,
    note: seq<Event>)
    requires pending + data == call + pending'
    requires note == [] || pending' == []
    ensures f + call + note + pending' == f + pending + (data + note)
  {
    assert f + (pending + data) == f + (call + pending');
    assert f + pending + (data + note) == f + (pending + data) + note;
    if note == [] {
      assert f + call + note + pending' == f + (call + pending');
    } else {
      assert call + pending' == call;
      assert f + call + note + pending' == f + call + note;
    }
  }

  /** What the callbacks of one switch execution add to what has been said. */
  lemma StepReports(m: Marks, before: State, o: Outcome, data: seq<byte>, i: nat, f: seq<Event>)
    requires MarksOk(m, before, i) && Before(m, i) && MarksFit(before, o) && o.exit != Error
    requires o.taken >= 1 && i + o.taken <= |data|
    ensures Accounted(m, before, o, data, i)
    ensures f + Said(CallOf(m, o, data, i)) + Said(NoteOf(o)) + Pending(MarksAfter(m, o, i), data, i + o.taken) ==
      f + Pending(m, data, i) + Events(before, o, data[i..i + o.taken])
  {
    hide MarksFit, Pending, DataEvents, MarksAfter, CallOf, MarksOk, Tagged, Before;
    CallbacksAccount(m, before, o, data, i);
    if o.note.Some? { NothingPending(data, i + o.taken); }
    Regroup(f, Pending(m, data, i), DataEvents(before, o, data[i..i + o.taken]),
      Said(CallOf(m, o, data, i)), Pending(MarksAfter(m, o, i), data, i + o.taken), Said(NoteOf(o)));
  }

  lemma NothingPending(data: seq<byte>, i: nat)
    requires i <= |data|
    ensures Before(NO_MARKS, i) && Pending(NO_MARKS, data, i) == []
  {
  }

  lemma StartsWith(r: Run, said: seq<Event>, data: seq<byte>)
    requires RunOk(r)
    ensures Feed(r, data[..0]) == r && said + [] == said
  {
  }

  lemma RestingSound(p: Parser)
    requires Resting(p)
    ensures p.errno == Ok && !p.upgrade
  {
  }

  /** The byte machine stops at the byte `data[n]`. */
  ghost predicate StopsWithin(r: Run, data: seq<byte>, n: nat)
    requires RunOk(r)
  {
    n < |data| && Feed(r, data[..n]).live && !Feed(r, data[..n + 1]).live
  }

  /** Once stopped within a buffer, the rest of the buffer changes nothing. */
  lemma Stops(r: Run, data: seq<byte>, k: nat)
    requires RunOk(r) && k <= |data| && !Feed(r, data[..k]).live
    ensures Feed(r, data) == Feed(r, data[..k])
  {
    hide Feed, Resting;
    assert data == data[..k] + data[k..];
    FeedConcat(r, data[..k], data[k..]);
    FeedStopped(Feed(r, data[..k]), data[k..]);
  }

  /** With no mark set it makes no difference whether the last byte has been passed. */
  lemma LookAgain(s: State, data: seq<byte>, i: nat)
    requires MarksOk(NO_MARKS, s, i) && 0 < i <= |data|
    ensures MarksOk(NO_MARKS, s, i - 1)
    ensures Pending(NO_MARKS, data, i) == Pending(NO_MARKS, data, i - 1)
  {
    hide Holds;
  }

  function Leftover(m: Marks, data: seq<byte>, part: Part): Option<Call>
    requires Before(m, |data|)
  {
    match Get(m, part) case None => None case Some(k) => Some(Data(part, data[k..]))
  }

  lemma LeftoverSaid(m: Marks, s: State, data: seq<byte>, f: seq<Event>)
    requires Before(m, |data|) && MarksOk(m, s, |data|)
    ensures f + Said(Leftover(m, data, Field)) + Said(Leftover(m, data, Value))
      + Said(Leftover(m, data, Url)) + Said(Leftover(m, data, Body))
      == f + Pending(m, data, |data|)
  {
    hide Pending, Leftover;
    AtMostOneMark(m, s, |data|);
    assert Get(m, Url) == m.url && Get(m, Field) == m.field && Get(m, Value) == m.value && Get(m, Body) == m.body;
    hide MarksOk, Said;
    OnlyLeftover(m, data, f);
  }

  lemma OnlyLeftover(m: Marks, data: seq<byte>, f: seq<Event>)
    requires Before(m, |data|)
    requires m.url.Some? ==> m.field.None? && m.value.None? && m.body.None?
    requires m.field.Some? ==> m.value.None? && m.body.None?
    requires m.value.Some? ==> m.body.None?
    ensures f + Said(Leftover(m, data, Field)) + Said(Leftover(m, data, Value))
      + Said(Leftover(m, data, Url)) + Said(Leftover(m, data, Body))
      == f + Pending(m, data, |data|)
  {
    hide Tagged;
    assert f + [] == f;
    if m.url.Some? {
      assert data[m.url.value..] == data[m.url.value..|data|];
    } else if m.field.Some? {
      assert data[m.field.value..] == data[m.field.value..|data|];
    } else if m.value.Some? {
      assert data[m.value.value..] == data[m.value.value..|data|];
    } else if m.body.Some? {
      assert data[m.body.value..] == data[m.body.value..|data|];
    }
  }

  lemma StillLive(r: Run)
    requires RunOk(r)
    ensures r.live <==> r.p.errno == Ok && !r.p.upgrade
  {
  }

  /** A stream is its first piece and then the others, unless the first piece stops the parser. */
  lemma NextPieces(p: Parser, pieces: seq<seq<byte>>)
    requires Resting(p) && pieces != []
    ensures var r := Feed(Run(p, [], true), pieces[0]);
      && (r.live <==> r.p.errno == Ok && !r.p.upgrade)
      && Feed(Run(p, [], true), Join(pieces)) ==
        if r.live then After(r.events, Feed(Run(r.p, [], true), Join(pieces[1..]))) else r
  {
    hide Feed, Resting;
    var start := Run(p, [], true);
    var r := Feed(start, pieces[0]);
    FeedConcat(start, pieces[0], Join(pieces[1..]));
    assert r.live ==> r.p.errno == Ok && !r.p.upgrade by { StillLive(r); }
    if r.live {
      FeedEvents(r.p, r.events, Join(pieces[1..]));
    } else {
      FeedStopped(r, Join(pieces[1..]));
    }
  }

  class Connection {
    var p: Parser
    var log: seq<Call>

    constructor (kind: Kind)
      ensures p == Init(kind) && log == [] && Resting(p)
    {
      p, log := Init(kind), [];
    }

    /** Everything reported so far, and everything still behind a mark, is `events`. */
    ghost predicate Reported(events: seq<Event>, m: Marks, data: seq<byte>, i: nat)
      reads this`log
    {
      i <= |data| && Before(m, i) && Flat(log) + Pending(m, data, i) == events
    }

    /** Between two calls: an error is final, and without one the parser is at rest or has
        handed the connection over. */
    ghost predicate Valid()
      reads this`p
    {
      p.errno == Ok && !p.upgrade ==> Resting(p)
    }

    /** `http_parser_execute`.  A hand-over to another protocol is for the caller to notice. */
    method Execute(data: seq<byte>) returns (n: nat)
      requires Valid() && !p.upgrade
      modifies this
      ensures Valid()
      ensures old(p.errno) != Ok ==> n == 0 && p == old(p) && log == old(log)
      ensures old(p.errno) == Ok && data == [] ==> AtEnd(old(p), old(log))
      ensures old(p.errno) == Ok && data != [] ==> Consumed(Feed(Run(old(p), [], true), data), old(Flat(log)))
      ensures old(p.errno) == Ok && data != [] ==> StoppedAt(Run(old(p), [], true), data, n)
    {
      hide Resting, Feed, Flat, StopsWithin;
      if p.errno != Ok {
        n := 0;
      } else if data == [] {
        n := EndOfInput();
      } else {
        n := ExecuteBytes(data);
      }
    }

    /** The fields are those of the byte machine after `r`, and unless there was an error so are
        the reports. */
    ghost predicate Consumed(r: Run, said: seq<Event>)
      reads this
    {
      p == r.p && (p.errno == Ok ==> Flat(log) == said + r.events)
    }

    /** The count returned: the whole buffer, or up to the byte the byte machine stops within,
        not counting that byte after an error and counting it after a hand-over. */
    ghost predicate StoppedAt(start: Run, data: seq<byte>, n: nat)
      requires RunOk(start)
      reads this`p
    {
      if p.errno != Ok then StopsWithin(start, data, n)
      else if p.upgrade then 0 < n && StopsWithin(start, data, n - 1)
      else n == |data|
    }

    /** The end of the connection completes a body that ran up to it, is harmless between
        messages, and is an error anywhere else. */
    ghost predicate AtEnd(before: Parser, calls: seq<Call>)
      reads this
    {
      if before.state.BodyIdentityEof? then p == before && log == calls + [Notice(MessageComplete)]
      else if BetweenMessages(before.state) then p == before && log == calls
      else p == before.(errno := InvalidEofState) && log == calls
    }

    method EndOfInput() returns (n: nat)
      requires Resting(p)
      modifies this
      ensures AtEnd(old(p), old(log)) && Valid() && (p.errno == Ok ==> n == 0)
    {
      hide Resting;
      n := 0;
      if p.state.BodyIdentityEof? {
        log := log + [Notice(MessageComplete)];
      } else if !BetweenMessages(p.state) {
        p := p.(errno := InvalidEofState);
        n := 1;
      }
    }

    /** A connection whose bytes arrive in pieces: however they are cut, the fields and, unless
        there is an error, the reports are those of the whole stream. */
    method ExecuteAll(pieces: seq<seq<byte>>)
      requires Valid() && p.errno == Ok && !p.upgrade && forall k :: 0 <= k < |pieces| ==> pieces[k] != []
      modifies this
      ensures Valid() && Consumed(Feed(Run(old(p), [], true), Join(pieces)), old(Flat(log)))
      decreases |pieces|
    {
      hide Feed, Resting, Flat;
      if pieces == [] {
        StartsWith(Run(p, [], true), Flat(log), []);
      } else {
        ghost var before := p;
        var _ := Execute(pieces[0]);
        NextPieces(before, pieces);
        if p.errno == Ok && !p.upgrade {
          ghost var first, rest := Feed(Run(before, [], true), pieces[0]), Feed(Run(p, [], true), Join(pieces[1..]));
          assert old(Flat(log)) + first.events + rest.events == old(Flat(log)) + (first.events + rest.events);
          ExecuteAll(pieces[1..]);
        }
      }
    }

    method ExecuteBytes(data: seq<byte>) returns (n: nat)
      requires Resting(p) && data != []
      modifies this
      ensures Valid() && Consumed(Feed(Run(old(p), [], true), data), old(Flat(log)))
      ensures StoppedAt(Run(old(p), [], true), data, n)
    {
      hide Feed, Resting, InitialMarks, MarksOk, Pending, Flat;
      ghost var start, said := Run(p, [], true), Flat(log);
      ghost var events: seq<Event> := [];
      var m := InitialMarks(p.state);
      n := 0;
      StartsWith(start, said, data);
      InitialMarksOk(p.state, data);
      while n < |data|
        invariant n <= |data|
        invariant Feed(start, data[..n]) == Run(p, events, true) && Resting(p)
        invariant MarksOk(m, p.state, n) && Reported(said + events, m, data, n)
      {
        var exit;
        n, m, exit, events := ReadOne(start, said, events, m, data, n);
        if exit != Break {
          Stops(start, data, if exit == Error then n + 1 else n);
          NothingPending(data, n);
          return;
        }
      }
      assert data[..n] == data;
      RestingSound(p);
      LeftoverCallbacks(m, data);
    }

    method ReadOne(ghost start: Run, ghost said: seq<Event>, ghost events: seq<Event>, m: Marks, data: seq<byte>,
      i: nat)
      returns (i': nat, m': Marks, exit: Exit, ghost events': seq<Event>)
      requires RunOk(start) && i < |data| && Resting(p) && Feed(start, data[..i]) == Run(p, events, true)
      requires MarksOk(m, p.state, i) && Reported(said + events, m, data, i)
      modifies this
      ensures i' <= |data| && exit != Reexecute
      ensures exit == Error ==>
        StopsWithin(start, data, i') && Feed(start, data[..i' + 1]) == Run(p, events', false) && p.errno != Ok
      ensures exit == Return ==> 0 < i' && StopsWithin(start, data, i' - 1) && p.errno == Ok
      ensures exit != Error ==> Feed(start, data[..i']) == Run(p, events', exit == Break)
      ensures exit != Error ==> MarksOk(m', p.state, i') && Reported(said + events', m', data, i')
      ensures exit == Return ==> m' == NO_MARKS && p.upgrade
      ensures exit == Break ==> i' > i && Resting(p)
    {
      hide Feed, Resting, MarksOk, Pending, Flat, AtSwitch, Step, Dispatch, Rank, Events, MarksFit, ParsingHeader;
      i', m', events' := i, m, events;
      Begin(start, events, p, data, i);
      if ParsingHeader(p.state) {
        p := p.(nread := p.nread + 1);
        if p.nread > MAX_HEADER_SIZE {
          p := p.(errno := HeaderOverflow);
          exit := Error;
          return;
        }
      }
      exit := Reexecute;
      while exit == Reexecute
        invariant i <= i' <= |data| && (exit == Break ==> i' > i)
        invariant Looked(start, said, events', m', data, i', exit)
        decreases exit == Reexecute, Rank(p.state)
      {
        i', m', exit, events' := Look(start, said, events', m', data, i');
      }
    }

    /** Where the loop stands after a look that ended with `exit`. */
    ghost predicate Looked(
      start: Run, said: seq<Event>, events: seq<Event>, m: Marks, data: seq<byte>, i: nat, exit: Exit)
      requires RunOk(start)
      reads this
    {
      && i <= |data|
      && (exit == Reexecute ==> i < |data| && Ahead(start, events, p, data, i))
      && (exit == Error ==>
        StopsWithin(start, data, i) && Feed(start, data[..i + 1]) == Run(p, events, false) && p.errno != Ok)
      && (exit == Return ==> 0 < i && StopsWithin(start, data, i - 1) && p.errno == Ok && m == NO_MARKS && p.upgrade)
      && (exit == Break ==> Resting(p))
      && (exit == Break || exit == Return ==> Feed(start, data[..i]) == Run(p, events, exit == Break))
      && (exit != Error ==> MarksOk(m, p.state, i) && Reported(said + events, m, data, i))
    }

    /** One execution of the switch, with its callbacks. */
    method Look(ghost start: Run, ghost said: seq<Event>, ghost events: seq<Event>, m: Marks, data: seq<byte>, i: nat)
      returns (i': nat, m': Marks, exit: Exit, ghost events': seq<Event>)
      requires RunOk(start) && Looked(start, said, events, m, data, i, Reexecute)
      modifies this
      ensures Looked(start, said, events', m', data, i', exit)
      ensures i <= i' && (exit == Break ==> i < i') && (exit == Reexecute ==> Rank(p.state) < old(Rank(p.state)))
    {
      hide Feed, Resting, MarksOk, Pending, Flat, AtSwitch, Step, Dispatch, Rank, Events, MarksFit, ParsingHeader;
      i', m', events' := i, m, events;
      var o := Step(p, data[i], |data| - i);
      Advance(start, events, p, data, i);
      exit := o.exit;
      if exit != Error {
        m' := RunCallbacks(m, p.state, o, data, i, said + events);
        ghost var added := Events(p.state, o, data[i..i + o.taken]);
        assert said + (events + added) == said + events + added;
        events' := events + added;
        i' := i + o.taken;
        if exit == Reexecute {
          LookAgain(o.p.state, data, i');
          i' := i' - 1;
        }
      }
      p := o.p;
    }

    /** MARK, CALLBACK_DATA and CALLBACK_NOTIFY of one switch execution. */
    method RunCallbacks(m: Marks, before: State, o: Outcome, data: seq<byte>, i: nat, ghost events: seq<Event>)
      returns (m': Marks)
      requires MarksOk(m, before, i) && MarksFit(before, o) && o.exit != Error
      requires o.taken >= 1 && i + o.taken <= |data| && Reported(events, m, data, i)
      modifies this`log
      ensures MarksOk(m', o.p.state, i + o.taken) && (o.exit != Break ==> m' == NO_MARKS)
      ensures Reported(events + Events(before, o, data[i..i + o.taken]), m', data, i + o.taken)
    {
      hide MarksOk, MarksFit, Flat, Pending, DataEvents, Events, MarksAfter, CallOf, Said, NoteOf, BodyLike;
      StepReports(m, before, o, data, i, Flat(log));
      var call := CallOf(m, o, data, i);
      m' := MarksAfter(m, o, i);
      AppendCall(call);
      AppendCall(NoteOf(o));
    }

    /** The callbacks for the mark that is left when the buffer ends. */
    method LeftoverCallbacks(m: Marks, data: seq<byte>)
      requires Before(m, |data|) && MarksOk(m, p.state, |data|)
      modifies this`log
      ensures Flat(log) == old(Flat(log)) + Pending(m, data, |data|)
    {
      hide MarksOk, Flat, Said, Pending, Leftover, Before;
      LeftoverSaid(m, p.state, data, Flat(log));
      AppendCall(Leftover(m, data, Field));
      AppendCall(Leftover(m, data, Value));
      AppendCall(Leftover(m, data, Url));
      AppendCall(Leftover(m, data, Body));
    }

    method AppendCall(c: Option<Call>)
      modifies this`log
      ensures Flat(log) == old(Flat(log)) + Said(c)
    {
      if c.Some? {
        FlatSnoc(log, c.value);
        log := log + [c.value];
      }
    }
  }
}
