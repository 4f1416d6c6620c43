/** What a message announces about its body and what is delivered of it: over every run the
    two agree whenever a message is complete. */
module HttpTally {
  import opened Bytes
  import opened HttpTypes
  import opened HttpStep
  import opened HttpSpec
  import HttpBodies

  // ---- What a run reports and announces ----

  /** The body bytes reported since the headers were last complete, `n` having gone before. */
  function Since(n: nat, es: seq<Event>): nat {
    if es == [] then n
    else
      var m, e := Since(n, es[..|es| - 1]), es[|es| - 1];
      if e == Notified(HeadersComplete) then 0 else if e.Delivered? && e.part == Body then m + 1 else m
  }

  /** A length is announced when an identity body or the data of a chunk begins. */
  function Announced(before: State, p: Parser): nat {
    if p.state != before && (p.state.BodyIdentity? || p.state.ChunkData?) then p.contentLength else 0
  }

  /** The lengths announced since the headers were last complete, after one more byte. */
  function AnnouncedNext(n: nat, before: State, r: Run): nat {
    (if Notified(HeadersComplete) in r.events then 0 else n) + if r.live then Announced(before, r.p) else 0
  }

  /** The same after a whole stream. */
  function AnnouncedBy(r: Run, bytes: seq<byte>): nat
    requires RunOk(r)
  {
    hide RunOk, Resting, ReadByte;
    if bytes == [] then 0
    else
      var n := |bytes| - 1;
      var so, mid := AnnouncedBy(r, bytes[..n]), Feed(r, bytes[..n]);
      if !mid.live then so else AnnouncedAfter(so, mid, bytes[n])
  }

  function AnnouncedAfter(n: nat, r: Run, ch: byte): nat
    requires RunOk(r) && r.live
  {
    AnnouncedNext(n, r.p.state, ReadByte(r.p, ch))
  }

  lemma {:induction false} SinceConcat(n: nat, a: seq<Event>, b: seq<Event>)
    ensures Since(n, a + b) == Since(Since(n, a), b)
    decreases |b|
  {
    if b == [] {
      assert a + b == a;
    } else {
      assert (a + b)[..|a + b| - 1] == a + b[..|b| - 1];
      SinceConcat(n, a, b[..|b| - 1]);
    }
  }

  // ---- The balance ----

  /** For the current message: the lengths announced so far and the body bytes delivered. */
  datatype Ledger = Ledger(announced: nat, delivered: nat)

  /** Entering one execution of the switch into the ledger. */
  function Book(l: Ledger, before: State, o: Outcome): Ledger {
    var kept := if o.note == Some(HeadersComplete) then Ledger(0, 0) else l;
    Ledger(kept.announced + Announced(before, o.p), kept.delivered + if BodyLike(before) then 1 else 0)
  }

  /** Header lines after the last chunk. */
  predicate InTrailer(p: Parser) {
    p.flags.trailing && ParsingHeader(p.state) && !ChunkState(p.state) && !BetweenMessages(p.state)
  }

  predicate Balanced(l: Ledger, p: Parser) {
    && (p.state.BodyIdentity? || p.state.ChunkData? ==> l.announced == l.delivered + p.contentLength)
    && (p.state.MessageDone? || p.state.HeadersDone? || (ChunkState(p.state) && !p.state.ChunkData?) || InTrailer(p) ==>
        l.announced == l.delivered)
  }

  // ---- One execution of the switch ----

  /** Away from the body nothing is completed and no body begins. */
  predicate Quiet(p: Parser, o: Outcome) {
    o.exit == Error ||
    (&& o.note != Some(HeadersComplete) && o.note != Some(MessageComplete)
     && !ChunkState(o.p.state) && !BodyLike(o.p.state) && !o.p.state.MessageDone? && !o.p.state.HeadersDone?
     && (InTrailer(o.p) ==> InTrailer(p)))
  }

  lemma QuietStart(p: Parser, ch: byte)
    requires AtSwitch(p) && StartState(p.state)
    ensures Quiet(p, StepStart(p, ch))
  {
    hide Good, AtSwitch, FirstGuess;
  }

  lemma QuietMethod(p: Parser, ch: byte)
    requires AtSwitch(p) && p.state.ReqMethod?
    ensures Quiet(p, StepMethod(p, ch))
  {
    hide Good, AtSwitch;
  }

  lemma QuietName(p: Parser, ch: byte)
    requires AtSwitch(p) && NameState(p.state)
    ensures Quiet(p, StepName(p, ch))
  {
    hide Good, AtSwitch, NameNext;
  }

  lemma QuietMajor(p: Parser, ch: byte)
    requires AtSwitch(p) && MajorState(p.state)
    ensures Quiet(p, StepMajor(p, ch))
  {
    hide Good, AtSwitch;
  }

  lemma QuietMinor(p: Parser, ch: byte)
    requires AtSwitch(p) && MinorState(p.state)
    ensures Quiet(p, StepMinor(p, ch))
  {
    hide Good, AtSwitch;
  }

  lemma QuietLine(p: Parser, ch: byte)
    requires AtSwitch(p) && LineState(p.state)
    ensures Quiet(p, StepLine(p, ch))
  {
    hide Good, AtSwitch;
  }

  lemma QuietUrl(p: Parser, ch: byte)
    requires AtSwitch(p) && (UrlState(p.state) || p.state.ReqSpacesBeforeUrl?)
    ensures Quiet(p, StepUrl(p, ch))
  {
    hide Good, AtSwitch, ParseUrlChar;
  }

  lemma QuietField(p: Parser, ch: byte)
    requires AtSwitch(p) && (p.state.HeaderFieldStart? || p.state.HeaderField?)
    ensures Quiet(p, StepField(p, ch))
  {
    hide Good, AtSwitch, Token, NextInField, NextIndex, FirstOfField, FieldMatching;
  }

  lemma QuietValue(p: Parser, ch: byte)
    requires AtSwitch(p) && p.state.HeaderValue?
    ensures Quiet(p, StepValue(p, ch))
  {
    hide Good, AtSwitch, ValueMatching, Match;
  }

  lemma QuietValueStart(p: Parser, ch: byte)
    requires AtSwitch(p) && p.state.HeaderValueStart?
    ensures Quiet(p, StepValueStart(p, ch))
  {
    hide Good, AtSwitch, ValueMatching;
  }

  lemma QuietLineEnd(p: Parser, ch: byte)
    requires AtSwitch(p) && LineEndState(p.state)
    ensures Quiet(p, StepLineEnd(p, ch))
  {
    hide Good, AtSwitch;
  }

  predicate NearBody(s: State) {
    ChunkState(s) || BodyState(s) || HeadersEndState(s)
  }

  lemma QuietStep(p: Parser, ch: byte)
    requires AtSwitch(p) && !NearBody(p.state)
    ensures Quiet(p, Step(p, ch, 1))
  {
    hide Good, AtSwitch, Quiet;
    hide StepStart, StepMethod, StepName, StepMajor, StepMinor, StepLine, StepUrl, StepField, StepValueStart;
    hide StepValue, StepLineEnd;
    if StartState(p.state) { QuietStart(p, ch); }
    else if p.state.ReqMethod? { QuietMethod(p, ch); }
    else if NameState(p.state) { QuietName(p, ch); }
    else if MajorState(p.state) { QuietMajor(p, ch); }
    else if MinorState(p.state) { QuietMinor(p, ch); }
    else if LineState(p.state) { QuietLine(p, ch); }
    else if UrlState(p.state) || p.state.ReqSpacesBeforeUrl? { QuietUrl(p, ch); }
    else if p.state.HeaderFieldStart? || p.state.HeaderField? { QuietField(p, ch); }
    else if p.state.HeaderValueStart? { QuietValueStart(p, ch); }
    else if p.state.HeaderValue? { QuietValue(p, ch); }
    else { QuietLineEnd(p, ch); }
  }

  /** What an execution of the switch reports is what is entered. */
  lemma BookIsSince(l: Ledger, before: State, o: Outcome, ch: byte)
    requires o.exit != Error && MarksFit(before, o)
    ensures var es := Events(before, o, [ch]);
      && Book(l, before, o).delivered == Since(l.delivered, es)
      && (Notified(HeadersComplete) in es <==> o.note == Some(HeadersComplete))
      && (Notified(MessageComplete) in es <==> o.note == Some(MessageComplete))
      && (o.note == Some(MessageComplete) ==> es == [Notified(MessageComplete)])
  {
    var note: seq<Event> := if o.note.Some? then [Notified(o.note.value)] else [];
    var data := DataEvents(before, o, [ch]);
    assert [] + note == note && data + [] == data;
    assert note != [] ==> note[..0] == [];
    assert data != [] ==> data[..0] == [];
  }

  /** The balance is kept, and where a message is completed it is even. */
  ghost predicate Kept(l: Ledger, o: Outcome) {
    && Balanced(l, o.p)
    && (o.note == Some(MessageComplete) ==>
          l.announced == l.delivered && o.exit != Reexecute && !o.p.state.BodyIdentity? && !o.p.state.ChunkData?)
  }

  /** Every execution of the switch keeps the ledger balanced. */
  lemma BookBalanced(l: Ledger, p: Parser, ch: byte)
    requires AtSwitch(p) && Balanced(l, p) && Step(p, ch, 1).exit != Error
    ensures Kept(Book(l, p.state, Step(p, ch, 1)), Step(p, ch, 1))
  {
    hide AtSwitch, Step, MarksFit, Resting;
    if NearBody(p.state) {
      Cases(p, ch);
      if HeadersEndState(p.state) {
        BookHeadersEnd(l, p, ch);
      } else if ChunkHeadState(p.state) {
        BookChunkHead(l, p, ch);
      } else if ChunkDataState(p.state) {
        BookChunkData(l, p, ch);
      } else {
        BookBody(l, p, ch);
      }
    } else {
      QuietStep(p, ch);
    }
  }

  lemma BookHeadersEnd(l: Ledger, p: Parser, ch: byte)
    requires AtSwitch(p) && Balanced(l, p) && HeadersEndState(p.state)
    ensures var o := StepHeadersEnd(p, ch); o.exit != Error ==> Kept(Book(l, p.state, o), o)
  {
    hide Good, AtSwitch, NeedsEof, ShouldKeepAlive;
  }

  lemma BookChunkHead(l: Ledger, p: Parser, ch: byte)
    requires AtSwitch(p) && Balanced(l, p) && ChunkHeadState(p.state)
    ensures var o := StepChunkHead(p, ch); o.exit != Error ==> Kept(Book(l, p.state, o), o)
  {
    hide Good, AtSwitch, Accumulate, Unhex;
  }

  lemma BookChunkData(l: Ledger, p: Parser, ch: byte)
    requires AtSwitch(p) && Balanced(l, p) && ChunkDataState(p.state)
    ensures var o := StepChunkData(p, ch, 1); o.exit != Error ==> Kept(Book(l, p.state, o), o)
  {
    hide Good;
  }

  lemma BookBody(l: Ledger, p: Parser, ch: byte)
    requires AtSwitch(p) && Balanced(l, p) && BodyState(p.state)
    ensures var o := StepBody(p, 1); o.exit != Error ==> Kept(Book(l, p.state, o), o)
  {
    hide Good, ShouldKeepAlive;
  }

  // ---- A byte ----

  /** What a byte reports, entered all at once. */
  function Entered(l: Ledger, before: State, r: Run): Ledger {
    Ledger(AnnouncedNext(l.announced, before, r), Since(l.delivered, r.events))
  }

  /** A byte that is looked at again does not lead from a body back into it. */
  lemma NotBackToBody(p: Parser, ch: byte)
    requires AtSwitch(p) && Step(p, ch, 1).exit == Reexecute && BodyLike(p.state)
    ensures BetweenMessages(Dispatch(Step(p, ch, 1).p, ch).p.state)
  {
    Cases(p, ch);
    var q := Step(p, ch, 1).p;
    assert q.state.MessageDone?;
    HttpBodies.Done(q, ch);
    HttpBodies.NewMessageIsBetween(q);
  }

  lemma EnteredTwice(l: Ledger, p: Parser, ch: byte)
    requires AtSwitch(p) && Step(p, ch, 1).exit == Reexecute
    ensures var o := Step(p, ch, 1);
      Entered(l, p.state, Dispatch(p, ch)) == Entered(Book(l, p.state, o), o.p.state, Dispatch(o.p, ch))
  {
    hide AtSwitch, Step, Resting, Rank, MarksFit, Events, Since;
    var o := Step(p, ch, 1);
    var d, es := Dispatch(o.p, ch), Events(p.state, o, [ch]);
    BookIsSince(l, p.state, o, ch);
    SinceConcat(l.delivered, es, d.events);
    if BodyLike(p.state) { NotBackToBody(p, ch); }
  }

  ghost predicate CompleteIsLast(es: seq<Event>) {
    forall k :: 0 <= k < |es| - 1 ==> es[k] != Notified(MessageComplete)
  }

  /** After a byte the balance is kept; a message is completed by the last thing reported, and then
      the two sides agree. */
  lemma {:induction false} ByteBalanced(l: Ledger, p: Parser, ch: byte)
    requires AtSwitch(p) && Balanced(l, p)
    ensures var r := Dispatch(p, ch);
      var l' := Entered(l, p.state, r);
      && (r.live ==> Balanced(l', r.p)) && CompleteIsLast(r.events)
      && (Notified(MessageComplete) in r.events ==> l'.announced == l'.delivered)
    decreases Rank(p.state)
  {
    hide AtSwitch, Rank, MarksFit, Resting, Step, Events, Since, Balanced, BodyLike;
    var o := Step(p, ch, 1);
    if o.exit != Error {
      BookBalanced(l, p, ch);
      BookIsSince(l, p.state, o, ch);
      if o.exit == Reexecute {
        EnteredTwice(l, p, ch);
        ByteBalanced(Book(l, p.state, o), o.p, ch);
      }
    }
  }

  // ---- Whole runs ----

  function From(p: Parser): Run { Run(p, [], true) }

  /** The ledger of a stream, made up from what is reported and announced on it alone. */
  function Tally(p: Parser, bytes: seq<byte>): Ledger
    requires Resting(p)
  {
    Ledger(AnnouncedBy(From(p), bytes), Since(0, Feed(From(p), bytes).events))
  }

  lemma CountedAtSwitch(p: Parser)
    requires Resting(p) && (ParsingHeader(p.state) ==> p.nread < MAX_HEADER_SIZE)
    ensures AtSwitch(Counted(p)) && Counted(p).state == p.state
  {
  }

  /** `ByteBalanced`, with the size of the header counted. */
  lemma NextBalanced(l: Ledger, p: Parser, ch: byte)
    requires Resting(p) && Balanced(l, p)
    ensures var r := ReadByte(p, ch);
      var l' := Entered(l, p.state, r);
      && (r.live ==> Balanced(l', r.p)) && CompleteIsLast(r.events)
      && (Notified(MessageComplete) in r.events ==> l'.announced == l'.delivered)
  {
    hide Resting, AtSwitch, Dispatch, Since;
    if !ParsingHeader(p.state) || p.nread < MAX_HEADER_SIZE {
      CountedAtSwitch(p);
      ByteBalanced(l, Counted(p), ch);
    }
  }

  lemma TallySnoc(p: Parser, a: seq<byte>, ch: byte)
    requires Resting(p) && Feed(From(p), a).live
    ensures Tally(p, a + [ch]) == Entered(Tally(p, a), Feed(From(p), a).p.state, ReadByte(Feed(From(p), a).p, ch))
  {
    hide Resting, ReadByte, Feed, Since;
    FeedSnoc(From(p), a, ch);
    SinceConcat(0, Feed(From(p), a).events, ReadByte(Feed(From(p), a).p, ch).events);
    assert (a + [ch])[..|a|] == a;
  }

  /** Over every stream the ledger stays balanced. */
  lemma {:induction false} RunBalanced(p: Parser, bytes: seq<byte>)
    requires Resting(p) && BetweenMessages(p.state)
    ensures Feed(From(p), bytes).live ==> Balanced(Tally(p, bytes), Feed(From(p), bytes).p)
  {
    hide Resting, ReadByte, Since, Tally, Entered, ParsingHeader;
    if bytes == [] {
      assert ChunkState(p.state) ==> false;
    } else if Feed(From(p), bytes).live {
      var n := |bytes| - 1;
      var mid := Feed(From(p), bytes[..n]);
      RunBalanced(p, bytes[..n]);
      assert bytes == bytes[..n] + [bytes[n]];
      TallySnoc(p, bytes[..n], bytes[n]);
      NextBalanced(Tally(p, bytes[..n]), mid.p, bytes[n]);
    }
  }

  /** The reports up to the `k`-th are those of the first `i` bytes, and the body bytes among them
      since the headers were complete are as many as the lengths announced since then. */
  ghost predicate AddsUp(p: Parser, bytes: seq<byte>, k: nat, i: nat)
    requires Resting(p)
  {
    hide Resting;
    var es := Feed(From(p), bytes).events;
    && k < |es| && i <= |bytes|
    && Feed(From(p), bytes[..i]).events == es[..k + 1]
    && Since(0, es[..k + 1]) == AnnouncedBy(From(p), bytes[..i])
  }

  /** On every stream, wherever a message is reported complete, its body adds up. */
  lemma {:induction false} BodiesAddUp(p: Parser, bytes: seq<byte>, k: nat)
    requires Resting(p) && BetweenMessages(p.state)
    requires var es := Feed(From(p), bytes).events; k < |es| && es[k] == Notified(MessageComplete)
    ensures exists i: nat :: AddsUp(p, bytes, k, i)
  {
    hide Resting, ReadByte, Since, Balanced, AnnouncedBy;
    var n := |bytes| - 1;
    var a, ch := bytes[..n], bytes[n];
    var mid := Feed(From(p), a);
    if k < |mid.events| {
      BodiesAddUp(p, a, k);
      var i: nat :| AddsUp(p, a, k, i);
      assert a[..i] == bytes[..i];
      assert mid.events[..k + 1] == Feed(From(p), bytes).events[..k + 1];
      assert AddsUp(p, bytes, k, i);
    } else {
      assert bytes == a + [ch] && bytes[..|bytes|] == bytes;
      TallySnoc(p, a, ch);
      RunBalanced(p, a);
      NextBalanced(Tally(p, a), mid.p, ch);
      var es := Feed(From(p), bytes).events;
      assert ReadByte(mid.p, ch).events[k - |mid.events|] == Notified(MessageComplete);
      assert k == |es| - 1 && es[..k + 1] == es;
      assert AddsUp(p, bytes, k, |bytes|);
    }
  }
}
