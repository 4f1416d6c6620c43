/** Header fields, line by line: every name and value is delivered, and only the fields that say
    so decide how long the message is. */
module HttpFields {
  import opened Bytes
  import opened HttpTypes
  import opened HttpStep
  import opened HttpSpec
  import opened HttpHeaders
  import HttpLines
  import HttpNumbers
  import HttpBodies

  const COLON: byte := 58

  /** A line: name, colon, blanks, value, end of line. */
  datatype Field = Field(name: seq<byte>, lead: seq<byte>, value: seq<byte>)

  function Line(f: Field): seq<byte> {
    f.name + ([COLON] + (f.lead + (f.value + ([CR] + [LF]))))
  }

  predicate IsBlank(s: seq<byte>) {
    forall k :: 0 <= k < |s| ==> s[k] == SP || s[k] == HT
  }

  predicate IsName(name: seq<byte>) {
    name != [] && forall k :: 0 <= k < |name| ==> Token(name[k]) != 0
  }

  /** No line end in it, and it does not begin with a blank. */
  predicate IsValue(v: seq<byte>) {
    CR !in v && LF !in v && (v != [] ==> v[0] != SP && v[0] != HT)
  }

  predicate IsField(f: Field) {
    IsName(f.name) && IsBlank(f.lead) && IsValue(f.value)
  }

  predicate Named(f: Field, w: string) {
    Spells(Tokens(f.name), w)
  }

  /** A field that has nothing to do with the length of the message. */
  predicate IsOther(f: Field) {
    IsField(f) && !Named(f, CONTENT_LENGTH) && !Named(f, TRANSFER_ENCODING) && !Named(f, UPGRADE)
  }

  function FieldEvents(f: Field): seq<Event> {
    Tagged(HttpStep.Field, f.name) + Tagged(Value, f.value)
  }

  /** Two pieces, of which both may be reported on. */
  lemma Follow(p: Parser, a: seq<byte>, q: Parser, es: seq<Event>, b: seq<byte>)
    requires Resting(p) && Feed(Run(p, [], true), a) == Run(q, es, true)
    ensures Feed(Run(p, [], true), a + b) == After(es, Feed(Run(q, [], true), b))
  {
    hide Feed, Resting;
    FeedConcat(Run(p, [], true), a, b);
    FeedEvents(q, es, b);
  }

  // ---- The start of a line ----

  /** Between two lines the parser waits whether the value goes on. */
  predicate LineStarts(s: State) {
    s.HeaderFieldStart? || s.HeaderValueLws?
  }

  function Fresh(p: Parser): Parser {
    p.(state := HeaderFieldStart)
  }

  lemma LooksAgain(q: Parser, ch: byte)
    requires AtSwitch(q) && q.state.HeaderValueLws? && ch != SP && ch != HT
    ensures AtSwitch(Fresh(q)) && Step(q, ch, 1) == Outcome(Fresh(q), None, None, None, Reexecute, 1)
  {
    Cases(q, ch);
    assert StepLineEnd(q, ch) == Outcome(Fresh(q), None, None, None, Reexecute, 1) by { hide Good, AtSwitch; }
    hide Step, StepLineEnd;
  }

  lemma NothingSaid(q: Parser, ch: byte)
    requires q.state.HeaderValueLws?
    ensures Events(q.state, Outcome(Fresh(q), None, None, None, Reexecute, 1), [ch]) == []
  {
  }

  lemma FreshRests(p: Parser)
    requires Resting(p) && LineStarts(p.state)
    ensures Resting(Fresh(p)) && AtSwitch(Next(p)) && AtSwitch(Next(Fresh(p)))
  {
  }

  lemma ReadIsDispatch(p: Parser, ch: byte)
    requires Resting(p) && ParsingHeader(p.state) && p.nread < MAX_HEADER_SIZE
    ensures AtSwitch(Next(p)) && ReadByte(p, ch) == Dispatch(Next(p), ch)
  {
    hide Dispatch;
  }

  /** A byte that is not a blank begins a new line. */
  lemma FreshByte(p: Parser, ch: byte)
    requires Resting(p) && LineStarts(p.state) && p.nread < MAX_HEADER_SIZE && ch != SP && ch != HT
    ensures Resting(Fresh(p)) && ReadByte(p, ch) == ReadByte(Fresh(p), ch)
  {
    hide Step, AtSwitch, Resting, MarksFit, ReadByte, Dispatch, Events;
    FreshRests(p);
    if p.state.HeaderValueLws? {
      ReadIsDispatch(p, ch);
      ReadIsDispatch(Fresh(p), ch);
      LooksAgain(Next(p), ch);
      NothingSaid(Next(p), ch);
      DispatchOnce(Next(p), ch, []);
      var d := Dispatch(Next(p), ch);
      var none: seq<Event> := [];
      assert none + d.events == d.events && none + none == none;
      assert none + Dispatch(Next(Fresh(p)), ch).events == Dispatch(Next(Fresh(p)), ch).events;
    }
  }

  lemma FreshLine(p: Parser, s: seq<byte>)
    requires Resting(p) && LineStarts(p.state) && p.nread < MAX_HEADER_SIZE && s != [] && s[0] != SP && s[0] != HT
    ensures Resting(Fresh(p)) && Feed(Run(p, [], true), s) == Feed(Run(Fresh(p), [], true), s)
  {
    hide Resting, ReadByte, Feed;
    FreshByte(p, s[0]);
    assert s == [s[0]] + s[1..];
    HttpLines.FeedByte(p, s[0]);
    HttpLines.FeedByte(Fresh(p), s[0]);
    FeedConcat(Run(p, [], true), [s[0]], s[1..]);
    FeedConcat(Run(Fresh(p), [], true), [s[0]], s[1..]);
  }

  // ---- Name, colon, blanks ----

  lemma ColonOutcome(q: Parser)
    requires AtSwitch(q) && q.state.HeaderField?
    ensures StepField(q, COLON) == Outcome(q.(state := HeaderValueStart), None, Some(HttpStep.Field), None, Break, 1)
  {
    assert Token(COLON) == 0;
    hide Good, AtSwitch, Token;
  }

  lemma ReadColon(p: Parser)
    requires Resting(p) && p.state.HeaderField? && p.nread < MAX_HEADER_SIZE
    ensures ReadByte(p, COLON) == Run(Next(p).(state := HeaderValueStart), [], true)
  {
    hide Step, StepField, AtSwitch, Resting, ReadByte;
    NextAtSwitch(p);
    Cases(Next(p), COLON);
    ColonOutcome(Next(p));
    ReadOnce(p, COLON, StepField(Next(p), COLON));
  }

  lemma BlankOutcome(q: Parser, ch: byte)
    requires AtSwitch(q) && q.state.HeaderValueStart? && (ch == SP || ch == HT)
    ensures StepValueStart(q, ch) == Outcome(q, None, None, None, Break, 1)
  {
    hide Good, AtSwitch;
  }

  lemma ReadBlank(p: Parser, ch: byte)
    requires Resting(p) && p.state.HeaderValueStart? && p.nread < MAX_HEADER_SIZE && (ch == SP || ch == HT)
    ensures ReadByte(p, ch) == Run(Next(p), [], true)
  {
    hide Step, StepValueStart, AtSwitch, Resting, ReadByte;
    NextAtSwitch(p);
    Cases(Next(p), ch);
    BlankOutcome(Next(p), ch);
    ReadOnce(p, ch, StepValueStart(Next(p), ch));
  }

  lemma {:induction false} ReadLead(p: Parser, lead: seq<byte>)
    requires Resting(p) && p.state.HeaderValueStart? && IsBlank(lead) && p.nread + |lead| <= MAX_HEADER_SIZE
    ensures Feed(Run(p, [], true), lead) == Run(p.(nread := p.nread + |lead|), [], true)
  {
    hide Resting, ReadByte;
    if lead != [] {
      var n := |lead| - 1;
      ReadLead(p, lead[..n]);
      ReadBlank(Feed(Run(p, [], true), lead[..n]).p, lead[n]);
    }
  }

  /** Up to the value: the name has been delivered and decides how the value is read. */
  lemma ReadUpToValue(p: Parser, f: Field)
    requires Resting(p) && p.state.HeaderFieldStart? && IsField(f)
    requires p.nread + |f.name| + 1 + |f.lead| <= MAX_HEADER_SIZE
    ensures var r := Feed(Run(p, [], true), f.name + ([COLON] + f.lead));
      && r.live && r.events == Tagged(HttpStep.Field, f.name) && r.p.headerState == Classified(Tokens(f.name))
      && r.p.state.HeaderValueStart? && SameButName(p.(nread := p.nread + |f.name| + 1 + |f.lead|), r.p)
  {
    hide Resting, ReadByte, Feed, Tagged, Token, IsBlank, IsValue;
    ReadName(p, f.name);
    var r := Feed(Run(p, [], true), f.name);
    ReadColon(r.p);
    HttpLines.FeedByte(r.p, COLON);
    var q := ReadByte(r.p, COLON).p;
    ReadLead(q, f.lead);
    HttpLines.Chain(r.p, [COLON], q, f.lead);
    Follow(p, f.name, r.p, r.events, [COLON] + f.lead);
    assert r.events + [] == r.events;
  }

  // ---- The end of a line ----

  /** What the end of a line does. */
  function LineRead(p: Parser): Parser {
    var f := if p.headerState.ConnectionKeepAlive? then p.flags.(keepAlive := true)
      else if p.headerState.ConnectionClose? then p.flags.(close := true)
      else if p.headerState.TransferEncodingChunked? then p.flags.(chunked := true)
      else p.flags;
    p.(flags := f, state := HeaderValueLws)
  }

  lemma LineFeedOutcome(q: Parser)
    requires AtSwitch(q) && q.state.HeaderAlmostDone?
    ensures StepLineEnd(q, LF) == Outcome(LineRead(q), None, None, None, Break, 1)
  {
    hide Good, AtSwitch;
  }

  lemma ReadLineFeed(p: Parser)
    requires Resting(p) && p.state.HeaderAlmostDone? && p.nread < MAX_HEADER_SIZE
    ensures ReadByte(p, LF) == Run(LineRead(Next(p)), [], true)
  {
    hide Step, StepLineEnd, AtSwitch, Resting, ReadByte;
    NextAtSwitch(p);
    Cases(Next(p), LF);
    LineFeedOutcome(Next(p));
    ReadOnce(p, LF, StepLineEnd(Next(p), LF));
  }

  lemma CrOutcome(q: Parser)
    requires AtSwitch(q)
    ensures var r := q.(state := HeaderAlmostDone);
      && (q.state.HeaderValue? ==> StepValue(q, CR) == Outcome(r, None, Some(Value), None, Break, 1))
      && (q.state.HeaderValueStart? ==>
        StepValueStart(q, CR) ==
          Outcome(r.(index := 0, headerState := General), Some(Value), Some(Value), None, Break, 1))
  {
    hide Good, AtSwitch;
  }

  /** The end of a line after a value, which may be empty. */
  lemma ReadEndOfLine(p: Parser)
    requires Resting(p) && (p.state.HeaderValue? || p.state.HeaderValueStart?) && p.nread + 2 <= MAX_HEADER_SIZE
    ensures Feed(Run(p, [], true), [CR] + [LF]) == Run(LineRead(p.(nread := p.nread + 2,
      index := if p.state.HeaderValue? then p.index else 0,
      headerState := if p.state.HeaderValue? then p.headerState else General)), [], true)
  {
    hide Step, StepValue, StepValueStart, AtSwitch, Resting, ReadByte, Feed;
    NextAtSwitch(p);
    Cases(Next(p), CR);
    CrOutcome(Next(p));
    ReadOnce(p, CR, Step(Next(p), CR, 1));
    HttpLines.FeedByte(p, CR);
    var q := ReadByte(p, CR).p;
    ReadLineFeed(q);
    HttpLines.FeedByte(q, LF);
    HttpLines.Chain(p, [CR], q, [LF]);
  }

  /** A Transfer-Encoding makes a message chunked if and only if its value is "chunked". */
  lemma ChunkedIsRecognised(p: Parser, v: seq<byte>)
    requires Resting(p) && p.state.HeaderValueStart? && p.headerState.TransferEncoding?
    requires v != [] && IsValue(v) && p.nread + |v| + 2 <= MAX_HEADER_SIZE
    ensures var r := Feed(Run(p, [], true), v + ([CR] + [LF]));
      && r.live && r.events == Tagged(Value, v) && r.p.state.HeaderValueLws?
      && r.p.flags == p.flags.(chunked := p.flags.chunked || IsChunked(v))
  {
    hide Resting, ReadByte, Tagged, Feed;
    ReadValue(p, v);
    ValueIs(v);
    hide IsChunked;
    var r := Feed(Run(p, [], true), v);
    ReadEndOfLine(r.p);
    Follow(p, v, r.p, r.events, [CR] + [LF]);
    assert r.events + [] == r.events;
  }

  // ---- Values of other fields ----

  predicate Loose(h: HeaderState) {
    h.General? || h.MatchingConnectionKeepAlive? || h.MatchingConnectionClose? || h.ConnectionKeepAlive?
      || h.ConnectionClose?
  }

  predicate Deciding(h: HeaderState) {
    h.ContentLength? || h.TransferEncoding? || h.Upgrade?
  }

  lemma OtherOutcome(q: Parser, ch: byte)
    requires AtSwitch(q) && ch != CR && ch != LF
    requires (q.state.HeaderValueStart? && !Deciding(q.headerState) && ch != SP && ch != HT)
      || (q.state.HeaderValue? && Loose(q.headerState))
    ensures var o := if q.state.HeaderValueStart? then StepValueStart(q, ch) else StepValue(q, ch);
      && o.exit == Break && o.note.None? && o.p.state.HeaderValue? && Loose(o.p.headerState) && SameButName(q, o.p)
  {
    hide Good, AtSwitch, ValueMatching, Lower;
    MatchGives(KEEP_ALIVE, q.index + 1, Lower(ch) as int, MatchingConnectionKeepAlive, ConnectionKeepAlive);
    MatchGives(CLOSE, q.index + 1, Lower(ch) as int, MatchingConnectionClose, ConnectionClose);
    hide Match;
  }

  lemma OtherByte(p: Parser, ch: byte)
    requires Resting(p) && p.nread < MAX_HEADER_SIZE && ch != CR && ch != LF
    requires (p.state.HeaderValueStart? && !Deciding(p.headerState) && ch != SP && ch != HT)
      || (p.state.HeaderValue? && Loose(p.headerState))
    ensures var r := ReadByte(p, ch);
      && r.live && r.events == [Delivered(Value, ch)] && r.p.state.HeaderValue? && Loose(r.p.headerState)
      && SameButName(Next(p), r.p)
  {
    hide Step, StepValueStart, StepValue, AtSwitch, Resting, ReadByte;
    NextAtSwitch(p);
    Cases(Next(p), ch);
    OtherOutcome(Next(p), ch);
    ReadOnce(p, ch, Step(Next(p), ch, 1));
  }

  lemma {:induction false} ReadOtherValue(p: Parser, v: seq<byte>)
    requires Resting(p) && p.state.HeaderValueStart? && !Deciding(p.headerState) && IsValue(v)
    requires p.nread + |v| <= MAX_HEADER_SIZE
    ensures var r := Feed(Run(p, [], true), v);
      && r.live && r.events == Tagged(Value, v) && SameButName(p.(nread := p.nread + |v|), r.p)
      && if v == [] then r.p == p else r.p.state.HeaderValue? && Loose(r.p.headerState)
  {
    hide Resting, ReadByte;
    if v != [] {
      var n := |v| - 1;
      assert v[n] in v;
      TaggedSnoc(Value, v);
      ReadOtherValue(p, v[..n]);
      OtherByte(Feed(Run(p, [], true), v[..n]).p, v[n]);
    }
  }

  /** All that another field may change. */
  predicate Neutral(p: Parser, q: Parser) {
    SameButName(p.(flags := p.flags.(keepAlive := q.flags.keepAlive, close := q.flags.close)), q)
  }

  /** Regrouping a line around its value. */
  lemma LineIs(f: Field)
    ensures Line(f) == (f.name + ([COLON] + f.lead)) + (f.value + ([CR] + [LF]))
  {
  }

  lemma NotDeciding(f: Field)
    requires IsOther(f)
    ensures !Deciding(Classified(Tokens(f.name)))
  {
    ClassifiedAsKnown(Tokens(f.name));
  }

  /** A field that does not decide the length is delivered and leaves everything else alone. */
  lemma ReadOther(p: Parser, f: Field)
    requires Resting(p) && p.state.HeaderFieldStart? && IsOther(f) && p.nread + |Line(f)| <= MAX_HEADER_SIZE
    ensures var r := Feed(Run(p, [], true), Line(f));
      && r.live && r.events == FieldEvents(f) && r.p.state.HeaderValueLws?
      && Neutral(p.(nread := p.nread + |Line(f)|), r.p)
  {
    hide Resting, ReadByte, Feed, Tagged, Classified, Tokens, Named, IsName, IsBlank, IsValue;
    NotDeciding(f);
    LineIs(f);
    ReadUpToValue(p, f);
    var r := Feed(Run(p, [], true), f.name + ([COLON] + f.lead));
    ReadOtherValue(r.p, f.value);
    var t := Feed(Run(r.p, [], true), f.value);
    ReadEndOfLine(t.p);
    Follow(r.p, f.value, t.p, t.events, [CR] + [LF]);
    Follow(p, f.name + ([COLON] + f.lead), r.p, r.events, f.value + ([CR] + [LF]));
    assert t.events + [] == t.events;
  }

  // ---- Several fields ----

  function Lines(fs: seq<Field>): seq<byte> {
    if fs == [] then [] else Line(fs[0]) + Lines(fs[1..])
  }

  function AllEvents(fs: seq<Field>): seq<Event> {
    if fs == [] then [] else FieldEvents(fs[0]) + AllEvents(fs[1..])
  }

  lemma LineStart(f: Field, rest: seq<byte>)
    requires IsField(f)
    ensures var s := Line(f) + rest; s != [] && s[0] != SP && s[0] != HT
  {
    TokenIsNot(f.name[0]);
    assert Token(HT) == 0;
  }

  /** Fields that do not decide the length are all delivered, in order. */
  lemma {:induction false} ReadOthers(p: Parser, fs: seq<Field>)
    requires Resting(p) && LineStarts(p.state) && (forall k :: 0 <= k < |fs| ==> IsOther(fs[k]))
    requires p.nread + |Lines(fs)| <= MAX_HEADER_SIZE
    ensures var r := Feed(Run(p, [], true), Lines(fs));
      && r.live && r.events == AllEvents(fs) && LineStarts(r.p.state)
      && Neutral(p.(nread := p.nread + |Lines(fs)|), r.p)
    decreases |fs|
  {
    hide Resting, Feed, Line, FieldEvents, IsOther;
    if fs == [] {
      FeedNothing(Run(p, [], true));
    } else {
      var rest := Lines(fs[1..]);
      assert IsField(fs[0]) by { OtherIsField(fs[0]); }
      LineStart(fs[0], rest);
      FreshLine(p, Line(fs[0]) + rest);
      ReadOther(Fresh(p), fs[0]);
      var r := Feed(Run(Fresh(p), [], true), Line(fs[0]));
      ReadOthers(r.p, fs[1..]);
      Follow(Fresh(p), Line(fs[0]), r.p, r.events, rest);
    }
  }

  lemma OtherIsField(f: Field)
    requires IsOther(f)
    ensures IsField(f)
  {
  }

  // ---- The length of the body ----

  /** Digits, and spaces that the parser passes over. */
  predicate IsLength(v: seq<byte>) {
    v != [] && IsNum(v[0]) && forall k :: 0 <= k < |v| ==> IsNum(v[k]) || v[k] == SP
  }

  /** The content length after one more character, if it still fits. */
  function LengthAfter(q: Parser, ch: byte): Option<nat>
    requires IsNum(ch) || (ch == SP && q.state.HeaderValue?)
  {
    if q.state.HeaderValueStart? then Some(Digit(ch))
    else if ch == SP then Some(q.contentLength)
    else Accumulate(q.contentLength, 10, Digit(ch))
  }

  lemma LengthOutcome(q: Parser, ch: byte)
    requires AtSwitch(q) && q.headerState.ContentLength? && (q.state.HeaderValueStart? || q.state.HeaderValue?)
    requires IsNum(ch) || (ch == SP && q.state.HeaderValue?)
    ensures var t := LengthAfter(q, ch);
      var o := if q.state.HeaderValueStart? then StepValueStart(q, ch) else StepValue(q, ch);
      t.Some? ==>
        && o.exit == Break && o.note.None? && o.p.state.HeaderValue? && o.p.headerState.ContentLength?
        && SameButName(q.(contentLength := t.value), o.p)
  {
    hide Good, AtSwitch, ValueMatching, Accumulate, Lower;
  }

  lemma LengthByte(p: Parser, ch: byte)
    requires Resting(p) && p.headerState.ContentLength? && p.nread < MAX_HEADER_SIZE
    requires (p.state.HeaderValueStart? && IsNum(ch)) || (p.state.HeaderValue? && (IsNum(ch) || ch == SP))
    ensures var t := LengthAfter(p, ch);
      t.Some? ==>
        var r := ReadByte(p, ch);
        && r.live && r.events == [Delivered(Value, ch)] && r.p.state.HeaderValue? && r.p.headerState.ContentLength?
        && SameButName(Next(p).(contentLength := t.value), r.p)
  {
    hide Step, StepValueStart, StepValue, AtSwitch, Resting, ReadByte, Accumulate;
    NextAtSwitch(p);
    Cases(Next(p), ch);
    LengthOutcome(Next(p), ch);
    if LengthAfter(p, ch).Some? {
      ReadOnce(p, ch, Step(Next(p), ch, 1));
    }
  }

  lemma LengthBefore(v: seq<byte>)
    requires IsLength(v)
    ensures var n := |v| - 1;
      && (n > 0 ==> IsLength(v[..n]) && HttpNumbers.Decimal(v[..n]) <= HttpNumbers.Decimal(v))
      && (n > 0 && v[n] == SP ==> HttpNumbers.Decimal(v) == HttpNumbers.Decimal(v[..n]))
      && (n > 0 && IsNum(v[n]) ==> HttpNumbers.Decimal(v) == HttpNumbers.Decimal(v[..n]) * 10 + Digit(v[n]))
      && (n == 0 ==> HttpNumbers.Decimal(v) == Digit(v[0]))
  {
    if |v| == 1 { assert v[..0] == []; }
  }

  lemma {:induction false} ReadLength(p: Parser, v: seq<byte>)
    requires Resting(p) && p.state.HeaderValueStart? && p.headerState.ContentLength? && p.nread + |v| <= MAX_HEADER_SIZE
    requires IsLength(v) && HttpNumbers.Decimal(v) < ULLONG_MAX
    ensures var r := Feed(Run(p, [], true), v);
      && r.live && r.events == Tagged(Value, v) && r.p.state.HeaderValue? && r.p.headerState.ContentLength?
      && SameButName(p.(nread := p.nread + |v|, contentLength := HttpNumbers.Decimal(v)), r.p)
  {
    hide Resting, ReadByte, Accumulate;
    var n := |v| - 1;
    TaggedSnoc(Value, v);
    LengthBefore(v);
    hide HttpNumbers.Decimal;
    if n == 0 {
      assert v[..0] == [] && Tagged(Value, v[..0]) == [];
      LengthByte(p, v[0]);
    } else {
      ReadLength(p, v[..n]);
      var r := Feed(Run(p, [], true), v[..n]);
      if v[n] != SP { HttpNumbers.AccumulateExact(r.p.contentLength, 10, Digit(v[n])); }
      LengthByte(r.p, v[n]);
    }
  }

  /** A Content-Length that fits 64 bits. */
  predicate IsLengthField(f: Field) {
    IsField(f) && Named(f, CONTENT_LENGTH) && IsLength(f.value) && HttpNumbers.Decimal(f.value) < ULLONG_MAX
  }

  /** A Transfer-Encoding that makes the message chunked. */
  predicate IsChunkedField(f: Field) {
    IsField(f) && Named(f, TRANSFER_ENCODING) && IsChunked(f.value)
  }

  lemma ReadLengthField(p: Parser, f: Field)
    requires Resting(p) && p.state.HeaderFieldStart? && IsLengthField(f) && p.nread + |Line(f)| <= MAX_HEADER_SIZE
    ensures var r := Feed(Run(p, [], true), Line(f));
      && r.live && r.events == FieldEvents(f) && r.p.state.HeaderValueLws?
      && Neutral(p.(nread := p.nread + |Line(f)|, contentLength := HttpNumbers.Decimal(f.value)), r.p)
  {
    hide Resting, ReadByte, Feed, Tagged, HttpNumbers.Decimal, IsName, IsBlank, IsValue, IsLength;
    ClassifiedAsKnown(Tokens(f.name));
    hide Classified, Tokens, Spells;
    LineIs(f);
    ReadUpToValue(p, f);
    var r := Feed(Run(p, [], true), f.name + ([COLON] + f.lead));
    ReadLength(r.p, f.value);
    var t := Feed(Run(r.p, [], true), f.value);
    ReadEndOfLine(t.p);
    Follow(r.p, f.value, t.p, t.events, [CR] + [LF]);
    Follow(p, f.name + ([COLON] + f.lead), r.p, r.events, f.value + ([CR] + [LF]));
    assert t.events + [] == t.events;
  }

  lemma ReadChunkedField(p: Parser, f: Field)
    requires Resting(p) && p.state.HeaderFieldStart? && IsChunkedField(f) && p.nread + |Line(f)| <= MAX_HEADER_SIZE
    ensures var r := Feed(Run(p, [], true), Line(f));
      && r.live && r.events == FieldEvents(f) && r.p.state.HeaderValueLws?
      && Neutral(p.(nread := p.nread + |Line(f)|, flags := p.flags.(chunked := true)), r.p)
  {
    hide Resting, ReadByte, Feed, Tagged, IsName, IsBlank;
    ClassifiedAsKnown(Tokens(f.name));
    hide Classified, Tokens, Spells;
    LineIs(f);
    ReadUpToValue(p, f);
    var r := Feed(Run(p, [], true), f.name + ([COLON] + f.lead));
    ReadValue(r.p, f.value);
    hide IsChunked, IsValue;
    var t := Feed(Run(r.p, [], true), f.value);
    ReadEndOfLine(t.p);
    Follow(r.p, f.value, t.p, t.events, [CR] + [LF]);
    Follow(p, f.name + ([COLON] + f.lead), r.p, r.events, f.value + ([CR] + [LF]));
    assert t.events + [] == t.events;
  }

  // ---- The end of the headers ----

  /** Neither trailers nor a hand-over. */
  predicate Going(p: Parser) {
    !p.flags.trailing && !p.flags.upgrade && !p.flags.skipBody && p.meth != M_CONNECT
  }

  /** No body follows the headers: its length is 0, or there is none for such a message. */
  predicate NoBody(p: Parser) {
    !p.flags.chunked && (p.contentLength == 0 || (p.contentLength == ULLONG_MAX && !NeedsEof(p)))
  }

  /** Where the body begins: in chunks, with its length known, or up to the end of the connection. */
  function BodyStart(p: Parser): State {
    if p.flags.chunked then ChunkSizeStart else if p.contentLength != ULLONG_MAX then BodyIdentity else BodyIdentityEof
  }

  function AfterHeaders(p: Parser): Parser {
    p.(nread := 0, state := if NoBody(p) then NewMessage(p) else BodyStart(p))
  }

  function EndEvents(p: Parser): seq<Event> {
    [Notified(HeadersComplete)] + if NoBody(p) then [Notified(MessageComplete)] else []
  }

  lemma CompleteOutcome(q: Parser)
    requires AtSwitch(q) && q.state.HeadersAlmostDone? && Going(q)
    ensures !q.upgrade
    ensures StepHeadersEnd(q, LF) == Outcome(q.(state := HeadersDone), None, None, Some(HeadersComplete), Reexecute, 1)
  {
    assert !q.upgrade;
    hide Good, AtSwitch;
  }

  lemma DoneOutcome(q: Parser)
    requires AtSwitch(q) && q.state.HeadersDone? && Going(q) && !q.upgrade
    ensures StepHeadersEnd(q, LF) ==
      Outcome(AfterHeaders(q), None, None, if NoBody(q) then Some(MessageComplete) else None, Break, 1)
  {
    SameNews(q);
    hide Good, AtSwitch, NewMessage;
  }

  /** What comes after a message does not depend on where the parser is. */
  lemma SameNews(q: Parser)
    ensures NewMessage(q.(nread := 0)) == NewMessage(q)
    ensures forall s :: NewMessage(q.(state := s)) == NewMessage(q)
  {
  }

  lemma CompleteSaid(q: Parser)
    requires q.state.HeadersAlmostDone?
    ensures Events(q.state, Outcome(q.(state := HeadersDone), None, None, Some(HeadersComplete), Reexecute, 1), [LF])
      == [Notified(HeadersComplete)]
  {
  }

  lemma SameNext(p: Parser)
    ensures NewMessage(Next(p)) == NewMessage(p) && NoBody(Next(p)) == NoBody(p)
    ensures NoBody(Next(p).(state := HeadersDone)) == NoBody(p)
  {
  }

  lemma BodyHolds(q: Parser)
    ensures Holds(BodyStart(q)).None? && Holds(NewMessage(q)).None?
  {
    hide ShouldKeepAlive;
  }

  lemma CompleteByte(p: Parser)
    requires Resting(p) && p.state.HeadersAlmostDone? && Going(p) && p.nread < MAX_HEADER_SIZE
    ensures ReadByte(p, LF) == Run(AfterHeaders(p), EndEvents(p), true)
  {
    hide Step, StepHeadersEnd, AtSwitch, Resting, ReadByte, Dispatch, Events, MarksFit, NewMessage;
    var q := Next(p);
    SameNews(p);
    SameNews(q);
    SameNext(p);
    ReadIsDispatch(p, LF);
    Cases(q, LF);
    CompleteOutcome(q);
    var q1 := q.(state := HeadersDone);
    assert AtSwitch(q1);
    Cases(q1, LF);
    DoneOutcome(q1);
    BodyHolds(q1);
    HttpBodies.NewMessageIsBetween(q1);
    LookedAtOnce(q1, LF, StepHeadersEnd(q1, LF));
    DispatchOnce(q, LF, []);
    CompleteSaid(q);
    var none: seq<Event> := [];
    assert none + Dispatch(q, LF).events == Dispatch(q, LF).events;
  }

  /** The empty line after the headers. */
  lemma ReadHeadersEnd(p: Parser)
    requires Resting(p) && LineStarts(p.state) && Going(p) && p.nread + 2 <= MAX_HEADER_SIZE
    ensures Feed(Run(p, [], true), [CR] + [LF]) == Run(AfterHeaders(p), EndEvents(p), true)
  {
    hide Resting, ReadByte, Feed, NewMessage;
    SameNews(p);
    FreshLine(p, [CR] + [LF]);
    var q := Fresh(p);
    HttpBodies.NoMoreFields(q);
    HttpLines.FeedByte(q, CR);
    var r := ReadByte(q, CR).p;
    CompleteByte(r);
    SameNews(Next(q));
    SameNext(q);
    HttpLines.FeedByte(r, LF);
    HttpLines.Chain(q, [CR], r, [LF]);
  }

  // ---- Whole headers ----

  /** Fields before and after the one that decides, and the empty line. */
  function HeadersOf(before: seq<Field>, f: Field, after: seq<Field>): seq<byte> {
    Lines(before) + (Line(f) + (Lines(after) + ([CR] + [LF])))
  }

  function HeaderEvents(before: seq<Field>, f: Field, after: seq<Field>): seq<Event> {
    AllEvents(before) + (FieldEvents(f) + (AllEvents(after) + [Notified(HeadersComplete)]))
  }

  predicate AllOther(fs: seq<Field>) {
    forall k :: 0 <= k < |fs| ==> IsOther(fs[k])
  }

  /** The parser before the headers of a message of its own. */
  predicate BeforeHeaders(p: Parser) {
    Resting(p) && LineStarts(p.state) && p.flags == NO_FLAGS && p.meth != M_CONNECT
  }

  /** After what decides, the remaining fields and the empty line lead to the body or the end. */
  lemma ReadAfter(p: Parser, after: seq<Field>)
    requires Resting(p) && LineStarts(p.state) && Going(p) && AllOther(after)
    requires p.nread + |Lines(after)| + 2 <= MAX_HEADER_SIZE
    ensures var r := Feed(Run(p, [], true), Lines(after) + ([CR] + [LF]));
      && r.live && r.events == AllEvents(after) + EndEvents(p) && r.p.contentLength == p.contentLength
      && if NoBody(p) then BetweenMessages(r.p.state) else r.p.state == BodyStart(p)
  {
    hide Resting, Feed, Lines, AllEvents, IsOther, NewMessage;
    ReadOthers(p, after);
    var r := Feed(Run(p, [], true), Lines(after));
    ReadHeadersEnd(r.p);
    HttpBodies.NewMessageIsBetween(r.p);
    Follow(p, Lines(after), r.p, r.events, [CR] + [LF]);
  }

  /** Headers with one Content-Length lead to a body of that length, or to the end of the message if
      it is 0; every field is delivered. */
  lemma ReadLengthHeaders(p: Parser, before: seq<Field>, f: Field, after: seq<Field>)
    requires BeforeHeaders(p) && AllOther(before) && IsLengthField(f) && AllOther(after)
    requires p.nread + |HeadersOf(before, f, after)| <= MAX_HEADER_SIZE
    ensures var r := Feed(Run(p, [], true), HeadersOf(before, f, after));
      var n := HttpNumbers.Decimal(f.value);
      && r.live && r.p.contentLength == n
      && r.events == HeaderEvents(before, f, after) + (if n == 0 then [Notified(MessageComplete)] else [])
      && if n == 0 then BetweenMessages(r.p.state) else r.p.state.BodyIdentity?
  {
    hide Resting, Feed, Lines, Line, AllEvents, FieldEvents, IsOther, IsLength, HttpNumbers.Decimal, IsField;
    var last := Lines(after) + ([CR] + [LF]);
    ReadOthers(p, before);
    var r1 := Feed(Run(p, [], true), Lines(before));
    LineStart(f, []);
    LineStart(f, last);
    FreshLine(r1.p, Line(f) + last);
    ReadLengthField(Fresh(r1.p), f);
    var r2 := Feed(Run(Fresh(r1.p), [], true), Line(f));
    ReadAfter(r2.p, after);
    Follow(Fresh(r1.p), Line(f), r2.p, r2.events, last);
    Follow(p, Lines(before), r1.p, r1.events, Line(f) + last);
    EventsInOrder(before, f, after, if NoBody(r2.p) then [Notified(MessageComplete)] else []);
  }

  lemma EventsInOrder(before: seq<Field>, f: Field, after: seq<Field>, last: seq<Event>)
    ensures AllEvents(before) + (FieldEvents(f) + (AllEvents(after) + ([Notified(HeadersComplete)] + last))) ==
      HeaderEvents(before, f, after) + last
  {
  }

  /** Headers without a field that decides: a request has no body, and neither has a response with
      certain codes; any other response has one up to the end of the connection. */
  lemma ReadPlainHeaders(p: Parser, fs: seq<Field>)
    requires BeforeHeaders(p) && AllOther(fs) && p.contentLength == ULLONG_MAX
    requires p.nread + |Lines(fs)| + 2 <= MAX_HEADER_SIZE
    ensures var r := Feed(Run(p, [], true), Lines(fs) + ([CR] + [LF]));
      && r.live && r.events == AllEvents(fs) + EndEvents(p)
      && (NoBody(p) <==> !NeedsEof(p))
      && if NeedsEof(p) then r.p.state.BodyIdentityEof? else BetweenMessages(r.p.state)
  {
    hide Resting, Feed, Lines, AllEvents, IsOther;
    ReadAfter(p, fs);
  }

  /** Headers with one Transfer-Encoding of "chunked" lead to chunks; every field is delivered. */
  lemma ReadChunkedHeaders(p: Parser, before: seq<Field>, f: Field, after: seq<Field>)
    requires BeforeHeaders(p) && AllOther(before) && IsChunkedField(f) && AllOther(after)
    requires p.nread + |HeadersOf(before, f, after)| <= MAX_HEADER_SIZE
    ensures var r := Feed(Run(p, [], true), HeadersOf(before, f, after));
      r.live && r.events == HeaderEvents(before, f, after) && r.p.state.ChunkSizeStart?
  {
    hide Resting, Feed, Lines, Line, AllEvents, FieldEvents, IsOther, IsChunked, IsField;
    var last := Lines(after) + ([CR] + [LF]);
    ReadOthers(p, before);
    var r1 := Feed(Run(p, [], true), Lines(before));
    LineStart(f, last);
    FreshLine(r1.p, Line(f) + last);
    ReadChunkedField(Fresh(r1.p), f);
    var r2 := Feed(Run(Fresh(r1.p), [], true), Line(f));
    ReadAfter(r2.p, after);
    Follow(Fresh(r1.p), Line(f), r2.p, r2.events, last);
    Follow(p, Lines(before), r1.p, r1.events, Line(f) + last);
  }
}
