/** Message bodies written as section 3.6.1 and 4.4 of RFC 2616 say are read back whole. */
module HttpBodies {
  import opened Bytes
  import opened HttpTypes
  import opened HttpStep
  import opened HttpSpec
  import opened HttpNumbers

  // ---- One byte in the states around a chunk ----

  /** The same in the line that gives a chunk's size. */
  lemma SilentHead(p: Parser, ch: byte, r: Parser)
    requires Resting(p) && ChunkHeadState(p.state) && p.nread < MAX_HEADER_SIZE && Holds(r.state).None?
    requires AtSwitch(p.(nread := p.nread + 1))
    requires StepChunkHead(p.(nread := p.nread + 1), ch) == Outcome(r, None, None, None, Break, 1)
    ensures ReadByte(p, ch) == Run(r, [], true)
  {
    hide Step, Dispatch, StepChunkHead, AtSwitch, Resting;
    var q := p.(nread := p.nread + 1);
    Cases(q, ch);
    LookedAtOnce(q, ch, Outcome(r, None, None, None, Break, 1));
  }

  lemma CountedHead(p: Parser)
    requires Resting(p) && ChunkHeadState(p.state)
    ensures AtSwitch(p.(nread := p.nread + 1)) && p.flags.chunked
  {
  }

  lemma SizeDigit(p: Parser, ch: byte)
    requires Resting(p) && (p.state.ChunkSizeStart? || p.state.ChunkSize?) && p.nread < MAX_HEADER_SIZE
    requires Unhex(ch) != -1
    ensures Unhex(ch) >= 0
    ensures var t := if p.state.ChunkSizeStart? then Some(Unhex(ch)) else Accumulate(p.contentLength, 16, Unhex(ch));
      t.Some? ==>
        ReadByte(p, ch) == Run(p.(nread := p.nread + 1, state := ChunkSize, contentLength := t.value), [], true)
  {
    CountedHead(p);
    NotCr(ch);
    UnhexRange(ch);
    hide Good, AtSwitch, Resting, ReadByte, Unhex, Accumulate;
    var q := p.(nread := p.nread + 1);
    var t := if p.state.ChunkSizeStart? then Some(Unhex(ch)) else Accumulate(p.contentLength, 16, Unhex(ch));
    if t.Some? {
      SilentHead(p, ch, q.(state := ChunkSize, contentLength := t.value));
    }
  }

  lemma NotCr(ch: byte)
    requires Unhex(ch) != -1
    ensures ch != CR && ch != SP && !Is(ch, ';')
  {
  }

  /** The digits of a size. */
  lemma {:induction false} ReadSize(p: Parser, ds: seq<byte>)
    requires Resting(p) && p.state.ChunkSizeStart? && ds != [] && |ds| <= MAX_HEADER_SIZE
    requires (forall k :: 0 <= k < |ds| ==> Unhex(ds[k]) != -1) && Hexadecimal(ds) < ULLONG_MAX
    ensures Feed(Run(p, [], true), ds) ==
      Run(p.(nread := |ds|, state := ChunkSize, contentLength := Hexadecimal(ds)), [], true)
  {
    hide ReadByte, Accumulate, Unhex, AtSwitch;
    var n, start := |ds| - 1, Run(p, [], true);
    assert p.nread == 0;
    hide Resting;
    if n == 0 {
      assert ds[..0] == [];
      assert Hexadecimal(ds) == Unhex(ds[0]) by { UnhexRange(ds[0]); }
      SizeDigit(p, ds[0]);
    } else {
      UnhexRange(ds[n]);
      assert Hexadecimal(ds) == Hexadecimal(ds[..n]) * 16 + Unhex(ds[n]);
      ReadSize(p, ds[..n]);
      var r := Feed(start, ds[..n]);
      AccumulateExact(r.p.contentLength, 16, Unhex(ds[n]));
      SizeDigit(r.p, ds[n]);
    }
  }

  /** What may follow the size in its line. */
  predicate IsExtension(ext: seq<byte>) {
    ext != [] ==> (Is(ext[0], ';') || ext[0] == SP) && CR !in ext
  }

  lemma ExtensionByte(p: Parser, ch: byte)
    requires Resting(p) && p.nread < MAX_HEADER_SIZE && ch != CR
    requires p.state.ChunkParameters? || (p.state.ChunkSize? && (Is(ch, ';') || ch == SP))
    ensures ReadByte(p, ch) == Run(p.(nread := p.nread + 1, state := ChunkParameters), [], true)
  {
    CountedHead(p);
    assert Is(ch, ';') || ch == SP ==> Unhex(ch) == -1;
    hide Good, AtSwitch, Resting, ReadByte, Unhex, Accumulate;
    SilentHead(p, ch, p.(nread := p.nread + 1, state := ChunkParameters));
  }

  lemma {:induction false} ReadExtension(p: Parser, ext: seq<byte>)
    requires Resting(p) && p.state.ChunkSize? && IsExtension(ext) && p.nread + |ext| <= MAX_HEADER_SIZE
    ensures Feed(Run(p, [], true), ext) ==
      Run(p.(nread := p.nread + |ext|, state := if ext == [] then ChunkSize else ChunkParameters), [], true)
  {
    hide ReadByte, AtSwitch, Resting;
    if ext != [] {
      var n := |ext| - 1;
      ReadExtension(p, ext[..n]);
      assert ext[n] in ext;
      ExtensionByte(Feed(Run(p, [], true), ext[..n]).p, ext[n]);
    }
  }

  lemma HeadCr(p: Parser)
    requires Resting(p) && (p.state.ChunkSize? || p.state.ChunkParameters?) && p.nread < MAX_HEADER_SIZE
    ensures ReadByte(p, CR) == Run(p.(nread := p.nread + 1, state := ChunkSizeAlmostDone), [], true)
  {
    CountedHead(p);
    assert Unhex(CR) == -1;
    hide Good, AtSwitch, Resting, ReadByte, Unhex, Accumulate;
    SilentHead(p, CR, p.(nread := p.nread + 1, state := ChunkSizeAlmostDone));
  }

  /** Where the line of a chunk's size leads. */
  function LineRead(p: Parser): Parser {
    if p.contentLength == 0 then p.(nread := 0, flags := p.flags.(trailing := true), state := HeaderFieldStart)
    else p.(nread := 0, state := ChunkData)
  }

  lemma HeadLf(p: Parser)
    requires Resting(p) && p.state.ChunkSizeAlmostDone? && p.nread < MAX_HEADER_SIZE
    ensures ReadByte(p, LF) == Run(LineRead(p), [], true)
  {
    CountedHead(p);
    hide Good, AtSwitch, Resting, ReadByte, Unhex, Accumulate;
    SilentHead(p, LF, LineRead(p));
  }

  /** The end of the line. */
  lemma ReadLineEnd(p: Parser)
    requires Resting(p) && (p.state.ChunkSize? || p.state.ChunkParameters?) && p.nread + 2 <= MAX_HEADER_SIZE
    ensures Feed(Run(p, [], true), [CR, LF]) == Run(LineRead(p), [], true)
  {
    hide Resting, ReadByte, AtSwitch;
    HeadCr(p);
    HeadLf(ReadByte(p, CR).p);
    FeedTwo(p, CR, LF);
  }

  lemma FeedTwo(p: Parser, a: byte, b: byte)
    requires Resting(p)
    ensures var r := ReadByte(p, a);
      Feed(Run(p, [], true), [a, b]) == if r.live then After(r.events, ReadByte(r.p, b)) else r
  {
    hide Resting, ReadByte;
    var start := Run(p, [], true);
    assert [a, b][..1] == [a] && [a][..0] == [];
    assert Feed(start, [a]) == Then(start, a);
    assert Feed(start, [a, b]) == Then(Feed(start, [a]), b);
  }

  // ---- A chunk ----

  /** A chunk as it is written: its size in hexadecimal, an extension, its data. */
  datatype Chunk = Chunk(size: seq<byte>, ext: seq<byte>, data: seq<byte>)

  predicate IsChunk(c: Chunk) {
    && c.size != [] && (forall k :: 0 <= k < |c.size| ==> Unhex(c.size[k]) != -1)
    && Hexadecimal(c.size) == |c.data| < ULLONG_MAX
    && IsExtension(c.ext) && |c.size| + |c.ext| + 2 <= MAX_HEADER_SIZE
  }

  function Line(c: Chunk): seq<byte> {
    c.size + c.ext + [CR, LF]
  }

  lemma ReadLine(p: Parser, c: Chunk)
    requires Resting(p) && p.state.ChunkSizeStart? && IsChunk(c)
    ensures Feed(Run(p, [], true), Line(c)) == Run(LineRead(p.(contentLength := |c.data|)), [], true)
  {
    hide Resting, Unhex, Feed, Hexadecimal, IsExtension;
    var start := Run(p, [], true);
    ReadSize(p, c.size);
    var r := Feed(start, c.size);
    ReadExtension(r.p, c.ext);
    FeedConcat(start, c.size, c.ext);
    var t := Feed(start, c.size + c.ext);
    ReadLineEnd(t.p);
    FeedConcat(start, c.size + c.ext, [CR, LF]);
  }

  /** The data of a chunk. */
  lemma ReadData(p: Parser, data: seq<byte>)
    requires Resting(p) && p.state.ChunkData? && p.contentLength == |data|
    ensures Feed(Run(p, [], true), data) ==
      Run(p.(contentLength := 0, state := ChunkDataAlmostDone), Tagged(Body, data), true)
  {
    assert AtSwitch(p);
    var o := StepChunkData(p, data[0], |data|);
    StepInBody(p, data[0], |data|);
    hide Step, Resting, AtSwitch, Feed, Tagged, Dispatch;
    BodyAtOnce(p, data[0], |data|, data);
  }

  lemma ReadDataEnd(p: Parser)
    requires Resting(p) && p.state.ChunkDataAlmostDone?
    ensures Feed(Run(p, [], true), [CR, LF]) == Run(p.(nread := 0, state := ChunkSizeStart), [], true)
  {
    DataCr(p);
    hide ReadByte, Resting;
    DataLf(ReadByte(p, CR).p);
    FeedTwo(p, CR, LF);
  }

  lemma DataCr(p: Parser)
    requires Resting(p) && p.state.ChunkDataAlmostDone?
    ensures ReadByte(p, CR) == Run(p.(state := ChunkDataDone), [], true)
  {
    assert AtSwitch(p);
    Cases(p, CR);
    assert StepChunkData(p, CR, 1) == Outcome(p.(state := ChunkDataDone), None, Some(Body), None, Break, 1);
    hide Step, StepChunkData;
  }

  lemma DataLf(p: Parser)
    requires Resting(p) && p.state.ChunkDataDone?
    ensures ReadByte(p, LF) == Run(p.(nread := 0, state := ChunkSizeStart), [], true)
  {
    assert AtSwitch(p);
    Cases(p, LF);
    hide Step, AtSwitch;
    LookedAtOnce(p, LF, Outcome(p.(nread := 0, state := ChunkSizeStart), None, None, None, Break, 1));
  }

  lemma StartsAtZero(p: Parser)
    requires Resting(p) && p.state.ChunkSizeStart?
    ensures p.nread == 0
  {
  }

  function Written(c: Chunk): seq<byte> {
    Line(c) + c.data + [CR, LF]
  }

  lemma ReadChunk(p: Parser, c: Chunk)
    requires Resting(p) && p.state.ChunkSizeStart? && IsChunk(c) && c.data != []
    ensures Feed(Run(p, [], true), Written(c)) == Run(p.(contentLength := 0), Tagged(Body, c.data), true)
  {
    hide Resting, Feed, Line, IsChunk, Tagged;
    var start := Run(p, [], true);
    StartsAtZero(p);
    ReadLine(p, c);
    var q := Feed(start, Line(c)).p;
    ReadData(q, c.data);
    FeedConcat(start, Line(c), c.data);
    var r := Feed(start, Line(c) + c.data);
    ReadDataEnd(r.p);
    FeedConcat(start, Line(c) + c.data, [CR, LF]);
    FeedEvents(r.p, r.events, [CR, LF]);
    assert r.events + [] == r.events;
  }

  // ---- A whole chunked body ----

  function AllWritten(cs: seq<Chunk>): seq<byte> {
    if cs == [] then [] else Written(cs[0]) + AllWritten(cs[1..])
  }

  function AllData(cs: seq<Chunk>): seq<byte> {
    if cs == [] then [] else cs[0].data + AllData(cs[1..])
  }

  lemma {:induction false} ReadChunks(p: Parser, cs: seq<Chunk>)
    requires Resting(p) && p.state.ChunkSizeStart? && forall k :: 0 <= k < |cs| ==> IsChunk(cs[k]) && cs[k].data != []
    ensures var r := Feed(Run(p, [], true), AllWritten(cs));
      r == Run(if cs == [] then p else p.(contentLength := 0), Tagged(Body, AllData(cs)), true)
    decreases |cs|
  {
    hide Resting, Feed, Written, IsChunk, Tagged;
    if cs == [] {
      NoTags();
      assert Feed(Run(p, [], true), []) == Run(p, [], true) by { FeedNothing(Run(p, [], true)); }
    } else {
      var start := Run(p, [], true);
      ReadChunk(p, cs[0]);
      var r := Feed(start, Written(cs[0]));
      ReadChunks(r.p, cs[1..]);
      FeedConcat(start, Written(cs[0]), AllWritten(cs[1..]));
      FeedEvents(r.p, r.events, AllWritten(cs[1..]));
      TagsConcat(cs[0].data, AllData(cs[1..]));
    }
  }

  lemma NoTags()
    ensures Tagged(Body, []) == []
  {
  }

  lemma TagsConcat(a: seq<byte>, b: seq<byte>)
    ensures Tagged(Body, a + b) == Tagged(Body, a) + Tagged(Body, b)
  {
  }

  /** The empty line after the last chunk, there being no trailer. */
  lemma ReadEnd(p: Parser)
    requires Resting(p) && p.state.HeaderFieldStart? && p.flags.trailing && p.nread == 0
    ensures var q := p.(nread := 2, state := HeadersAlmostDone);
      Feed(Run(p, [], true), [CR, LF]) == Run(q.(state := NewMessage(q)), [Notified(MessageComplete)], true)
  {
    hide ReadByte, Resting, NewMessage, Feed;
    NoMoreFields(p);
    EndLf(ReadByte(p, CR).p);
    FeedTwo(p, CR, LF);
  }

  lemma NoMoreFieldsOutcome(q: Parser)
    requires AtSwitch(q) && q.state.HeaderFieldStart?
    ensures StepField(q, CR) == Outcome(q.(state := HeadersAlmostDone), None, None, None, Break, 1)
  {
    hide Good, AtSwitch, Token;
  }

  lemma NoMoreFields(p: Parser)
    requires Resting(p) && p.state.HeaderFieldStart? && p.nread < MAX_HEADER_SIZE
    ensures ReadByte(p, CR) == Run(Next(p).(state := HeadersAlmostDone), [], true)
  {
    hide Step, StepField, AtSwitch, Resting, ReadByte;
    NextAtSwitch(p);
    Cases(Next(p), CR);
    NoMoreFieldsOutcome(Next(p));
    ReadOnce(p, CR, StepField(Next(p), CR));
  }

  lemma EndLf(p: Parser)
    requires Resting(p) && p.state.HeadersAlmostDone? && p.flags.trailing && p.nread == 1
    ensures var q := p.(nread := 2);
      ReadByte(p, LF) == Run(q.(state := NewMessage(q)), [Notified(MessageComplete)], true)
  {
    var q := p.(nread := 2);
    assert AtSwitch(q) && Counted(p) == q;
    Cases(q, LF);
    assert StepHeadersEnd(q, LF) ==
      Outcome(q.(state := NewMessage(q)), None, None, Some(MessageComplete), Break, 1) by {
      hide Good, AtSwitch, ShouldKeepAlive;
    }
    hide Step, AtSwitch, StepHeadersEnd, ShouldKeepAlive;
  }

  /** A chunked body is delivered as the data of its chunks put together, and then the message
      is complete. */
  lemma ChunkedBody(p: Parser, cs: seq<Chunk>, last: Chunk)
    requires Resting(p) && p.state.ChunkSizeStart?
    requires (forall k :: 0 <= k < |cs| ==> IsChunk(cs[k]) && cs[k].data != []) && IsChunk(last) && last.data == []
    ensures var r := Feed(Run(p, [], true), AllWritten(cs) + Line(last) + [CR, LF]);
      r.events == Tagged(Body, AllData(cs)) + [Notified(MessageComplete)] && r.live && BetweenMessages(r.p.state)
  {
    hide Resting, Feed, AllWritten, Line, IsChunk, Tagged, NewMessage;
    var start := Run(p, [], true);
    ReadChunks(p, cs);
    var r := Feed(start, AllWritten(cs));
    ReadLine(r.p, last);
    FeedConcat(start, AllWritten(cs), Line(last));
    FeedEvents(r.p, r.events, Line(last));
    var t := Feed(start, AllWritten(cs) + Line(last));
    assert t == Run(LineRead(r.p.(contentLength := 0)), r.events, true) by { assert r.events + [] == r.events; }
    ReadEnd(t.p);
    FeedConcat(start, AllWritten(cs) + Line(last), [CR, LF]);
    FeedEvents(t.p, t.events, [CR, LF]);
    NewMessageIsBetween(t.p.(nread := 2, state := HeadersAlmostDone));
  }

  lemma NewMessageIsBetween(p: Parser)
    ensures BetweenMessages(NewMessage(p))
  {
    hide ShouldKeepAlive;
  }

  // ---- A body of known length ----

  /** A body of the announced length is delivered whole, and then the message is complete. */
  lemma IdentityBody(p: Parser, data: seq<byte>)
    requires Resting(p) && p.state.BodyIdentity? && p.contentLength == |data|
    ensures var q := p.(contentLength := 0, state := MessageDone);
      Feed(Run(p, [], true), data) ==
        Run(q.(state := NewMessage(q)), Tagged(Body, data) + [Notified(MessageComplete)], true)
  {
    assert AtSwitch(p);
    var last, q := data[|data| - 1], p.(contentLength := 0, state := MessageDone);
    StepInBody(p, data[0], |data|);
    assert StepBody(p, |data|) == Outcome(q, Some(Body), Some(Body), None, Reexecute, |data|);
    assert AtSwitch(q);
    Done(q, last);
    hide Step, StepBody, Resting, AtSwitch, Feed, Tagged, Dispatch, NewMessage;
    BodyAtOnce(p, data[0], |data|, data);
  }

  lemma Done(q: Parser, ch: byte)
    requires AtSwitch(q) && q.state.MessageDone?
    ensures Dispatch(q, ch) == Run(q.(state := NewMessage(q)), [Notified(MessageComplete)], true)
  {
    Cases(q, ch);
    assert StepBody(q, 1) == Outcome(q.(state := NewMessage(q)), None, None, Some(MessageComplete), Break, 1);
    NewMessageIsBetween(q);
    hide Step, StepBody, NewMessage;
  }
}
