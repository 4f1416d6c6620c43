/** Whole messages: requests and responses without a body, or with one, its length given, in chunks or
    up to the end of the connection, are reported as what they say from the first notification to the
    last, whatever other fields they have. */
module HttpMessages {
  import opened Bytes
  import opened HttpTypes
  import opened HttpStep
  import opened HttpSpec
  import opened HttpFields
  import HttpBodies
  import HttpLines
  import HttpNumbers
  import HttpUrls

  // ---- Headers and body ----

  /** A body of the announced length, after any headers that announce it. */
  lemma BodyByLength(p: Parser, before: seq<Field>, f: Field, after: seq<Field>, body: seq<byte>)
    requires BeforeHeaders(p) && AllOther(before) && IsLengthField(f) && AllOther(after)
    requires 0 < |body| == HttpNumbers.Decimal(f.value) && p.nread + |HeadersOf(before, f, after)| <= MAX_HEADER_SIZE
    ensures var r := Feed(Run(p, [], true), HeadersOf(before, f, after) + body);
      && r.live && BetweenMessages(r.p.state)
      && r.events == HeaderEvents(before, f, after) + (Tagged(Body, body) + [Notified(MessageComplete)])
  {
    hide Resting, Feed, Tagged, HeadersOf, HeaderEvents, AllOther, IsLengthField, NewMessage, HttpNumbers.Decimal;
    ReadLengthHeaders(p, before, f, after);
    var r := Feed(Run(p, [], true), HeadersOf(before, f, after));
    HttpBodies.IdentityBody(r.p, body);
    HttpBodies.NewMessageIsBetween(r.p.(contentLength := 0, state := MessageDone));
    Follow(p, HeadersOf(before, f, after), r.p, r.events, body);
  }

  /** Chunks of data, each with any spelling of its size and any extension, and the last chunk. */
  datatype Chunks = Chunks(cs: seq<HttpBodies.Chunk>, last: HttpBodies.Chunk)

  predicate IsChunks(c: Chunks) {
    && (forall k :: 0 <= k < |c.cs| ==> HttpBodies.IsChunk(c.cs[k]) && c.cs[k].data != [])
    && HttpBodies.IsChunk(c.last) && c.last.data == []
  }

  function ChunksOf(c: Chunks): seq<byte> {
    HttpBodies.AllWritten(c.cs) + HttpBodies.Line(c.last) + [CR, LF]
  }

  /** Chunks, after any headers that announce them. */
  lemma BodyInChunks(p: Parser, before: seq<Field>, f: Field, after: seq<Field>, c: Chunks)
    requires BeforeHeaders(p) && AllOther(before) && IsChunkedField(f) && AllOther(after) && IsChunks(c)
    requires p.nread + |HeadersOf(before, f, after)| <= MAX_HEADER_SIZE
    ensures var r := Feed(Run(p, [], true), HeadersOf(before, f, after) + ChunksOf(c));
      && r.live && BetweenMessages(r.p.state)
      && r.events ==
        HeaderEvents(before, f, after) + (Tagged(Body, HttpBodies.AllData(c.cs)) + [Notified(MessageComplete)])
  {
    hide Resting, Feed, Tagged, HeadersOf, HeaderEvents, AllOther, IsChunkedField, HttpBodies.IsChunk;
    ReadChunkedHeaders(p, before, f, after);
    var r := Feed(Run(p, [], true), HeadersOf(before, f, after));
    HttpBodies.ChunkedBody(r.p, c.cs, c.last);
    Follow(p, HeadersOf(before, f, after), r.p, r.events, ChunksOf(c));
  }

  // ---- First lines ----

  /** Method, URL and version of a request. */
  datatype Request = Request(m: nat, url: seq<byte>, major: seq<byte>, minor: seq<byte>)

  predicate IsRequest(q: Request) {
    && q.m < METHOD_COUNT && q.m != M_CONNECT && HttpUrls.IsUrl(q.url)
    && HttpLines.Small(q.major) && HttpLines.Small(q.minor) && !Is(q.major[0], '0')
  }

  function RequestLine(q: Request): seq<byte>
    requires IsRequest(q)
  {
    HttpLines.RequestLineOf(q.m, q.url, q.major, q.minor)
  }

  /** Version, code and reason of a response. */
  datatype Status = Status(major: seq<byte>, minor: seq<byte>, code: seq<byte>, reason: seq<byte>)

  predicate IsStatus(s: Status) {
    HttpLines.Small(s.major) && HttpLines.Small(s.minor) && HttpLines.Small(s.code) && CR !in s.reason
      && LF !in s.reason
  }

  function StatusLine(s: Status): seq<byte> {
    HttpLines.StatusLineOf(s.major, s.minor, s.code, s.reason)
  }

  /** A parser that waits for a message; the last one was not a CONNECT. */
  predicate Waits(p: Parser) {
    Resting(p) && p.meth != M_CONNECT
  }

  lemma AfterRequestLine(p: Parser, q: Request)
    requires Waits(p) && p.state.StartReq? && IsRequest(q) && p.nread + |RequestLine(q)| <= MAX_HEADER_SIZE
    ensures var r := Feed(Run(p, [], true), RequestLine(q));
      && r.live && BeforeHeaders(r.p) && r.p.nread == p.nread + |RequestLine(q)|
      && r.p.contentLength == ULLONG_MAX && r.p.kind == p.kind
      && r.events == [Notified(MessageBegin)] + Tagged(Url, q.url)
  {
    hide Resting, Feed, Tagged;
    HttpLines.RequestLine(p, q.m, q.url, q.major, q.minor);
  }

  lemma AfterStatusLine(p: Parser, s: Status)
    requires Waits(p) && p.state.StartRes? && IsStatus(s) && p.nread + |StatusLine(s)| <= MAX_HEADER_SIZE
    ensures var r := Feed(Run(p, [], true), StatusLine(s));
      && r.live && BeforeHeaders(r.p) && r.p.nread == p.nread + |StatusLine(s)| && r.events == [Notified(MessageBegin)]
      && r.p.contentLength == ULLONG_MAX && r.p.kind == p.kind && r.p.status == HttpNumbers.Decimal(s.code)
  {
    hide Resting, Feed, HttpLines.StatusLineOf;
    HttpLines.StatusLine(p, s.major, s.minor, s.code, s.reason);
  }

  // ---- Whole messages ----

  /** A request whose body has the length its Content-Length gives. */
  lemma RequestWithBody(p: Parser, q: Request, before: seq<Field>, f: Field, after: seq<Field>, body: seq<byte>)
    requires Waits(p) && p.state.StartReq? && IsRequest(q) && AllOther(before) && IsLengthField(f) && AllOther(after)
    requires 0 < |body| == HttpNumbers.Decimal(f.value)
    requires p.nread + |RequestLine(q)| + |HeadersOf(before, f, after)| <= MAX_HEADER_SIZE
    ensures var r := Feed(Run(p, [], true), RequestLine(q) + (HeadersOf(before, f, after) + body));
      && r.live && BetweenMessages(r.p.state)
      && r.events == [Notified(MessageBegin)] + Tagged(Url, q.url)
        + (HeaderEvents(before, f, after) + (Tagged(Body, body) + [Notified(MessageComplete)]))
  {
    hide Resting, Feed, Tagged, HeadersOf, HeaderEvents, AllOther, IsLengthField, HttpNumbers.Decimal, RequestLine;
    hide IsRequest;
    AfterRequestLine(p, q);
    var r := Feed(Run(p, [], true), RequestLine(q));
    BodyByLength(r.p, before, f, after, body);
    Follow(p, RequestLine(q), r.p, r.events, HeadersOf(before, f, after) + body);
  }

  /** A request in chunks. */
  lemma RequestInChunks(p: Parser, q: Request, before: seq<Field>, f: Field, after: seq<Field>, c: Chunks)
    requires Waits(p) && p.state.StartReq? && IsRequest(q) && AllOther(before) && IsChunkedField(f) && AllOther(after)
    requires IsChunks(c)
    requires p.nread + |RequestLine(q)| + |HeadersOf(before, f, after)| <= MAX_HEADER_SIZE
    ensures var r := Feed(Run(p, [], true), RequestLine(q) + (HeadersOf(before, f, after) + ChunksOf(c)));
      && r.live && BetweenMessages(r.p.state)
      && r.events == [Notified(MessageBegin)] + Tagged(Url, q.url)
        + (HeaderEvents(before, f, after) + (Tagged(Body, HttpBodies.AllData(c.cs)) + [Notified(MessageComplete)]))
  {
    hide Resting, Feed, Tagged, HeadersOf, HeaderEvents, AllOther, IsChunkedField, IsChunks, ChunksOf, RequestLine;
    hide IsRequest;
    AfterRequestLine(p, q);
    var r := Feed(Run(p, [], true), RequestLine(q));
    BodyInChunks(r.p, before, f, after, c);
    Follow(p, RequestLine(q), r.p, r.events, HeadersOf(before, f, after) + ChunksOf(c));
  }

  /** A response whose body has the length its Content-Length gives. */
  lemma ResponseWithBody(p: Parser, s: Status, before: seq<Field>, f: Field, after: seq<Field>, body: seq<byte>)
    requires Waits(p) && p.state.StartRes? && IsStatus(s) && AllOther(before) && IsLengthField(f) && AllOther(after)
    requires 0 < |body| == HttpNumbers.Decimal(f.value)
    requires p.nread + |StatusLine(s)| + |HeadersOf(before, f, after)| <= MAX_HEADER_SIZE
    ensures var r := Feed(Run(p, [], true), StatusLine(s) + (HeadersOf(before, f, after) + body));
      && r.live && BetweenMessages(r.p.state)
      && r.events == [Notified(MessageBegin)]
        + (HeaderEvents(before, f, after) + (Tagged(Body, body) + [Notified(MessageComplete)]))
  {
    hide Resting, Feed, Tagged, HeadersOf, HeaderEvents, AllOther, IsLengthField, HttpNumbers.Decimal, StatusLine;
    hide IsStatus;
    AfterStatusLine(p, s);
    var r := Feed(Run(p, [], true), StatusLine(s));
    BodyByLength(r.p, before, f, after, body);
    Follow(p, StatusLine(s), r.p, r.events, HeadersOf(before, f, after) + body);
  }

  /** A response in chunks. */
  lemma ResponseInChunks(p: Parser, s: Status, before: seq<Field>, f: Field, after: seq<Field>, c: Chunks)
    requires Waits(p) && p.state.StartRes? && IsStatus(s) && AllOther(before) && IsChunkedField(f) && AllOther(after)
    requires IsChunks(c)
    requires p.nread + |StatusLine(s)| + |HeadersOf(before, f, after)| <= MAX_HEADER_SIZE
    ensures var r := Feed(Run(p, [], true), StatusLine(s) + (HeadersOf(before, f, after) + ChunksOf(c)));
      && r.live && BetweenMessages(r.p.state)
      && r.events == [Notified(MessageBegin)]
        + (HeaderEvents(before, f, after) + (Tagged(Body, HttpBodies.AllData(c.cs)) + [Notified(MessageComplete)]))
  {
    hide Resting, Feed, Tagged, HeadersOf, HeaderEvents, AllOther, IsChunkedField, IsChunks, ChunksOf, StatusLine;
    hide IsStatus;
    AfterStatusLine(p, s);
    var r := Feed(Run(p, [], true), StatusLine(s));
    BodyInChunks(r.p, before, f, after, c);
    Follow(p, StatusLine(s), r.p, r.events, HeadersOf(before, f, after) + ChunksOf(c));
  }

  // ---- Messages without a body, and up to the end of the connection ----

  /** Fields none of which decides, and the empty line. */
  function PlainHeaders(fs: seq<Field>): seq<byte> {
    Lines(fs) + ([CR] + [LF])
  }

  /** A request without a Content-Length and not in chunks is complete after its headers. */
  lemma RequestWithoutBody(p: Parser, q: Request, fs: seq<Field>)
    requires Waits(p) && p.state.StartReq? && p.kind == HttpTypes.Request && IsRequest(q) && AllOther(fs)
    requires p.nread + |RequestLine(q)| + |PlainHeaders(fs)| <= MAX_HEADER_SIZE
    ensures var r := Feed(Run(p, [], true), RequestLine(q) + PlainHeaders(fs));
      && r.live && BetweenMessages(r.p.state)
      && r.events == [Notified(MessageBegin)] + Tagged(Url, q.url)
        + (AllEvents(fs) + ([Notified(HeadersComplete)] + [Notified(MessageComplete)]))
  {
    hide Resting, Feed, Tagged, Lines, AllEvents, AllOther, RequestLine, IsRequest;
    AfterRequestLine(p, q);
    var r := Feed(Run(p, [], true), RequestLine(q));
    ReadPlainHeaders(r.p, fs);
    Follow(p, RequestLine(q), r.p, r.events, PlainHeaders(fs));
  }

  /** A request with a Content-Length of 0 is complete after its headers too. */
  lemma RequestWithEmptyBody(p: Parser, q: Request, before: seq<Field>, f: Field, after: seq<Field>)
    requires Waits(p) && p.state.StartReq? && IsRequest(q) && AllOther(before) && IsLengthField(f) && AllOther(after)
    requires HttpNumbers.Decimal(f.value) == 0
    requires p.nread + |RequestLine(q)| + |HeadersOf(before, f, after)| <= MAX_HEADER_SIZE
    ensures var r := Feed(Run(p, [], true), RequestLine(q) + HeadersOf(before, f, after));
      && r.live && BetweenMessages(r.p.state)
      && r.events == [Notified(MessageBegin)] + Tagged(Url, q.url)
        + (HeaderEvents(before, f, after) + [Notified(MessageComplete)])
  {
    hide Resting, Feed, Tagged, HeadersOf, HeaderEvents, AllOther, IsLengthField, HttpNumbers.Decimal, RequestLine;
    hide IsRequest;
    AfterRequestLine(p, q);
    var r := Feed(Run(p, [], true), RequestLine(q));
    ReadLengthHeaders(r.p, before, f, after);
    Follow(p, RequestLine(q), r.p, r.events, HeadersOf(before, f, after));
  }

  /** So is a response. */
  lemma ResponseWithEmptyBody(p: Parser, s: Status, before: seq<Field>, f: Field, after: seq<Field>)
    requires Waits(p) && p.state.StartRes? && IsStatus(s) && AllOther(before) && IsLengthField(f) && AllOther(after)
    requires HttpNumbers.Decimal(f.value) == 0
    requires p.nread + |StatusLine(s)| + |HeadersOf(before, f, after)| <= MAX_HEADER_SIZE
    ensures var r := Feed(Run(p, [], true), StatusLine(s) + HeadersOf(before, f, after));
      && r.live && BetweenMessages(r.p.state)
      && r.events == [Notified(MessageBegin)] + (HeaderEvents(before, f, after) + [Notified(MessageComplete)])
  {
    hide Resting, Feed, Tagged, HeadersOf, HeaderEvents, AllOther, IsLengthField, HttpNumbers.Decimal, StatusLine;
    hide IsStatus;
    AfterStatusLine(p, s);
    var r := Feed(Run(p, [], true), StatusLine(s));
    ReadLengthHeaders(r.p, before, f, after);
    Follow(p, StatusLine(s), r.p, r.events, HeadersOf(before, f, after));
  }

  /** Codes whose responses never have a body. */
  predicate Bodiless(code: nat) {
    code / 100 == 1 || code == 204 || code == 304
  }

  /** A response that says nothing of its body is complete after its headers just if its code is one
      of those, and otherwise has everything up to the end of the connection for its body. */
  lemma ResponseUpToEnd(p: Parser, s: Status, fs: seq<Field>, body: seq<byte>)
    requires Waits(p) && p.state.StartRes? && p.kind == HttpTypes.Response && IsStatus(s) && AllOther(fs)
    requires p.nread + |StatusLine(s)| + |PlainHeaders(fs)| <= MAX_HEADER_SIZE
    ensures Bodiless(HttpNumbers.Decimal(s.code)) ==>
      var r := Feed(Run(p, [], true), StatusLine(s) + PlainHeaders(fs));
      && r.live && BetweenMessages(r.p.state)
      && r.events == [Notified(MessageBegin)]
        + (AllEvents(fs) + ([Notified(HeadersComplete)] + [Notified(MessageComplete)]))
    ensures !Bodiless(HttpNumbers.Decimal(s.code)) ==>
      var r := Feed(Run(p, [], true), StatusLine(s) + (PlainHeaders(fs) + body));
      && r.live && r.p.state.BodyIdentityEof?
      && r.events == [Notified(MessageBegin)]
        + (AllEvents(fs) + [Notified(HeadersComplete)] + Tagged(Body, body))
  {
    hide Resting, Feed, Tagged, Lines, AllEvents, AllOther, HttpNumbers.Decimal, StatusLine;
    AfterStatusLine(p, s);
    var r := Feed(Run(p, [], true), StatusLine(s));
    ReadPlainHeaders(r.p, fs);
    var t := Feed(Run(r.p, [], true), PlainHeaders(fs));
    if Bodiless(HttpNumbers.Decimal(s.code)) {
      Follow(p, StatusLine(s), r.p, r.events, PlainHeaders(fs));
    } else {
      FeedBody(Run(t.p, [], true), body);
      Follow(r.p, PlainHeaders(fs), t.p, t.events, body);
      Follow(p, StatusLine(s), r.p, r.events, PlainHeaders(fs) + body);
    }
  }
}
