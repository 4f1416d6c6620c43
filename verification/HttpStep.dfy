/** One execution of the big `switch` in `http_parser_execute`, state by state, together with
    the invariant that makes the parser's own assertions hold. */
module HttpStep {
  import opened Bytes
  import opened HttpTypes

  /** The four marks, and what is delivered when one of them is emitted. */
  datatype Part = Url | Field | Value | Body

  datatype Notice = MessageBegin | HeadersComplete | MessageComplete

  /** How the switch was left: `break`, `goto reexecute_byte`, `goto error`, or `return`. */
  datatype Exit = Break | Reexecute | Error | Return

  /** The parser afterwards, and the macros run on the way, in this order: MARK, CALLBACK_DATA,
      CALLBACK_NOTIFY.  `taken` is how many bytes of the buffer were consumed at once. */
  datatype Outcome = Outcome(p: Parser, mark: Option<Part>, emit: Option<Part>, note: Option<Notice>, exit: Exit,
    taken: nat)

  // ---- The invariant ----

  predicate FieldMatching(h: HeaderState) {
    || h.General? || h.C? || h.CO? || h.CON?
    || h.MatchingConnection? || h.MatchingProxyConnection? || h.MatchingContentLength? || h.MatchingTransferEncoding?
    || h.MatchingUpgrade?
    || h.Connection? || h.ContentLength? || h.TransferEncoding? || h.Upgrade?
  }

  predicate ValueMatching(h: HeaderState) {
    || h.General? || h.ContentLength?
    || h.MatchingTransferEncodingChunked? || h.MatchingConnectionKeepAlive? || h.MatchingConnectionClose?
    || h.TransferEncodingChunked? || h.ConnectionKeepAlive? || h.ConnectionClose?
  }

  predicate ChunkState(s: State) {
    || s.ChunkSizeStart? || s.ChunkSize? || s.ChunkParameters? || s.ChunkSizeAlmostDone?
    || s.ChunkData? || s.ChunkDataAlmostDone? || s.ChunkDataDone?
  }

  /** What the parser's own assertions need, at the top of the switch. */
  predicate AtSwitch(p: Parser) {
    && p.errno == Ok
    && p.contentLength <= ULLONG_MAX
    && p.meth < METHOD_COUNT
    && (p.upgrade ==> p.state.HeadersDone?)
    && (p.state.ReqMethod? ==> 1 <= p.index <= MethodLength(p.meth))
    && (p.state.HeaderField? ==> FieldMatching(p.headerState))
    && (p.state.HeaderValue? ==> ValueMatching(p.headerState))
    && (p.state.HeaderValue? && p.headerState.ContentLength? ==> p.contentLength < ULLONG_MAX)
    && (p.state.ChunkSizeStart? ==> p.nread == 1)
    && (ChunkState(p.state) ==> p.flags.chunked)
    && (p.state.ChunkSize? || p.state.ChunkParameters? || p.state.ChunkSizeAlmostDone? ==> p.contentLength < ULLONG_MAX)
    && (p.state.ChunkData? || p.state.BodyIdentity? ==> 0 < p.contentLength < ULLONG_MAX)
    && (p.state.ChunkDataAlmostDone? || p.state.MessageDone? ==> p.contentLength == 0)
  }

  /** The same between two bytes, before `nread` is counted up; the two states that only
      exist while a byte is looked at again have been left. */
  predicate Resting(p: Parser) {
    && !p.state.MessageDone? && !p.state.HeadersDone?
    && (p.state.ChunkSizeStart? ==> p.nread == 0)
    && AtSwitch(p.(nread := if ParsingHeader(p.state) then p.nread + 1 else p.nread))
  }

  /** How often the same byte can still be looked at again. */
  function Rank(s: State): nat {
    if s.HeaderValueLws? then 3
    else if s.HeaderFieldStart? then 2
    else if s.HeadersAlmostDone? || s.StartReqOrRes? || s.HeaderValue? || s.BodyIdentity? then 1
    else 0
  }

  /** The mark a state holds, other than that of the body. */
  function Holds(s: State): Option<Part> {
    if UrlState(s) then Some(Url)
    else if s.HeaderField? then Some(Field)
    else if s.HeaderValue? then Some(Value)
    else None
  }

  /** The states that take body bytes in bulk. */
  predicate BodyLike(s: State) {
    s.BodyIdentity? || s.ChunkData? || s.BodyIdentityEof?
  }

  /** MARK and CALLBACK_DATA are placed so that exactly the states that hold a mark have it set. */
  predicate MarksFit(before: State, o: Outcome) {
    var held, holds := Holds(before), Holds(o.p.state);
    if BodyLike(before) then
      && o.mark == Some(Body) && o.note.None? && holds.None? && o.exit != Return
      && (o.exit == Reexecute <==> o.emit == Some(Body)) && (o.emit.Some? ==> o.emit.value == Body)
      && (o.exit == Break ==> o.p.state == before || (before.ChunkData? && o.p.state.ChunkDataAlmostDone?))
    else if before.ChunkDataAlmostDone? then
      o.mark.None? && o.emit == Some(Body) && o.note.None? && holds.None? && o.exit == Break && o.p.state.ChunkDataDone?
    else
      && o.taken == 1
      && (held == holds ==> (o.mark.None? && o.emit.None?) || (held.None? && o.mark == o.emit == Some(Value)))
      && (held != holds && held.None? ==> o.mark == holds && o.emit.None?)
      && (held != holds && held.Some? ==> holds.None? && o.mark.None? && o.emit == held)
      && (o.note.Some? ==> o.mark.None? && o.emit.None? && holds.None?)
      && (o.exit != Break ==> holds.None?)
      && !o.p.state.ChunkDataAlmostDone?
  }

  /** What every group of states promises about one execution of the switch. */
  predicate Good(p: Parser, avail: nat, o: Outcome) {
    && 1 <= o.taken <= avail
    && (o.exit == Break ==> Resting(o.p))
    && (o.exit == Return ==> o.p.upgrade)
    && (o.exit == Reexecute ==> AtSwitch(o.p) && Rank(o.p.state) < Rank(p.state) && !BodyLike(o.p.state))
    && (o.exit == Error <==> o.p.errno != Ok)
    && (o.exit != Error ==> MarksFit(p.state, o))
  }

  // ---- Ways to leave the switch ----

  /** What holds of the parser in every state but `s_headers_done`. */
  predicate Sound(p: Parser) {
    p.errno == Ok && p.contentLength <= ULLONG_MAX && p.meth < METHOD_COUNT && !p.upgrade
  }

  lemma AtSwitchSound(p: Parser)
    requires AtSwitch(p) && !p.state.HeadersDone?
    ensures Sound(p)
  {
  }

  /** A state without a mark and without a condition of its own. */
  predicate Plain(s: State) {
    && Holds(s).None? && !ChunkState(s)
    && !s.ReqMethod? && !s.HeadersDone? && !s.BodyIdentity? && !s.BodyIdentityEof? && !s.MessageDone?
  }

  /** A state that holds no mark at all. */
  predicate Unmarked(s: State) {
    && Holds(s).None?
    && !s.BodyIdentity? && !s.ChunkData? && !s.BodyIdentityEof? && !s.ChunkDataAlmostDone?
  }

  function Fail(p: Parser, e: Errno): (o: Outcome)
    requires e != Ok
    ensures Good(p, 1, o)
  {
    Outcome(p.(errno := e), None, None, None, Error, 1)
  }

  /** The same with the parser changed before the error. */
  function FailAs(p: Parser, q: Parser, e: Errno): (o: Outcome)
    requires e != Ok
    ensures Good(p, 1, o)
  {
    Outcome(q.(errno := e), None, None, None, Error, 1)
  }

  function Go(p: Parser, q: Parser): (o: Outcome)
    requires Unmarked(p.state) && Sound(q) && Plain(q.state)
    ensures Good(p, 1, o)
  {
    Outcome(q, None, None, None, Break, 1)
  }

  function Notify(p: Parser, q: Parser, n: Notice): (o: Outcome)
    requires Unmarked(p.state) && Sound(q) && Plain(q.state)
    ensures Good(p, 1, o)
  {
    Outcome(q, None, None, Some(n), Break, 1)
  }

  /** Into or within the method name. */
  function InMethod(p: Parser, q: Parser, n: Option<Notice>): (o: Outcome)
    requires Unmarked(p.state) && Sound(q) && q.state.ReqMethod? && 1 <= q.index <= MethodLength(q.meth)
    ensures Good(p, 1, o)
  {
    Outcome(q, None, None, n, Break, 1)
  }

  function Again(p: Parser, q: Parser): (o: Outcome)
    requires Unmarked(p.state) && Sound(q) && Plain(q.state) && Rank(q.state) < Rank(p.state)
    ensures Good(p, 1, o)
  {
    Outcome(q, None, None, None, Reexecute, 1)
  }

  // ---- Start of a message ----

  predicate StartState(s: State) {
    s.Dead? || s.StartReqOrRes? || s.ResOrRespH? || s.StartRes? || s.StartReq?
  }

  function StepStart(p: Parser, ch: byte): (o: Outcome)
    requires AtSwitch(p) && StartState(p.state)
    ensures Good(p, 1, o)
  {
    hide Good, AtSwitch;
    AtSwitchSound(p);
    var blank := p.(flags := NO_FLAGS, contentLength := ULLONG_MAX);
    if p.state.Dead? then
      if ch == CR || ch == LF then Go(p, p) else Fail(p, ClosedConnection)
    else if p.state.StartReqOrRes? then
      if ch == CR || ch == LF then Go(p, p)
      else if Is(ch, 'H') then Notify(p, blank.(state := ResOrRespH), MessageBegin)
      else Again(p, blank.(kind := Request, state := StartReq))
    else if p.state.ResOrRespH? then AfterH(p, ch)
    else if p.state.StartRes? then
      if Is(ch, 'H') then Notify(p, blank.(state := ResH), MessageBegin)
      else if ch == CR || ch == LF then Notify(p, blank, MessageBegin)
      else FailAs(p, blank, InvalidConstant)
    else if ch == CR || ch == LF then Go(p, p)
    else RequestBegins(p, blank, ch)
  }

  /** An H begins "HTTP" or "HEAD". */
  function AfterH(p: Parser, ch: byte): (o: Outcome)
    requires Sound(p) && p.state.ResOrRespH?
    ensures Good(p, 1, o)
  {
    hide Good;
    if Is(ch, 'T') then Go(p, p.(kind := Response, state := ResHT))
    else if !Is(ch, 'E') then Fail(p, InvalidConstant)
    else InMethod(p, p.(kind := Request, meth := M_HEAD, index := 2, state := ReqMethod), None)
  }

  function RequestBegins(p: Parser, blank: Parser, ch: byte): (o: Outcome)
    requires Unmarked(p.state) && Sound(blank)
    ensures Good(p, 1, o)
  {
    hide Good, MethodLength;
    if !IsAlpha(ch) then FailAs(p, blank, InvalidMethod)
    else
      match FirstGuess(ch)
      case None => FailAs(p, blank.(meth := 0, index := 1), InvalidMethod)
      case Some(m) => InMethod(p, blank.(meth := m, index := 1, state := ReqMethod), Some(MessageBegin))
  }

  /** The method guessed from its first letter. */
  function FirstGuess(ch: byte): (m: Option<nat>)
    ensures m.Some? ==> m.value < METHOD_COUNT && 1 <= MethodLength(m.value)
  {
    if Is(ch, 'C') then Some(M_CONNECT)
    else if Is(ch, 'D') then Some(M_DELETE)
    else if Is(ch, 'G') then Some(M_GET)
    else if Is(ch, 'H') then Some(M_HEAD)
    else if Is(ch, 'L') then Some(M_LOCK)
    else if Is(ch, 'M') then Some(M_MKCOL)
    else if Is(ch, 'N') then Some(M_NOTIFY)
    else if Is(ch, 'O') then Some(M_OPTIONS)
    else if Is(ch, 'P') then Some(M_POST)
    else if Is(ch, 'R') then Some(M_REPORT)
    else if Is(ch, 'S') then Some(M_SUBSCRIBE)
    else if Is(ch, 'T') then Some(M_TRACE)
    else if Is(ch, 'U') then Some(M_UNLOCK)
    else None
  }

  // ---- Request method ----

  lemma MethodNameLength(m: nat)
    requires m < METHOD_COUNT
    ensures |MethodName(m)| == MethodLength(m)
  {
  }

  /** How the guess changes at a letter that does not fit it; `None` is an error. */
  function Reguess(m: nat, index: nat, ch: byte): (r: Option<nat>)
    requires m < METHOD_COUNT
    ensures r.Some? ==> r.value < METHOD_COUNT && index < MethodLength(m) && index < MethodLength(r.value)
  {
    if m == M_CONNECT then
      if index == 1 && Is(ch, 'H') then Some(M_CHECKOUT)
      else if index == 2 && Is(ch, 'P') then Some(M_COPY)
      else None
    else if m == M_MKCOL then
      if index == 1 && Is(ch, 'O') then Some(M_MOVE)
      else if index == 1 && Is(ch, 'E') then Some(M_MERGE)
      else if index == 1 && Is(ch, '-') then Some(M_MSEARCH)
      else if index == 2 && Is(ch, 'A') then Some(M_MKACTIVITY)
      else None
    else if m == M_SUBSCRIBE then
      if index == 1 && Is(ch, 'E') then Some(M_SEARCH) else None
    else if index == 1 && m == M_POST then
      if Is(ch, 'R') then Some(M_PROPFIND)
      else if Is(ch, 'U') then Some(M_PUT)
      else if Is(ch, 'A') then Some(M_PATCH)
      else None
    else if index == 2 then
      // Any other third letter is let through unchanged.
      Some(if m == M_PUT && Is(ch, 'R') then M_PURGE else if m == M_UNLOCK && Is(ch, 'S') then M_UNSUBSCRIBE else m)
    else if index == 4 && m == M_PROPFIND && Is(ch, 'P') then Some(M_PROPPATCH)
    else None
  }

  /** Which guesses have their error number set before `goto error`. */
  predicate NamedMethodError(m: nat, index: nat) {
    !(m == M_CONNECT || m == M_MKCOL || m == M_SUBSCRIBE || (index == 1 && m == M_POST))
  }

  lemma MethodIndex(p: Parser)
    requires AtSwitch(p) && p.state.ReqMethod?
    ensures 1 <= p.index <= MethodLength(p.meth)
  {
  }

  function StepMethod(p: Parser, ch: byte): (o: Outcome)
    requires AtSwitch(p) && p.state.ReqMethod?
    ensures Good(p, 1, o)
  {
    hide Good, AtSwitch, MethodName;
    AtSwitchSound(p);
    MethodIndex(p);
    MethodNameLength(p.meth);
    var name, next := MethodName(p.meth), p.(index := p.index + 1);
    if ch == 0 then Fail(p, InvalidMethod)
    else if ch == SP && At(name, p.index) == 0 then Go(p, next.(state := ReqSpacesBeforeUrl))
    else if ch as int == At(name, p.index) then InMethod(p, next, None)
    else
      match Reguess(p.meth, p.index, ch)
      case Some(m) => InMethod(p, next.(meth := m), None)
      case None => Fail(p, if NamedMethodError(p.meth, p.index) then InvalidMethod else Unknown)
  }

  // ---- Status line and version ----

  function Digit(ch: byte): nat
    requires IsNum(ch)
  {
    ch as int - '0' as int
  }

  /** STRICT_CHECK on one expected character. */
  function Expect(p: Parser, ch: byte, c: char, next: State): (o: Outcome)
    requires Sound(p) && Unmarked(p.state) && Plain(next)
    ensures Good(p, 1, o)
  {
    hide Good;
    if Is(ch, c) then Go(p, p.(state := next)) else Fail(p, Strict)
  }

  predicate NameState(s: State) {
    || s.ResH? || s.ResHT? || s.ResHTT? || s.ResHTTP?
    || s.ReqHttpStart? || s.ReqHttpH? || s.ReqHttpHT? || s.ReqHttpHTT? || s.ReqHttpHTTP?
  }

  /** The letter expected and the state it leads to. */
  function NameNext(s: State): (r: (char, State))
    requires NameState(s)
    ensures Plain(r.1) && (NameState(r.1) || r.1.ResFirstMajor? || r.1.ReqFirstMajor?)
  {
    if s.ResH? then ('T', ResHT)
    else if s.ResHT? then ('T', ResHTT)
    else if s.ResHTT? then ('P', ResHTTP)
    else if s.ResHTTP? then ('/', ResFirstMajor)
    else if s.ReqHttpH? then ('T', ReqHttpHT)
    else if s.ReqHttpHT? then ('T', ReqHttpHTT)
    else if s.ReqHttpHTT? then ('P', ReqHttpHTTP)
    else if s.ReqHttpHTTP? then ('/', ReqFirstMajor)
    else ('H', ReqHttpH)
  }

  /** The letters "HTTP/", in a response or at the end of a request line. */
  function StepName(p: Parser, ch: byte): (o: Outcome)
    requires AtSwitch(p) && NameState(p.state)
    ensures Good(p, 1, o)
  {
    hide Good, AtSwitch, NameNext;
    AtSwitchSound(p);
    var (c, next) := NameNext(p.state);
    if !p.state.ReqHttpStart? then Expect(p, ch, c, next)
    else if Is(ch, c) then Go(p, p.(state := next))
    else if ch == SP then Go(p, p)
    else Fail(p, InvalidConstant)
  }

  predicate MajorState(s: State) {
    s.ResFirstMajor? || s.ResMajor? || s.ReqFirstMajor? || s.ReqMajor?
  }

  predicate MinorState(s: State) {
    s.ResFirstMinor? || s.ResMinor? || s.ReqFirstMinor? || s.ReqMinor?
  }

  /** A further digit of the major version. */
  function MoreMajor(p: Parser, ch: byte): (o: Outcome)
    requires Sound(p) && Unmarked(p.state) && Plain(p.state)
    ensures Good(p, 1, o)
  {
    hide Good;
    if !IsNum(ch) then Fail(p, InvalidVersion)
    else
      var q := p.(major := p.major * 10 + Digit(ch));
      if q.major > 999 then FailAs(p, q, InvalidVersion) else Go(p, q)
  }

  function MoreMinor(p: Parser, ch: byte): (o: Outcome)
    requires Sound(p) && Unmarked(p.state) && Plain(p.state)
    ensures Good(p, 1, o)
  {
    hide Good;
    if !IsNum(ch) then Fail(p, InvalidVersion)
    else
      var q := p.(minor := p.minor * 10 + Digit(ch));
      if q.minor > 999 then FailAs(p, q, InvalidVersion) else Go(p, q)
  }

  function StepMajor(p: Parser, ch: byte): (o: Outcome)
    requires AtSwitch(p) && MajorState(p.state)
    ensures Good(p, 1, o)
  {
    hide Good, AtSwitch;
    AtSwitchSound(p);
    if p.state.ResFirstMajor? || p.state.ReqFirstMajor? then
      if !IsNum(ch) || (p.state.ReqFirstMajor? && Is(ch, '0')) then Fail(p, InvalidVersion)
      else Go(p, p.(major := Digit(ch), state := if p.state.ResFirstMajor? then ResMajor else ReqMajor))
    else if Is(ch, '.') then Go(p, p.(state := if p.state.ResMajor? then ResFirstMinor else ReqFirstMinor))
    else MoreMajor(p, ch)
  }

  function StepMinor(p: Parser, ch: byte): (o: Outcome)
    requires AtSwitch(p) && MinorState(p.state)
    ensures Good(p, 1, o)
  {
    hide Good, AtSwitch;
    AtSwitchSound(p);
    if p.state.ResFirstMinor? || p.state.ReqFirstMinor? then
      if !IsNum(ch) then Fail(p, InvalidVersion)
      else Go(p, p.(minor := Digit(ch), state := if p.state.ResFirstMinor? then ResMinor else ReqMinor))
    else if p.state.ResMinor? then
      if ch == SP then Go(p, p.(state := ResFirstStatusCode)) else MoreMinor(p, ch)
    else if ch == CR then Go(p, p.(state := ReqLineAlmostDone))
    else if ch == LF then Go(p, p.(state := HeaderFieldStart))
    else MoreMinor(p, ch)
  }

  predicate LineState(s: State) {
    s.ResFirstStatusCode? || s.ResStatusCode? || s.ResStatus? || s.ResLineAlmostDone? || s.ReqLineAlmostDone?
  }

  /** The status code and the ends of both first lines. */
  function StepLine(p: Parser, ch: byte): (o: Outcome)
    requires AtSwitch(p) && LineState(p.state)
    ensures Good(p, 1, o)
  {
    hide Good, AtSwitch;
    AtSwitchSound(p);
    if p.state.ResFirstStatusCode? then
      if IsNum(ch) then Go(p, p.(status := Digit(ch), state := ResStatusCode))
      else if ch == SP then Go(p, p)
      else Fail(p, InvalidStatus)
    else if p.state.ResStatusCode? && IsNum(ch) then
      var q := p.(status := p.status * 10 + Digit(ch));
      if q.status > 999 then FailAs(p, q, InvalidStatus) else Go(p, q)
    else if p.state.ResStatusCode? || p.state.ResStatus? then
      if ch == CR then Go(p, p.(state := ResLineAlmostDone))
      else if ch == LF then Go(p, p.(state := HeaderFieldStart))
      else if p.state.ResStatus? then Go(p, p)
      else if ch == SP then Go(p, p.(state := ResStatus))
      else Fail(p, InvalidStatus)
    else if ch != LF then Fail(p, if p.state.ResLineAlmostDone? then Strict else LfExpected)
    else Go(p, p.(state := HeaderFieldStart))
  }

  // ---- URL ----

  /** `parse_url_char`; `Dead` is its error value. */
  function ParseUrlChar(s: State, ch: byte): (r: State)
    ensures r.Dead? || UrlState(r)
  {
    if ch == SP || ch == CR || ch == LF || ch == HT || ch == 12 then Dead
    else if s.ReqSpacesBeforeUrl? then
      if Is(ch, '/') || Is(ch, '*') then ReqPath else if IsAlpha(ch) then ReqSchema else Dead
    else if s.ReqSchema? then
      if IsAlpha(ch) then s else if Is(ch, ':') then ReqSchemaSlash else Dead
    else if s.ReqSchemaSlash? then
      if Is(ch, '/') then ReqSchemaSlashSlash else Dead
    else if s.ReqSchemaSlashSlash? then
      if Is(ch, '/') then ReqServerStart else Dead
    else if s.ReqServerWithAt? || s.ReqServerStart? || s.ReqServer? then
      if s.ReqServerWithAt? && Is(ch, '@') then Dead
      else if Is(ch, '/') then ReqPath
      else if Is(ch, '?') then ReqQueryStart
      else if Is(ch, '@') then ReqServerWithAt
      else if IsUserinfoChar(ch) || Is(ch, '[') || Is(ch, ']') then ReqServer
      else Dead
    else if s.ReqPath? then
      if IsUrlChar(ch) then s else if Is(ch, '?') then ReqQueryStart else if Is(ch, '#') then ReqFragmentStart else Dead
    else if s.ReqQueryStart? || s.ReqQuery? then
      if IsUrlChar(ch) || Is(ch, '?') then ReqQuery else if Is(ch, '#') then ReqFragmentStart else Dead
    else if s.ReqFragmentStart? then
      if IsUrlChar(ch) || Is(ch, '?') then ReqFragment else if Is(ch, '#') then s else Dead
    else if s.ReqFragment? then
      if IsUrlChar(ch) || Is(ch, '?') || Is(ch, '#') then s else Dead
    else Dead
  }

  /** MARK, or keep the mark, of a state that holds one. */
  function Hold(p: Parser, q: Parser, part: Part): (o: Outcome)
    requires Sound(q) && Holds(q.state) == Some(part)
    requires Holds(p.state) == Some(part) || Unmarked(p.state)
    requires q.state.HeaderField? ==> FieldMatching(q.headerState)
    requires q.state.HeaderValue? ==> ValueMatching(q.headerState)
    requires q.state.HeaderValue? && q.headerState.ContentLength? ==> q.contentLength < ULLONG_MAX
    ensures Good(p, 1, o)
  {
    Outcome(q, if Holds(p.state).Some? then None else Some(part), None, None, Break, 1)
  }

  /** CALLBACK_DATA on leaving a state that holds a mark. */
  function Release(p: Parser, q: Parser, part: Part): (o: Outcome)
    requires Sound(q) && Plain(q.state) && Holds(p.state) == Some(part)
    ensures Good(p, 1, o)
  {
    Outcome(q, None, Some(part), None, Break, 1)
  }

  function UrlChar(p: Parser, s: State, ch: byte): (o: Outcome)
    requires Sound(p) && (Holds(p.state) == Some(Url) || Unmarked(p.state))
    ensures Good(p, 1, o)
  {
    hide Good;
    var next := ParseUrlChar(s, ch);
    if next.Dead? then FailAs(p, p.(state := Dead), InvalidUrl) else Hold(p, p.(state := next), Url)
  }

  function StepUrl(p: Parser, ch: byte): (o: Outcome)
    requires AtSwitch(p) && (UrlState(p.state) || p.state.ReqSpacesBeforeUrl?)
    ensures Good(p, 1, o)
  {
    hide Good, AtSwitch, ParseUrlChar;
    AtSwitchSound(p);
    if p.state.ReqSpacesBeforeUrl? then
      if ch == SP then Go(p, p)
      else UrlChar(p, if p.meth == M_CONNECT then ReqServerStart else p.state, ch)
    else if p.state.ReqSchema? || p.state.ReqSchemaSlash? || p.state.ReqSchemaSlashSlash?
      || p.state.ReqServerStart? then
      if ch == SP || ch == CR || ch == LF then Fail(p, InvalidUrl) else UrlChar(p, p.state, ch)
    else if ch == SP then Release(p, p.(state := ReqHttpStart), Url)
    else if ch == CR || ch == LF then
      Release(p, p.(major := 0, minor := 9, state := if ch == CR then ReqLineAlmostDone else HeaderFieldStart), Url)
    else UrlChar(p, p.state, ch)
  }

  // ---- Header lines ----

  const CONNECTION := "connection"
  const PROXY_CONNECTION := "proxy-connection"
  const CONTENT_LENGTH := "content-length"
  const TRANSFER_ENCODING := "transfer-encoding"
  const UPGRADE := "upgrade"
  const CHUNKED := "chunked"
  const KEEP_ALIVE := "keep-alive"
  const CLOSE := "close"

  /** One more character of a known word: the header state stays, falls back to general, or
      is `done` when the last but one position has been reached. */
  function Match(word: string, index: nat, c: int, matching: HeaderState, done: HeaderState): HeaderState {
    if index > |word| || c != At(word, index) then General
    else if index + 1 == |word| then done
    else matching
  }

  /** The header state after one more character of a field name. */
  function NextInField(h: HeaderState, index: nat, c: int, ch: byte): (r: HeaderState)
    requires FieldMatching(h)
    ensures FieldMatching(r)
  {
    match h
    case General => General
    case C => if c == 'o' as int then CO else General
    case CO => if c == 'n' as int then CON else General
    case CON =>
      if c == 'n' as int then MatchingConnection else if c == 't' as int then MatchingContentLength else General
    case MatchingConnection => Match(CONNECTION, index + 1, c, h, Connection)
    case MatchingProxyConnection => Match(PROXY_CONNECTION, index + 1, c, h, Connection)
    case MatchingContentLength => Match(CONTENT_LENGTH, index + 1, c, h, ContentLength)
    case MatchingTransferEncoding => Match(TRANSFER_ENCODING, index + 1, c, h, TransferEncoding)
    case MatchingUpgrade => Match(UPGRADE, index + 1, c, h, Upgrade)
    case Connection => if ch != SP then General else h
    case ContentLength => if ch != SP then General else h
    case TransferEncoding => if ch != SP then General else h
    case Upgrade => if ch != SP then General else h
  }

  /** Which header states count up `index`, an unsigned char. */
  function NextIndex(h: HeaderState, index: nat): nat {
    if h.General? || h.Connection? || h.ContentLength? || h.TransferEncoding? || h.Upgrade?
      || h.TransferEncodingChunked? || h.ConnectionKeepAlive? || h.ConnectionClose? then index
    else (index + 1) % 256
  }

  function FirstOfField(c: int): HeaderState {
    if c == 'c' as int then C
    else if c == 'p' as int then MatchingProxyConnection
    else if c == 't' as int then MatchingTransferEncoding
    else if c == 'u' as int then MatchingUpgrade
    else General
  }

  lemma AtField(p: Parser)
    requires AtSwitch(p) && p.state.HeaderField?
    ensures FieldMatching(p.headerState)
  {
  }

  function StepField(p: Parser, ch: byte): (o: Outcome)
    requires AtSwitch(p) && (p.state.HeaderFieldStart? || p.state.HeaderField?)
    ensures Good(p, 1, o)
  {
    hide Good, AtSwitch, Token;
    AtSwitchSound(p);
    var c := Token(ch);
    if p.state.HeaderField? then StepInField(p, ch, c)
    else if ch == CR then Go(p, p.(state := HeadersAlmostDone))
    else if ch == LF then Again(p, p.(state := HeadersAlmostDone))
    else if c == 0 then Fail(p, InvalidHeaderToken)
    else FieldBegins(p, c)
  }

  function StepInField(p: Parser, ch: byte, c: int): (o: Outcome)
    requires AtSwitch(p) && p.state.HeaderField?
    ensures Good(p, 1, o)
  {
    hide Good, AtSwitch, NextInField, NextIndex, FieldMatching;
    AtSwitchSound(p);
    if c != 0 then
      AtField(p);
      // NextInField has no case for the header states the source calls unknown here.
      Hold(p, p.(index := NextIndex(p.headerState, p.index), headerState := NextInField(p.headerState, p.index, c, ch)),
        Field)
    else if Is(ch, ':') then Release(p, p.(state := HeaderValueStart), Field)
    else if ch == CR then Release(p, p.(state := HeaderAlmostDone), Field)
    else if ch == LF then Release(p, p.(state := HeaderFieldStart), Field)
    else Fail(p, InvalidHeaderToken)
  }

  function FieldBegins(p: Parser, c: int): (o: Outcome)
    requires Sound(p) && p.state.HeaderFieldStart?
    ensures Good(p, 1, o)
  {
    hide Good;
    Hold(p, p.(index := 0, state := HeaderField, headerState := FirstOfField(c)), Field)
  }

  // ---- Header values ----

  /** Zero-length CALLBACK_DATA of an empty value. */
  function EmptyValue(p: Parser, q: Parser): (o: Outcome)
    requires Sound(q) && Plain(q.state) && p.state.HeaderValueStart?
    ensures Good(p, 1, o)
  {
    Outcome(q, Some(Value), Some(Value), None, Break, 1)
  }

  /** The first character of a value; `None` is an invalid content length. */
  function FirstOfValue(p: Parser, ch: byte): (r: Option<Parser>)
    requires Sound(p)
    ensures r.Some? ==> Sound(r.value) && ValueMatching(r.value.headerState) && r.value.state == p.state
    ensures r.Some? && r.value.headerState.ContentLength? ==> r.value.contentLength < 10
  {
    var c := Lower(ch) as int;
    if p.headerState.Upgrade? then Some(p.(flags := p.flags.(upgrade := true), headerState := General))
    else if p.headerState.TransferEncoding? then
      Some(p.(headerState := if c == 'c' as int then MatchingTransferEncodingChunked else General))
    else if p.headerState.ContentLength? then
      if IsNum(ch) then Some(p.(contentLength := Digit(ch))) else None
    else if p.headerState.Connection? then
      Some(p.(headerState :=
        if c == 'k' as int then MatchingConnectionKeepAlive
        else if c == 'c' as int then MatchingConnectionClose
        else General))
    else Some(p.(headerState := General))
  }

  function StepValueStart(p: Parser, ch: byte): (o: Outcome)
    requires AtSwitch(p) && p.state.HeaderValueStart?
    ensures Good(p, 1, o)
  {
    hide Good, AtSwitch, FirstOfValue, ValueMatching;
    AtSwitchSound(p);
    var q := p.(state := HeaderValue, index := 0);
    if ch == SP || ch == HT then Go(p, p)
    else if ch == CR then EmptyValue(p, q.(headerState := General, state := HeaderAlmostDone))
    else if ch == LF then EmptyValue(p, q.(state := HeaderFieldStart))
    else
      match FirstOfValue(q, ch)
      case None => FailAs(p, q, InvalidContentLength)
      case Some(r) => Hold(p, r, Value)
  }

  /** 64-bit `t = t * base + d` and the overflow test on it. */
  function Accumulate(v: nat, base: nat, d: nat): (r: Option<nat>)
    ensures r.Some? ==> r.value < ULLONG_MAX
  {
    var t := (v * base + d) % TWO_TO_THE_64;
    if t < v || t == ULLONG_MAX then None else Some(t)
  }

  /** A further character of a value; `None` is an invalid content length. */
  function NextOfValue(p: Parser, ch: byte): (r: Option<Parser>)
    requires Sound(p) && ValueMatching(p.headerState) && (p.headerState.ContentLength? ==> p.contentLength < ULLONG_MAX)
    ensures r.Some? ==> Sound(r.value) && ValueMatching(r.value.headerState) && r.value.state == p.state
    ensures r.Some? && r.value.headerState.ContentLength? ==> r.value.contentLength < ULLONG_MAX
  {
    var h, c, i := p.headerState, Lower(ch) as int, p.index + 1;
    if h.ContentLength? then
      if ch == SP then Some(p)
      else if !IsNum(ch) then None
      else
        match Accumulate(p.contentLength, 10, Digit(ch))
        case None => None
        case Some(t) => Some(p.(contentLength := t))
    else
      var next :=
        if h.MatchingTransferEncodingChunked? then Match(CHUNKED, i, c, h, TransferEncodingChunked)
        else if h.MatchingConnectionKeepAlive? then Match(KEEP_ALIVE, i, c, h, ConnectionKeepAlive)
        else if h.MatchingConnectionClose? then Match(CLOSE, i, c, h, ConnectionClose)
        else if ch == SP then h
        else General;
      Some(p.(index := NextIndex(h, p.index), headerState := next))
  }

  /** CALLBACK_DATA_NOADVANCE and reexecute, at a bare LF after a value. */
  function ReleaseAgain(p: Parser): (o: Outcome)
    requires Sound(p) && p.state.HeaderValue?
    ensures Good(p, 1, o)
  {
    Outcome(p.(state := HeaderAlmostDone), None, Some(Value), None, Reexecute, 1)
  }

  lemma AtValue(p: Parser)
    requires AtSwitch(p) && p.state.HeaderValue?
    ensures ValueMatching(p.headerState) && (p.headerState.ContentLength? ==> p.contentLength < ULLONG_MAX)
  {
  }

  function StepValue(p: Parser, ch: byte): (o: Outcome)
    requires AtSwitch(p) && p.state.HeaderValue?
    ensures Good(p, 1, o)
  {
    hide Good, AtSwitch, NextOfValue, ValueMatching;
    AtSwitchSound(p);
    AtValue(p);
    if ch == CR then Release(p, p.(state := HeaderAlmostDone), Value)
    else if ch == LF then ReleaseAgain(p)
    else
      // The states the source asserts away here are ruled out by AtValue.
      match NextOfValue(p, ch)
      case None => Fail(p, InvalidContentLength)
      case Some(r) => Hold(p, r, Value)
  }

  predicate LineEndState(s: State) {
    s.HeaderAlmostDone? || s.HeaderValueLws?
  }

  function StepLineEnd(p: Parser, ch: byte): (o: Outcome)
    requires AtSwitch(p) && LineEndState(p.state)
    ensures Good(p, 1, o)
  {
    hide Good, AtSwitch;
    AtSwitchSound(p);
    if p.state.HeaderAlmostDone? then
      if ch != LF then Fail(p, Strict)
      else
        var f :=
          if p.headerState.ConnectionKeepAlive? then p.flags.(keepAlive := true)
          else if p.headerState.ConnectionClose? then p.flags.(close := true)
          else if p.headerState.TransferEncodingChunked? then p.flags.(chunked := true)
          else p.flags;
        Go(p, p.(flags := f, state := HeaderValueLws))
    else if ch == SP || ch == HT then Go(p, p.(state := HeaderValueStart))
    else Again(p, p.(state := HeaderFieldStart))
  }

  // ---- End of the headers ----

  predicate HeadersEndState(s: State) {
    s.HeadersAlmostDone? || s.HeadersDone?
  }

  function Complete(p: Parser, q: Parser): (o: Outcome)
    requires Unmarked(p.state) && Sound(q)
    ensures Good(p, 1, o)
  {
    Outcome(q.(state := NewMessage(q)), None, None, Some(MessageComplete), Break, 1)
  }

  /** The rest of the connection is in a different protocol. */
  function HandOver(p: Parser, q: Parser): (o: Outcome)
    requires Unmarked(p.state) && q.upgrade && q.errno == Ok
    ensures Good(p, 1, o)
  {
    Outcome(q.(state := NewMessage(q)), None, None, Some(MessageComplete), Return, 1)
  }

  function HeadersAreComplete(p: Parser): (o: Outcome)
    requires Sound(p) && p.state.HeadersAlmostDone?
    ensures Good(p, 1, o)
  {
    var q := p.(state := HeadersDone, upgrade := p.flags.upgrade || p.meth == M_CONNECT);
    Outcome(q, None, None, Some(HeadersComplete), Reexecute, 1)
  }

  function BodyFollows(p: Parser, q: Parser): (o: Outcome)
    requires p.state.HeadersDone? && Sound(q) && q.nread == 0
    requires q.state.BodyIdentityEof? || (q.state.ChunkSizeStart? && q.flags.chunked)
      || (q.state.BodyIdentity? && 0 < q.contentLength < ULLONG_MAX)
    ensures Good(p, 1, o)
  {
    Outcome(q, None, None, None, Break, 1)
  }

  function StepHeadersEnd(p: Parser, ch: byte): (o: Outcome)
    requires AtSwitch(p) && HeadersEndState(p.state)
    ensures Good(p, 1, o)
  {
    hide Good, AtSwitch;
    if ch != LF then Fail(p, Strict)
    else if p.state.HeadersAlmostDone? then
      AtSwitchSound(p);
      if p.flags.trailing then Complete(p, p) else HeadersAreComplete(p)
    else StepHeadersDone(p, p.(nread := 0))
  }

  lemma AtHeadersDone(p: Parser)
    requires AtSwitch(p)
    ensures p.errno == Ok && Sound(p.(upgrade := false))
  {
  }

  function StepHeadersDone(p: Parser, q: Parser): (o: Outcome)
    requires AtSwitch(p) && p.state.HeadersDone? && q == p.(nread := 0)
    ensures Good(p, 1, o)
  {
    hide Good, AtSwitch, NewMessage, NeedsEof;
    AtHeadersDone(p);
    if q.upgrade then HandOver(p, q)
    else if q.flags.skipBody then Complete(p, q)
    else if q.flags.chunked then BodyFollows(p, q.(state := ChunkSizeStart))
    else if q.contentLength == 0 then Complete(p, q)
    else if q.contentLength != ULLONG_MAX then BodyFollows(p, q.(state := BodyIdentity))
    else if q.kind == Request || !NeedsEof(q) then Complete(p, q)
    else BodyFollows(p, q.(state := BodyIdentityEof))
  }

  // ---- Bodies ----

  predicate BodyState(s: State) {
    s.BodyIdentity? || s.BodyIdentityEof? || s.MessageDone?
  }

  function Min(a: nat, b: nat): nat {
    if a < b then a else b
  }

  /** `avail` bytes are left in the buffer, the current one included. */
  function StepBody(p: Parser, avail: nat): (o: Outcome)
    requires AtSwitch(p) && BodyState(p.state) && avail > 0
    ensures Good(p, avail, o)
  {
    if p.state.BodyIdentity? then
      assert p.contentLength != 0 && p.contentLength != ULLONG_MAX;
      var n := Min(p.contentLength, avail);
      var q := p.(contentLength := p.contentLength - n);
      if q.contentLength == 0 then Outcome(q.(state := MessageDone), Some(Body), Some(Body), None, Reexecute, n)
      else Outcome(q, Some(Body), None, None, Break, n)
    else if p.state.BodyIdentityEof? then
      Outcome(p, Some(Body), None, None, Break, avail)
    else
      Complete(p, p)
  }

  predicate ChunkHeadState(s: State) {
    s.ChunkSizeStart? || s.ChunkSize? || s.ChunkParameters? || s.ChunkSizeAlmostDone?
  }

  /** Within the line that gives the size of a chunk. */
  function InChunkHead(p: Parser, q: Parser): (o: Outcome)
    requires ChunkHeadState(p.state) && Sound(q) && q.flags.chunked && q.contentLength < ULLONG_MAX
    requires q.state.ChunkSize? || q.state.ChunkParameters? || q.state.ChunkSizeAlmostDone?
    ensures Good(p, 1, o)
  {
    Outcome(q, None, None, None, Break, 1)
  }

  lemma AtChunkHead(p: Parser)
    requires AtSwitch(p) && ChunkHeadState(p.state)
    ensures p.flags.chunked && (p.state.ChunkSizeStart? ==> p.nread == 1)
    ensures !p.state.ChunkSizeStart? ==> p.contentLength < ULLONG_MAX
  {
  }

  function StepChunkHead(p: Parser, ch: byte): (o: Outcome)
    requires AtSwitch(p) && ChunkHeadState(p.state)
    ensures Good(p, 1, o)
  {
    hide Good, AtSwitch, Unhex, Accumulate;
    AtSwitchSound(p);
    AtChunkHead(p);
    assert p.flags.chunked;
    var d := Unhex(ch);
    if p.state.ChunkSizeStart? then
      assert p.nread == 1;
      UnhexRange(ch);
      if d == -1 then Fail(p, InvalidChunkSize) else InChunkHead(p, p.(contentLength := d, state := ChunkSize))
    else if p.state.ChunkSizeAlmostDone? then
      if ch != LF then Fail(p, Strict) else ChunkHeadEnds(p)
    else if ch == CR then InChunkHead(p, p.(state := ChunkSizeAlmostDone))
    else if p.state.ChunkParameters? then InChunkHead(p, p)
    else if d == -1 then
      if Is(ch, ';') || ch == SP then InChunkHead(p, p.(state := ChunkParameters)) else Fail(p, InvalidChunkSize)
    else
      UnhexRange(ch);
      match Accumulate(p.contentLength, 16, d)
      case None => Fail(p, InvalidContentLength)
      case Some(t) => InChunkHead(p, p.(contentLength := t))
  }

  lemma UnhexRange(ch: byte)
    ensures -1 <= Unhex(ch) < 16
  {
  }

  function ChunkHeadEnds(p: Parser): (o: Outcome)
    requires Sound(p) && p.state.ChunkSizeAlmostDone? && p.flags.chunked && p.contentLength < ULLONG_MAX
    ensures Good(p, 1, o)
  {
    var q := p.(nread := 0);
    if q.contentLength == 0 then
      Outcome(q.(flags := q.flags.(trailing := true), state := HeaderFieldStart), None, None, None, Break, 1)
    else
      Outcome(q.(state := ChunkData), None, None, None, Break, 1)
  }

  predicate ChunkDataState(s: State) {
    s.ChunkData? || s.ChunkDataAlmostDone? || s.ChunkDataDone?
  }

  function StepInChunk(p: Parser, avail: nat): (o: Outcome)
    requires AtSwitch(p) && p.state.ChunkData? && avail > 0
    ensures Good(p, avail, o)
  {
    assert p.contentLength != 0 && p.contentLength != ULLONG_MAX;
    var n := Min(p.contentLength, avail);
    var q := p.(contentLength := p.contentLength - n);
    Outcome(if q.contentLength == 0 then q.(state := ChunkDataAlmostDone) else q, Some(Body), None, None, Break, n)
  }

  function StepChunkData(p: Parser, ch: byte, avail: nat): (o: Outcome)
    requires AtSwitch(p) && ChunkDataState(p.state) && avail > 0
    ensures Good(p, avail, o)
  {
    assert p.flags.chunked;
    if p.state.ChunkData? then StepInChunk(p, avail)
    else if p.state.ChunkDataAlmostDone? then
      assert p.contentLength == 0;
      if ch != CR then Fail(p, Strict) else Outcome(p.(state := ChunkDataDone), None, Some(Body), None, Break, 1)
    else if ch != LF then Fail(p, Strict)
    else Outcome(p.(nread := 0, state := ChunkSizeStart), None, None, None, Break, 1)
  }

  // ---- The switch ----

  /** One execution of the switch.  There is no state without a case. */
  function Step(p: Parser, ch: byte, avail: nat): (o: Outcome)
    requires AtSwitch(p) && avail > 0
    ensures Good(p, avail, o)
  {
    hide Good, AtSwitch;
    if StartState(p.state) then Wider(p, avail, StepStart(p, ch))
    else if p.state.ReqMethod? then Wider(p, avail, StepMethod(p, ch))
    else if NameState(p.state) then Wider(p, avail, StepName(p, ch))
    else if MajorState(p.state) then Wider(p, avail, StepMajor(p, ch))
    else if MinorState(p.state) then Wider(p, avail, StepMinor(p, ch))
    else if LineState(p.state) then Wider(p, avail, StepLine(p, ch))
    else if UrlState(p.state) || p.state.ReqSpacesBeforeUrl? then Wider(p, avail, StepUrl(p, ch))
    else if p.state.HeaderFieldStart? || p.state.HeaderField? then Wider(p, avail, StepField(p, ch))
    else if p.state.HeaderValueStart? then Wider(p, avail, StepValueStart(p, ch))
    else if p.state.HeaderValue? then Wider(p, avail, StepValue(p, ch))
    else if LineEndState(p.state) then Wider(p, avail, StepLineEnd(p, ch))
    else if HeadersEndState(p.state) then Wider(p, avail, StepHeadersEnd(p, ch))
    else if ChunkHeadState(p.state) then Wider(p, avail, StepChunkHead(p, ch))
    else if ChunkDataState(p.state) then StepChunkData(p, ch, avail)
    else StepBody(p, avail)
  }

  /** Which group of cases handles a state. */
  lemma Cases(p: Parser, ch: byte)
    requires AtSwitch(p)
    ensures StartState(p.state) ==> Step(p, ch, 1) == StepStart(p, ch)
    ensures p.state.ReqMethod? ==> Step(p, ch, 1) == StepMethod(p, ch)
    ensures NameState(p.state) ==> Step(p, ch, 1) == StepName(p, ch)
    ensures MajorState(p.state) ==> Step(p, ch, 1) == StepMajor(p, ch)
    ensures MinorState(p.state) ==> Step(p, ch, 1) == StepMinor(p, ch)
    ensures LineState(p.state) ==> Step(p, ch, 1) == StepLine(p, ch)
    ensures UrlState(p.state) || p.state.ReqSpacesBeforeUrl? ==> Step(p, ch, 1) == StepUrl(p, ch)
    ensures p.state.HeaderFieldStart? || p.state.HeaderField? ==> Step(p, ch, 1) == StepField(p, ch)
    ensures p.state.HeaderValueStart? ==> Step(p, ch, 1) == StepValueStart(p, ch)
    ensures p.state.HeaderValue? ==> Step(p, ch, 1) == StepValue(p, ch)
    ensures LineEndState(p.state) ==> Step(p, ch, 1) == StepLineEnd(p, ch)
    ensures HeadersEndState(p.state) ==> Step(p, ch, 1) == StepHeadersEnd(p, ch)
    ensures ChunkHeadState(p.state) ==> Step(p, ch, 1) == StepChunkHead(p, ch)
    ensures ChunkDataState(p.state) ==> Step(p, ch, 1) == StepChunkData(p, ch, 1)
    ensures BodyState(p.state) ==> Step(p, ch, 1) == StepBody(p, 1)
  {
    hide Good, AtSwitch;
    hide StepStart, StepMethod, StepName, StepMajor, StepMinor, StepLine, StepUrl, StepField, StepValueStart, StepValue;
    hide StepLineEnd, StepHeadersEnd, StepChunkHead, StepChunkData, StepBody;
  }

  /** Only the body states look at how many bytes are available. */
  lemma StepInBody(p: Parser, ch: byte, avail: nat)
    requires AtSwitch(p) && avail > 0
    ensures ChunkDataState(p.state) ==> Step(p, ch, avail) == StepChunkData(p, ch, avail)
    ensures BodyState(p.state) ==> Step(p, ch, avail) == StepBody(p, avail)
    ensures !p.state.BodyIdentity? && !p.state.BodyIdentityEof? && !p.state.ChunkData? ==>
      Step(p, ch, avail) == Step(p, ch, 1)
  {
    hide Good, AtSwitch;
    hide StepStart, StepMethod, StepName, StepMajor, StepMinor, StepLine, StepUrl, StepField, StepValueStart, StepValue;
    hide StepLineEnd, StepHeadersEnd, StepChunkHead;
  }

  function Wider(p: Parser, avail: nat, o: Outcome): (r: Outcome)
    requires Good(p, 1, o) && avail > 0
    ensures r == o && Good(p, avail, r)
  {
    o
  }
}
