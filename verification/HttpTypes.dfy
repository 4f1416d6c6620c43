/** The data of `http_parser`: states in the order of the source's enumeration, the parser
    struct, and the character classes of the strict build. */
module HttpTypes {
  import opened Bytes

  const MAX_HEADER_SIZE: nat := 80 * 1024
  const ULLONG_MAX: nat := TWO_TO_THE_64 - 1

  datatype Kind = Request | Response | Both

  datatype State =
    | Dead | StartReqOrRes | ResOrRespH | StartRes | ResH | ResHT | ResHTT | ResHTTP
    | ResFirstMajor | ResMajor | ResFirstMinor | ResMinor
    | ResFirstStatusCode | ResStatusCode | ResStatus | ResLineAlmostDone
    | StartReq | ReqMethod | ReqSpacesBeforeUrl
    | ReqSchema | ReqSchemaSlash | ReqSchemaSlashSlash | ReqServerStart | ReqServer | ReqServerWithAt
    | ReqPath | ReqQueryStart | ReqQuery | ReqFragmentStart | ReqFragment
    | ReqHttpStart | ReqHttpH | ReqHttpHT | ReqHttpHTT | ReqHttpHTTP
    | ReqFirstMajor | ReqMajor | ReqFirstMinor | ReqMinor | ReqLineAlmostDone
    | HeaderFieldStart | HeaderField | HeaderValueStart | HeaderValue | HeaderValueLws | HeaderAlmostDone
    | ChunkSizeStart | ChunkSize | ChunkParameters | ChunkSizeAlmostDone
    | HeadersAlmostDone | HeadersDone
    | ChunkData | ChunkDataAlmostDone | ChunkDataDone | BodyIdentity | BodyIdentityEof | MessageDone

  /** PARSING_HEADER: everything up to and including `s_headers_done`. */
  predicate ParsingHeader(s: State) {
    !(s.ChunkData? || s.ChunkDataAlmostDone? || s.ChunkDataDone? || s.BodyIdentity? || s.BodyIdentityEof?
      || s.MessageDone?)
  }

  predicate BetweenMessages(s: State) {
    s.Dead? || s.StartReqOrRes? || s.StartRes? || s.StartReq?
  }

  predicate UrlState(s: State) {
    || s.ReqSchema? || s.ReqSchemaSlash? || s.ReqSchemaSlashSlash? || s.ReqServerStart? || s.ReqServer?
    || s.ReqServerWithAt?
    || s.ReqPath? || s.ReqQueryStart? || s.ReqQuery? || s.ReqFragmentStart? || s.ReqFragment?
  }

  datatype HeaderState =
    | General | C | CO | CON
    | MatchingConnection | MatchingProxyConnection | MatchingContentLength | MatchingTransferEncoding | MatchingUpgrade
    | Connection | ContentLength | TransferEncoding | Upgrade
    | MatchingTransferEncodingChunked | MatchingConnectionKeepAlive | MatchingConnectionClose
    | TransferEncodingChunked | ConnectionKeepAlive | ConnectionClose

  datatype Flags = Flags(chunked: bool, keepAlive: bool, close: bool, trailing: bool, upgrade: bool, skipBody: bool)

  const NO_FLAGS := Flags(false, false, false, false, false, false)

  datatype Errno =
    | Ok | InvalidEofState | HeaderOverflow | ClosedConnection | InvalidVersion | InvalidStatus | InvalidMethod
    | InvalidUrl | LfExpected | InvalidHeaderToken | InvalidContentLength | InvalidChunkSize | InvalidConstant
    | Strict | Unknown

  datatype Parser = Parser(
    kind: Kind,
    flags: Flags,
    state: State,
    headerState: HeaderState,
    index: nat,
    nread: nat,
    contentLength: nat,
    major: nat,
    minor: nat,
    status: nat,
    meth: nat,
    errno: Errno,
    upgrade: bool)

  /** `http_parser_init`. */
  function Init(kind: Kind): Parser {
    var start := match kind case Request => StartReq case Response => StartRes case Both => StartReqOrRes;
    Parser(kind, NO_FLAGS, start, General, 0, 0, 0, 0, 0, 0, 0, Ok, false)
  }

  const METHOD_COUNT: nat := 26

  function MethodName(m: nat): string {
    if m == M_DELETE then "DELETE"
    else if m == M_GET then "GET"
    else if m == M_HEAD then "HEAD"
    else if m == M_POST then "POST"
    else if m == M_PUT then "PUT"
    else if m == M_CONNECT then "CONNECT"
    else if m == M_OPTIONS then "OPTIONS"
    else if m == M_TRACE then "TRACE"
    else if m == M_COPY then "COPY"
    else if m == M_LOCK then "LOCK"
    else if m == M_MKCOL then "MKCOL"
    else if m == M_MOVE then "MOVE"
    else if m == M_PROPFIND then "PROPFIND"
    else if m == M_PROPPATCH then "PROPPATCH"
    else if m == M_SEARCH then "SEARCH"
    else if m == M_UNLOCK then "UNLOCK"
    else if m == M_REPORT then "REPORT"
    else if m == M_MKACTIVITY then "MKACTIVITY"
    else if m == M_CHECKOUT then "CHECKOUT"
    else if m == M_MERGE then "MERGE"
    else if m == M_MSEARCH then "M-SEARCH"
    else if m == M_NOTIFY then "NOTIFY"
    else if m == M_SUBSCRIBE then "SUBSCRIBE"
    else if m == M_UNSUBSCRIBE then "UNSUBSCRIBE"
    else if m == M_PATCH then "PATCH"
    else "PURGE"
  }

  const M_DELETE := 0
  const M_GET := 1
  const M_HEAD := 2
  const M_POST := 3
  const M_PUT := 4
  const M_CONNECT := 5
  const M_OPTIONS := 6
  const M_TRACE := 7
  const M_COPY := 8
  const M_LOCK := 9
  const M_MKCOL := 10
  const M_MOVE := 11
  const M_PROPFIND := 12
  const M_PROPPATCH := 13
  const M_SEARCH := 14
  const M_UNLOCK := 15
  const M_REPORT := 16
  const M_MKACTIVITY := 17
  const M_CHECKOUT := 18
  const M_MERGE := 19
  const M_MSEARCH := 20
  const M_NOTIFY := 21
  const M_SUBSCRIBE := 22
  const M_UNSUBSCRIBE := 23
  const M_PATCH := 24
  const M_PURGE := 25

  /** `strlen` of the method's name. */
  function MethodLength(m: nat): nat {
    if m == M_GET || m == M_PUT then 3
    else if m == M_HEAD || m == M_POST || m == M_COPY || m == M_LOCK || m == M_MOVE then 4
    else if m == M_TRACE || m == M_MKCOL || m == M_MERGE || m == M_PATCH || m == M_PURGE then 5
    else if m == M_CONNECT || m == M_OPTIONS then 7
    else if m == M_PROPFIND || m == M_CHECKOUT || m == M_MSEARCH then 8
    else if m == M_PROPPATCH || m == M_SUBSCRIBE then 9
    else if m == M_MKACTIVITY then 10
    else if m == M_UNSUBSCRIBE then 11
    else 6
  }

  const CR: byte := 13
  const LF: byte := 10
  const SP: byte := 32
  const HT: byte := 9

  /** The character of a C string at an index, 0 being its terminator. */
  function At(s: string, i: nat): int {
    if i < |s| then s[i] as int else 0
  }

  predicate Is(b: byte, c: char) {
    b as int == c as int
  }

  predicate IsNum(b: byte) {
    '0' as int <= b as int <= '9' as int
  }

  predicate IsAlpha(b: byte) {
    'A' as int <= b as int <= 'Z' as int || 'a' as int <= b as int <= 'z' as int
  }

  /** `c | 0x20`. */
  function Lower(b: byte): byte {
    if b as int / 32 % 2 == 0 then b + 32 else b
  }

  predicate IsMark(b: byte) {
    Is(b, '-') || Is(b, '_') || Is(b, '.') || Is(b, '!') || Is(b, '~') || Is(b, '*') || Is(b, '\'') || Is(b, '(')
      || Is(b, ')')
  }

  predicate IsUserinfoChar(b: byte) {
    || IsAlpha(b) || IsNum(b) || IsMark(b) || Is(b, '%') || Is(b, ';') || Is(b, ':') || Is(b, '&') || Is(b, '=')
    || Is(b, '+') || Is(b, '$') || Is(b, ',')
  }

  /** The strict `normal_url_char` table. */
  predicate IsUrlChar(b: byte) {
    33 <= b <= 126 && !Is(b, '#') && !Is(b, '?')
  }

  /** The `tokens` table: 0 for a non-token, else the lower-case character. */
  function Token(b: byte): int {
    if 'A' as int <= b as int <= 'Z' as int then b as int + 32
    else if IsNum(b) || 'a' as int <= b as int <= 'z' as int then b as int
    else if Is(b, '!') || Is(b, '#') || Is(b, '$') || Is(b, '%') || Is(b, '&') || Is(b, '\'') || Is(b, '*')
      || Is(b, '+')
      || Is(b, '-') || Is(b, '.') || Is(b, '^') || Is(b, '_') || Is(b, '`') || Is(b, '|') || Is(b, '~') then b as int
    else 0
  }

  /** The `unhex` table, whose upper half was left zero. */
  function Unhex(b: byte): int {
    if IsNum(b) then b as int - '0' as int
    else if 'A' as int <= b as int <= 'F' as int then b as int - 'A' as int + 10
    else if 'a' as int <= b as int <= 'f' as int then b as int - 'a' as int + 10
    else if b >= 128 then 0
    else -1
  }

  predicate NeedsEof(p: Parser) {
    && p.kind != Request
    && !(p.status / 100 == 1 || p.status == 204 || p.status == 304 || p.flags.skipBody)
    && !(p.flags.chunked || p.contentLength != ULLONG_MAX)
  }

  predicate ShouldKeepAlive(p: Parser) {
    && (if p.major > 0 && p.minor > 0 then !p.flags.close else p.flags.keepAlive)
    && !NeedsEof(p)
  }

  /** NEW_MESSAGE of the strict build. */
  function NewMessage(p: Parser): State {
    if !ShouldKeepAlive(p) then Dead else if p.kind == Request then StartReq else StartRes
  }
}
