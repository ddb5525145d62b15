/**
 The vocabulary of the incremental HTTP parser: bytes, character classes, the state and header-state
 enumerations, the parser record and the callbacks it reports.
 */
module HttpTypes {

  type Byte = b: int | 0 <= b < 256

  const CR: Byte := 13
  const LF: Byte := 10
  const SP: Byte := 32
  const HTAB: Byte := 9

  /** 2^64 - 1, the value of content_length while no Content-Length header has been seen. */
  const ULLONG_MAX: nat := 0xFFFF_FFFF_FFFF_FFFF

  // ---- Character classes ------------------------------------------------------------------------

  /** The byte with bit 5 set. */
  function Lower(ch: Byte): Byte {
    if (ch / 32) % 2 == 0 then ch + 32 else ch
  }

  predicate IsAlpha(ch: Byte) {
    'a' as int <= Lower(ch) <= 'z' as int
  }

  predicate IsNum(ch: Byte) {
    '0' as int <= ch <= '9' as int
  }

  predicate IsAlphaNum(ch: Byte) {
    IsAlpha(ch) || IsNum(ch)
  }

  predicate IsHex(ch: Byte) {
    IsNum(ch) || 'a' as int <= Lower(ch) <= 'f' as int
  }

  predicate IsMark(ch: Byte) {
    ch == '-' as int || ch == '_' as int || ch == '.' as int || ch == '!' as int || ch == '~' as int ||
    ch == '*' as int || ch == '\'' as int || ch == '(' as int || ch == ')' as int
  }

  predicate IsUserinfoChar(ch: Byte) {
    IsAlphaNum(ch) || IsMark(ch) || ch == '%' as int || ch == ';' as int || ch == ':' as int ||
    ch == '&' as int || ch == '=' as int || ch == '+' as int || ch == '$' as int || ch == ',' as int
  }

  predicate IsHeaderChar(ch: Byte) {
    ch == CR || ch == LF || ch == HTAB || (ch > 31 && ch != 127)
  }

  predicate IsUrlChar(strict: bool, ch: Byte) {
    || (33 <= ch < 127 && ch != '#' as int && ch != '?' as int)
    || (!strict && (ch == HTAB || ch == 12 || ch >= 128))
  }

  predicate IsSeparator(ch: Byte) {
    ch == '(' as int || ch == ')' as int || ch == '<' as int || ch == '>' as int || ch == '@' as int ||
    ch == ',' as int || ch == ';' as int || ch == ':' as int || ch == '\\' as int || ch == '"' as int ||
    ch == '/' as int || ch == '[' as int || ch == ']' as int || ch == '?' as int || ch == '=' as int ||
    ch == '{' as int || ch == '}' as int
  }

  /** The lower-cased token character, or 0 when `ch` is not one; a space is never a token here. */
  function StrictToken(ch: Byte): Byte {
    if ch <= 32 || ch >= 127 || IsSeparator(ch) then 0
    else if 'A' as int <= ch <= 'Z' as int then ch + 32
    else ch
  }

  /** As StrictToken, except that the non-strict build also takes a space for a token character. */
  function Token(strict: bool, ch: Byte): Byte {
    if ch == SP && !strict then SP else StrictToken(ch)
  }

  function Unhex(ch: Byte): (v: int)
    ensures -1 <= v < 16
    ensures v >= 0 <==> IsHex(ch)
  {
    if IsNum(ch) then ch - '0' as int
    else if 'a' as int <= ch <= 'f' as int then ch - 'a' as int + 10
    else if 'A' as int <= ch <= 'F' as int then ch - 'A' as int + 10
    else -1
  }

  /** The number a string of decimal digits stands for. */
  function Number(digits: seq<Byte>): nat {
    if digits == [] then 0
    else
      var last := digits[|digits| - 1];
      Number(digits[..|digits| - 1]) * 10 + if IsNum(last) then last - '0' as int else 0
  }

  // ---- Enumerations -----------------------------------------------------------------------------

  datatype HttpType = Request | Response | Both

  datatype State =
    | Dead
    | StartReqOrRes
    | ResOrRespH
    | StartRes
    | ResH | ResHT | ResHTT | ResHTTP
    | ResHttpMajor | ResHttpDot | ResHttpMinor | ResHttpEnd
    | ResFirstStatusCode | ResStatusCode | ResStatusStart | ResStatus | ResLineAlmostDone
    | StartReq
    | ReqMethod
    | ReqSpacesBeforeUrl
    | ReqSchema | ReqSchemaSlash | ReqSchemaSlashSlash
    | ReqServerStart | ReqServer | ReqServerWithAt
    | ReqPath | ReqQueryStringStart | ReqQueryString | ReqFragmentStart | ReqFragment
    | ReqHttpStart
    | ReqHttpH | ReqHttpHT | ReqHttpHTT | ReqHttpHTTP | ReqHttpI | ReqHttpIC
    | ReqHttpMajor | ReqHttpDot | ReqHttpMinor | ReqHttpEnd
    | ReqLineAlmostDone
    | HeaderFieldStart | HeaderField
    | HeaderValueDiscardWs | HeaderValueDiscardWsAlmostDone | HeaderValueDiscardLws
    | HeaderValueStart | HeaderValue | HeaderValueLws | HeaderAlmostDone
    | ChunkSizeStart | ChunkSize | ChunkParameters | ChunkSizeAlmostDone
    | HeadersAlmostDone | HeadersDone
    | ChunkData | ChunkDataAlmostDone | ChunkDataDone
    | BodyIdentity | BodyIdentityEof
    | MessageDone

  /** The states up to and including HeadersDone, in which every byte counts against the header limit. */
  predicate ParsingHeader(s: State) {
    !(s.ChunkData? || s.ChunkDataAlmostDone? || s.ChunkDataDone? || s.BodyIdentity? || s.BodyIdentityEof? ||
      s.MessageDone?)
  }

  datatype HeaderState =
    | General | HC | HCO | HCON
    | MatchingConnection | MatchingProxyConnection | MatchingContentLength
    | MatchingTransferEncoding | MatchingUpgrade
    | Connection | ContentLength | ContentLengthNum | ContentLengthWs | TransferEncoding | Upgrade
    | MatchingTeTokenStart | MatchingTeChunked | MatchingTeToken
    | MatchingConnTokenStart | MatchingConnKeepAlive | MatchingConnClose | MatchingConnUpgrade | MatchingConnToken
    | TeChunked | ConnKeepAlive | ConnClose | ConnUpgrade

  datatype Method =
    | DELETE | GET | HEAD | POST | PUT
    | CONNECT | OPTIONS | TRACE
    | COPY | LOCK | MKCOL | MOVE | PROPFIND | PROPPATCH | SEARCH | UNLOCK | BIND | REBIND | UNBIND | ACL
    | REPORT | MKACTIVITY | CHECKOUT | MERGE
    | MSEARCH | NOTIFY | SUBSCRIBE | UNSUBSCRIBE
    | PATCH | PURGE | MKCALENDAR | LINK | UNLINK | SOURCE

  function MethodString(m: Method): string {
    match m
    case DELETE => "DELETE"
    case GET => "GET"
    case HEAD => "HEAD"
    case POST => "POST"
    case PUT => "PUT"
    case CONNECT => "CONNECT"
    case OPTIONS => "OPTIONS"
    case TRACE => "TRACE"
    case COPY => "COPY"
    case LOCK => "LOCK"
    case MKCOL => "MKCOL"
    case MOVE => "MOVE"
    case PROPFIND => "PROPFIND"
    case PROPPATCH => "PROPPATCH"
    case SEARCH => "SEARCH"
    case UNLOCK => "UNLOCK"
    case BIND => "BIND"
    case REBIND => "REBIND"
    case UNBIND => "UNBIND"
    case ACL => "ACL"
    case REPORT => "REPORT"
    case MKACTIVITY => "MKACTIVITY"
    case CHECKOUT => "CHECKOUT"
    case MERGE => "MERGE"
    case MSEARCH => "M-SEARCH"
    case NOTIFY => "NOTIFY"
    case SUBSCRIBE => "SUBSCRIBE"
    case UNSUBSCRIBE => "UNSUBSCRIBE"
    case PATCH => "PATCH"
    case PURGE => "PURGE"
    case MKCALENDAR => "MKCALENDAR"
    case LINK => "LINK"
    case UNLINK => "UNLINK"
    case SOURCE => "SOURCE"
  }

  datatype Errno =
    | OK
    | CbHeadersComplete
    | InvalidEofState
    | HeaderOverflow
    | ClosedConnection
    | InvalidVersion
    | InvalidStatus
    | InvalidMethod
    | InvalidUrl
    | LfExpected
    | InvalidHeaderToken
    | InvalidContentLength
    | UnexpectedContentLength
    | InvalidChunkSize
    | InvalidConstant
    | Strict
    | InvalidTransferEncoding

  // ---- The parser record ------------------------------------------------------------------------

  datatype Flags = Flags(
    chunked: bool,
    keepAlive: bool,
    close: bool,
    connUpgrade: bool,
    trailing: bool,
    upgrade: bool,
    skipBody: bool,
    contentLength: bool)

  const NO_FLAGS := Flags(false, false, false, false, false, false, false, false)

  datatype Parser = Parser(
    kind: HttpType,
    flags: Flags,
    state: State,
    headerState: HeaderState,
    index: nat,
    usesTransferEncoding: bool,
    nread: nat,
    contentLength: nat,
    httpMajor: nat,
    httpMinor: nat,
    statusCode: nat,
    method_: Method,
    errno: Errno,
    upgrade: bool)

  /** What http_parser_init leaves behind. */
  function Init(t: HttpType): Parser {
    Parser(t, NO_FLAGS,
           (match t case Request => StartReq case Response => StartRes case Both => StartReqOrRes),
           General, 0, false, 0, 0, 0, 0, 0, DELETE, OK, false)
  }

  // ---- Configuration and callbacks --------------------------------------------------------------

  /** The answers on_headers_complete may give: 0, 1, 2, or anything else. */
  datatype Reply = Continue | SkipBody | SkipBodyAndUpgrade | Abort

  /** What an on_headers_complete callback can see of the message. */
  datatype Head = Head(kind: HttpType, method_: Method, statusCode: nat, flags: Flags, contentLength: nat,
                       upgrade: bool)

  const UINT32_SIZE: nat := 0x1_0000_0000

  type Uint32 = n: nat | n < UINT32_SIZE

  /**
   The build mode (HTTP_PARSER_STRICT), the header limit, the two leniency bits of the parser, and the
   application's on_headers_complete, taken to be a function of the message head.
   */
  datatype Config = Config(
    strict: bool,
    maxHeaderSize: Uint32,
    lenient: bool,
    allowChunkedLength: bool,
    onHeadersComplete: Head -> Reply)

  datatype DataKind = Url | Status | Field | Value | Body

  datatype Event =
    | Data(kind: DataKind, bytes: seq<Byte>)
    | MessageBegin
    | HeadersComplete
    | ChunkHeader(length: nat)
    | ChunkComplete
    | MessageComplete
}
