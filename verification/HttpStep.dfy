/**
 One byte at a time: what each state of the HTTP parser does with the byte it looks at. A state either
 consumes the byte, hands it on to another state (the source's REEXECUTE), leaves for another protocol,
 reports an error, or trips over one of the source's assertions.
 */
module HttpStep {
  import opened HttpTypes

  /** What a state does to the data marks and callbacks while it looks at one byte. */
  datatype Action =
    | Nothing
    | Put(kind: DataKind)        // the byte belongs to this kind of data; mark it unless already marked
    | Mark(kind: DataKind)       // mark the position without taking the byte
    | Flush(kind: DataKind)      // the data callback, up to but not including this byte
    | EmptyData(kind: DataKind)  // mark and call back at once
    | Notify(event: Event)

  datatype Next = Consumed | Again | Exit | Fail | Crash

  datatype Move = Move(p: Parser, action: Action, next: Next)

  function Take(p: Parser): Move {
    Move(p, Nothing, Consumed)
  }

  function Goto(p: Parser, s: State): Move {
    Move(p.(state := s), Nothing, Consumed)
  }

  function Reexecute(p: Parser, s: State): Move {
    Move(p.(state := s), Nothing, Again)
  }

  function Error(p: Parser, e: Errno): Move {
    Move(p.(errno := e), Nothing, Fail)
  }

  /** STRICT_CHECK: in a strict build the byte must be `want`. */
  function Expect(cfg: Config, p: Parser, ch: Byte, want: Byte, s: State): Move {
    if cfg.strict && ch != want then Error(p, Strict) else Goto(p, s)
  }

  function StartState(p: Parser): State {
    if p.kind.Request? then StartReq else StartRes
  }

  predicate MessageNeedsEof(p: Parser) {
    if p.kind.Request? then false
    else if p.statusCode / 100 == 1 || p.statusCode == 204 || p.statusCode == 304 || p.flags.skipBody then false
    else if p.usesTransferEncoding && !p.flags.chunked then true
    else !(p.flags.chunked || p.contentLength != ULLONG_MAX)
  }

  predicate ShouldKeepAlive(p: Parser) {
    && (if p.httpMajor > 0 && p.httpMinor > 0 then !p.flags.close else p.flags.keepAlive)
    && !MessageNeedsEof(p)
  }

  function NewMessage(cfg: Config, p: Parser): State {
    if cfg.strict && !ShouldKeepAlive(p) then Dead else StartState(p)
  }

  // ---- Start of a message -----------------------------------------------------------------------

  function Fresh(p: Parser): Parser {
    p.(flags := NO_FLAGS, usesTransferEncoding := false, contentLength := ULLONG_MAX)
  }

  function MethodFor(ch: Byte): Method
    requires MethodInitial(ch)
  {
    if ch == 'A' as int then ACL
    else if ch == 'B' as int then BIND
    else if ch == 'C' as int then CONNECT
    else if ch == 'D' as int then DELETE
    else if ch == 'G' as int then GET
    else if ch == 'H' as int then HEAD
    else if ch == 'L' as int then LOCK
    else if ch == 'M' as int then MKCOL
    else if ch == 'N' as int then NOTIFY
    else if ch == 'O' as int then OPTIONS
    else if ch == 'P' as int then POST
    else if ch == 'R' as int then REPORT
    else if ch == 'S' as int then SUBSCRIBE
    else if ch == 'T' as int then TRACE
    else UNLOCK
  }

  predicate MethodInitial(ch: Byte) {
    ch == 'A' as int || ch == 'B' as int || ch == 'C' as int || ch == 'D' as int || ch == 'G' as int ||
    ch == 'H' as int || ch == 'L' as int || ch == 'M' as int || ch == 'N' as int || ch == 'O' as int ||
    ch == 'P' as int || ch == 'R' as int || ch == 'S' as int || ch == 'T' as int || ch == 'U' as int
  }

  function StartMove(cfg: Config, p: Parser, ch: Byte): Move {
    match p.state
    case Dead =>
      if ch == CR || ch == LF then Take(p) else Error(p, ClosedConnection)
    case StartReqOrRes =>
      if ch == CR || ch == LF then Take(p)
      else if ch == 'H' as int then Move(Fresh(p).(state := ResOrRespH), Notify(MessageBegin), Consumed)
      else Reexecute(Fresh(p).(kind := Request), StartReq)
    case ResOrRespH =>
      if ch == 'T' as int then Goto(p.(kind := Response), ResHT)
      else if ch != 'E' as int then Error(p, InvalidConstant)
      else Goto(p.(kind := Request, method_ := HEAD, index := 2), ReqMethod)
    case StartRes =>
      if ch == CR || ch == LF then Take(p)
      else if ch == 'H' as int then Move(Fresh(p).(state := ResH), Notify(MessageBegin), Consumed)
      else Error(Fresh(p), InvalidConstant)
    case StartReq =>
      if ch == CR || ch == LF then Take(p)
      else if !MethodInitial(ch) then Error(Fresh(p), InvalidMethod)
      else Move(Fresh(p).(method_ := MethodFor(ch), index := 1, state := ReqMethod), Notify(MessageBegin), Consumed)
    case _ => Move(p, Nothing, Crash)
  }

  // ---- Status line ------------------------------------------------------------------------------

  function ResponseVersionMove(cfg: Config, p: Parser, ch: Byte): Move {
    match p.state
    case ResH => Expect(cfg, p, ch, 'T' as int, ResHT)
    case ResHT => Expect(cfg, p, ch, 'T' as int, ResHTT)
    case ResHTT => Expect(cfg, p, ch, 'P' as int, ResHTTP)
    case ResHTTP => Expect(cfg, p, ch, '/' as int, ResHttpMajor)
    case ResHttpMajor =>
      if !IsNum(ch) then Error(p, InvalidVersion) else Goto(p.(httpMajor := ch - '0' as int), ResHttpDot)
    case ResHttpDot =>
      if ch != '.' as int then Error(p, InvalidVersion) else Goto(p, ResHttpMinor)
    case ResHttpMinor =>
      if !IsNum(ch) then Error(p, InvalidVersion) else Goto(p.(httpMinor := ch - '0' as int), ResHttpEnd)
    case ResHttpEnd =>
      if ch != SP then Error(p, InvalidVersion) else Goto(p, ResFirstStatusCode)
    case _ => Move(p, Nothing, Crash)
  }

  function StatusCodeMove(p: Parser, ch: Byte): Move {
    match p.state
    case ResFirstStatusCode =>
      if IsNum(ch) then Goto(p.(statusCode := ch - '0' as int), ResStatusCode)
      else if ch == SP then Take(p)
      else Error(p, InvalidStatus)
    case ResStatusCode =>
      if IsNum(ch) then
        var code := p.statusCode * 10 + (ch - '0' as int);
        if code > 999 then Error(p.(statusCode := code), InvalidStatus) else Take(p.(statusCode := code))
      else if ch == SP then Goto(p, ResStatusStart)
      else if ch == CR || ch == LF then Reexecute(p, ResStatusStart)
      else Error(p, InvalidStatus)
    case _ => Move(p, Nothing, Crash)
  }

  function StatusLineMove(cfg: Config, p: Parser, ch: Byte): Move {
    match p.state
    case ResFirstStatusCode => StatusCodeMove(p, ch)
    case ResStatusCode => StatusCodeMove(p, ch)
    case ResStatusStart =>
      var q := p.(state := ResStatus, index := 0);
      if ch == CR || ch == LF then Move(q, Mark(Status), Again) else Move(q, Put(Status), Consumed)
    case ResStatus =>
      if ch == CR then Move(p.(state := ResLineAlmostDone), Flush(Status), Consumed)
      else if ch == LF then Move(p.(state := HeaderFieldStart), Flush(Status), Consumed)
      else Move(p, Put(Status), Consumed)
    case ResLineAlmostDone => Expect(cfg, p, ch, LF, HeaderFieldStart)
    case _ => Move(p, Nothing, Crash)
  }

  // ---- Request line -----------------------------------------------------------------------------

  /** The method a prefix turns into when its next letter rules the current candidate out. */
  function Reconsider(m: Method, index: nat, ch: Byte): (r: (bool, Method)) {
    match m
    case POST =>
      if index == 1 && ch == 'U' as int then (true, PUT)
      else if index == 1 && ch == 'A' as int then (true, PATCH)
      else if index == 1 && ch == 'R' as int then (true, PROPFIND)
      else (false, m)
    case PUT => if index == 2 && ch == 'R' as int then (true, PURGE) else (false, m)
    case CONNECT =>
      if index == 1 && ch == 'H' as int then (true, CHECKOUT)
      else if index == 2 && ch == 'P' as int then (true, COPY)
      else (false, m)
    case MKCOL =>
      if index == 1 && ch == 'O' as int then (true, MOVE)
      else if index == 1 && ch == 'E' as int then (true, MERGE)
      else if index == 1 && ch == '-' as int then (true, MSEARCH)
      else if index == 2 && ch == 'A' as int then (true, MKACTIVITY)
      else if index == 3 && ch == 'A' as int then (true, MKCALENDAR)
      else (false, m)
    case SUBSCRIBE =>
      if index == 1 && ch == 'E' as int then (true, SEARCH)
      else if index == 1 && ch == 'O' as int then (true, SOURCE)
      else (false, m)
    case REPORT => if index == 2 && ch == 'B' as int then (true, REBIND) else (false, m)
    case PROPFIND => if index == 4 && ch == 'P' as int then (true, PROPPATCH) else (false, m)
    case LOCK => if index == 1 && ch == 'I' as int then (true, LINK) else (false, m)
    case UNLOCK =>
      if index == 2 && ch == 'S' as int then (true, UNSUBSCRIBE)
      else if index == 2 && ch == 'B' as int then (true, UNBIND)
      else if index == 3 && ch == 'I' as int then (true, UNLINK)
      else (false, m)
    case _ => (false, m)
  }

  /** A byte of the method name; reading past the end of the candidate's name would be a fault. */
  function MethodMove(p: Parser, ch: Byte): Move {
    var matcher := MethodString(p.method_);
    if ch == 0 then Error(p, InvalidMethod)
    else if p.index > |matcher| then Move(p, Nothing, Crash)
    else
      var q := p.(index := p.index + 1);
      if ch == SP && p.index == |matcher| then Goto(q, ReqSpacesBeforeUrl)
      else if p.index < |matcher| && ch == matcher[p.index] as int then Take(q)
      else if 'A' as int <= ch <= 'Z' as int || ch == '-' as int then
        var (known, m) := Reconsider(p.method_, p.index, ch);
        if known then Take(q.(method_ := m)) else Error(p, InvalidMethod)
      else Error(p, InvalidMethod)
  }

  /** parse_url_char: the next state inside a URL, or Dead. */
  function ParseUrlChar(strict: bool, s: State, ch: Byte): State {
    if ch == SP || ch == CR || ch == LF then Dead
    else if strict && (ch == HTAB || ch == 12) then Dead
    else
      match s
      case ReqSpacesBeforeUrl =>
        if ch == '/' as int || ch == '*' as int then ReqPath
        else if IsAlpha(ch) then ReqSchema
        else Dead
      case ReqSchema =>
        if IsAlpha(ch) then s else if ch == ':' as int then ReqSchemaSlash else Dead
      case ReqSchemaSlash => if ch == '/' as int then ReqSchemaSlashSlash else Dead
      case ReqSchemaSlashSlash => if ch == '/' as int then ReqServerStart else Dead
      case ReqServerWithAt => if ch == '@' as int then Dead else ServerChar(ch)
      case ReqServerStart => ServerChar(ch)
      case ReqServer => ServerChar(ch)
      case ReqPath =>
        if IsUrlChar(strict, ch) then s
        else if ch == '?' as int then ReqQueryStringStart
        else if ch == '#' as int then ReqFragmentStart
        else Dead
      case ReqQueryStringStart => QueryChar(strict, ch)
      case ReqQueryString => QueryChar(strict, ch)
      case ReqFragmentStart =>
        if IsUrlChar(strict, ch) || ch == '?' as int then ReqFragment
        else if ch == '#' as int then s
        else Dead
      case ReqFragment =>
        if IsUrlChar(strict, ch) || ch == '?' as int || ch == '#' as int then s else Dead
      case _ => Dead
  }

  function ServerChar(ch: Byte): State {
    if ch == '/' as int then ReqPath
    else if ch == '?' as int then ReqQueryStringStart
    else if ch == '@' as int then ReqServerWithAt
    else if IsUserinfoChar(ch) || ch == '[' as int || ch == ']' as int then ReqServer
    else Dead
  }

  function QueryChar(strict: bool, ch: Byte): State {
    if IsUrlChar(strict, ch) || ch == '?' as int then ReqQueryString
    else if ch == '#' as int then ReqFragmentStart
    else Dead
  }

  function UrlMove(cfg: Config, p: Parser, s: State, ch: Byte): Move {
    var next := ParseUrlChar(cfg.strict, s, ch);
    if next.Dead? then Error(p.(state := Dead), InvalidUrl) else Move(p.(state := next), Put(Url), Consumed)
  }

  function RequestLineMove(cfg: Config, p: Parser, ch: Byte): Move {
    match p.state
    case ReqMethod => MethodMove(p, ch)
    case ReqSpacesBeforeUrl =>
      if ch == SP then Take(p)
      else UrlMove(cfg, p, if p.method_.CONNECT? then ReqServerStart else ReqSpacesBeforeUrl, ch)
    case ReqSchema => if ch == SP || ch == CR || ch == LF then Error(p, InvalidUrl) else UrlMove(cfg, p, p.state, ch)
    case ReqSchemaSlash => if ch == SP || ch == CR || ch == LF then Error(p, InvalidUrl)
        else UrlMove(cfg, p, p.state, ch)
    case ReqSchemaSlashSlash => if ch == SP || ch == CR || ch == LF then Error(p, InvalidUrl)
        else UrlMove(cfg, p, p.state, ch)
    case ReqServerStart => if ch == SP || ch == CR || ch == LF then Error(p, InvalidUrl)
        else UrlMove(cfg, p, p.state, ch)
    case ReqServer => UrlOrEnd(cfg, p, ch)
    case ReqServerWithAt => UrlOrEnd(cfg, p, ch)
    case ReqPath => UrlOrEnd(cfg, p, ch)
    case ReqQueryStringStart => UrlOrEnd(cfg, p, ch)
    case ReqQueryString => UrlOrEnd(cfg, p, ch)
    case ReqFragmentStart => UrlOrEnd(cfg, p, ch)
    case ReqFragment => UrlOrEnd(cfg, p, ch)
    case _ => Move(p, Nothing, Crash)
  }

  function UrlOrEnd(cfg: Config, p: Parser, ch: Byte): Move {
    if ch == SP then Move(p.(state := ReqHttpStart), Flush(Url), Consumed)
    else if ch == CR || ch == LF then
      Move(p.(httpMajor := 0, httpMinor := 9, state := if ch == CR then ReqLineAlmostDone else HeaderFieldStart),
           Flush(Url), Consumed)
    else UrlMove(cfg, p, p.state, ch)
  }

  function RequestProtocolMove(cfg: Config, p: Parser, ch: Byte): Move {
    match p.state
    case ReqHttpStart =>
      if ch == SP then Take(p)
      else if ch == 'H' as int then Goto(p, ReqHttpH)
      else if ch == 'I' as int && p.method_.SOURCE? then Goto(p, ReqHttpI)
      else Error(p, InvalidConstant)
    case ReqHttpH => Expect(cfg, p, ch, 'T' as int, ReqHttpHT)
    case ReqHttpHT => Expect(cfg, p, ch, 'T' as int, ReqHttpHTT)
    case ReqHttpHTT => Expect(cfg, p, ch, 'P' as int, ReqHttpHTTP)
    case ReqHttpI => Expect(cfg, p, ch, 'C' as int, ReqHttpIC)
    case ReqHttpIC => Expect(cfg, p, ch, 'E' as int, ReqHttpHTTP)
    case ReqHttpHTTP => Expect(cfg, p, ch, '/' as int, ReqHttpMajor)
    case _ => Move(p, Nothing, Crash)
  }

  function RequestVersionMove(cfg: Config, p: Parser, ch: Byte): Move {
    match p.state
    case ReqHttpMajor =>
      if !IsNum(ch) then Error(p, InvalidVersion) else Goto(p.(httpMajor := ch - '0' as int), ReqHttpDot)
    case ReqHttpDot =>
      if ch != '.' as int then Error(p, InvalidVersion) else Goto(p, ReqHttpMinor)
    case ReqHttpMinor =>
      if !IsNum(ch) then Error(p, InvalidVersion) else Goto(p.(httpMinor := ch - '0' as int), ReqHttpEnd)
    case _ => Move(p, Nothing, Crash)
  }

  function RequestEndMove(cfg: Config, p: Parser, ch: Byte): Move {
    match p.state
    case ReqHttpEnd =>
      if ch == CR then Goto(p, ReqLineAlmostDone)
      else if ch == LF then Goto(p, HeaderFieldStart)
      else Error(p, InvalidVersion)
    case ReqLineAlmostDone =>
      if ch != LF then Error(p, LfExpected) else Goto(p, HeaderFieldStart)
    case _ => Move(p, Nothing, Crash)
  }

  // ---- Header fields ----------------------------------------------------------------------------

  const CONNECTION := "connection"
  const PROXY_CONNECTION := "proxy-connection"
  const CONTENT_LENGTH := "content-length"
  const TRANSFER_ENCODING := "transfer-encoding"
  const UPGRADE := "upgrade"
  const CHUNKED := "chunked"
  const KEEP_ALIVE := "keep-alive"
  const CLOSE := "close"

  /** One character against a keyword: mismatch, keyword complete, or still matching. */
  datatype Match = Mismatch | Complete | Partial

  function MatchKeyword(word: string, index: nat, c: Byte): Match
    requires |word| > 0
  {
    if index >= |word| || c != word[index] as int then Mismatch
    else if index == |word| - 1 then Complete
    else Partial
  }

  /** The header states that compare a name or a value with a keyword. */
  predicate Matching(h: HeaderState) {
    h.MatchingConnection? || h.MatchingProxyConnection? || h.MatchingContentLength? ||
    h.MatchingTransferEncoding? || h.MatchingUpgrade? || h.MatchingTeChunked? || h.MatchingConnKeepAlive? ||
    h.MatchingConnClose? || h.MatchingConnUpgrade?
  }

  function Keyword(h: HeaderState): (word: string)
    requires Matching(h)
    ensures |word| > 0
  {
    match h
    case MatchingConnection => CONNECTION
    case MatchingProxyConnection => PROXY_CONNECTION
    case MatchingContentLength => CONTENT_LENGTH
    case MatchingTransferEncoding => TRANSFER_ENCODING
    case MatchingUpgrade => UPGRADE
    case MatchingTeChunked => CHUNKED
    case MatchingConnKeepAlive => KEEP_ALIVE
    case MatchingConnClose => CLOSE
    case MatchingConnUpgrade => UPGRADE
  }

  predicate FieldHeaderState(h: HeaderState) {
    h.General? || h.HC? || h.HCO? || h.HCON? || h.MatchingConnection? || h.MatchingProxyConnection? ||
    h.MatchingContentLength? || h.MatchingTransferEncoding? || h.MatchingUpgrade? ||
    h.Connection? || h.ContentLength? || h.TransferEncoding? || h.Upgrade?
  }

  function FieldMatch(p: Parser, c: Byte, done: HeaderState): Parser
    requires Matching(p.headerState)
  {
    var q := p.(index := p.index + 1);
    match MatchKeyword(Keyword(p.headerState), q.index, c)
    case Mismatch => q.(headerState := General)
    case Complete => q.(headerState := done, usesTransferEncoding := q.usesTransferEncoding || done.TransferEncoding?)
    case Partial => q
  }

  /** The parser after one more token character `ch` of a header name. */
  function FieldChar(cfg: Config, p: Parser, ch: Byte): Parser
  {
    var c := Token(cfg.strict, ch);
    match p.headerState
    case General => p
    case HC => p.(index := p.index + 1, headerState := if c == 'o' as int then HCO else General)
    case HCO => p.(index := p.index + 1, headerState := if c == 'n' as int then HCON else General)
    case HCON =>
      p.(index := p.index + 1,
         headerState := if c == 'n' as int then MatchingConnection
                        else if c == 't' as int then MatchingContentLength
                        else General)
    case MatchingConnection => FieldMatch(p, c, Connection)
    case MatchingProxyConnection => FieldMatch(p, c, Connection)
    case MatchingContentLength => FieldMatch(p, c, ContentLength)
    case MatchingTransferEncoding => FieldMatch(p, c, TransferEncoding)
    case MatchingUpgrade => FieldMatch(p, c, Upgrade)
    case _ => if ch != SP then p.(headerState := General) else p
  }

  function FieldStartState(c: Byte): HeaderState {
    if c == 'c' as int then HC
    else if c == 'p' as int then MatchingProxyConnection
    else if c == 't' as int then MatchingTransferEncoding
    else if c == 'u' as int then MatchingUpgrade
    else General
  }

  function FieldMove(cfg: Config, p: Parser, ch: Byte): Move {
    match p.state
    case HeaderFieldStart =>
      if ch == CR then Goto(p, HeadersAlmostDone)
      else if ch == LF then Reexecute(p, HeadersAlmostDone)
      else if Token(cfg.strict, ch) == 0 then Error(p, InvalidHeaderToken)
      else
        Move(p.(index := 0, state := HeaderField, headerState := FieldStartState(Token(cfg.strict, ch))),
             Put(Field), Consumed)
    case HeaderField =>
      if Token(cfg.strict, ch) != 0 then
        if FieldHeaderState(p.headerState) then Move(FieldChar(cfg, p, ch), Put(Field), Consumed)
        else Move(p, Nothing, Crash)
      else if ch == ':' as int then Move(p.(state := HeaderValueDiscardWs), Flush(Field), Consumed)
      else Error(p, InvalidHeaderToken)
    case _ => Move(p, Nothing, Crash)
  }

  // ---- Header values ----------------------------------------------------------------------------

  /** The flags a finished header value leaves behind. */
  function Finished(flags: Flags, h: HeaderState): Flags {
    match h
    case ConnKeepAlive => flags.(keepAlive := true)
    case ConnClose => flags.(close := true)
    case ConnUpgrade => flags.(connUpgrade := true)
    case TeChunked => flags.(chunked := true)
    case _ => flags
  }

  function ValueStartMove(p: Parser, ch: Byte): Move {
    var c := Lower(ch);
    var q := p.(state := HeaderValue, index := 0);
    match p.headerState
    case Upgrade => Move(q.(flags := p.flags.(upgrade := true), headerState := General), Put(Value), Consumed)
    case TransferEncoding =>
      Move(q.(headerState := if c == 'c' as int then MatchingTeChunked else MatchingTeToken), Put(Value), Consumed)
    case MatchingTeTokenStart => Move(q, Put(Value), Consumed)
    case ContentLength =>
      if !IsNum(ch) then Error(q, InvalidContentLength)
      else if p.flags.contentLength then Error(q, UnexpectedContentLength)
      else
        Move(q.(flags := p.flags.(contentLength := true), contentLength := ch - '0' as int,
                headerState := ContentLengthNum), Put(Value), Consumed)
    case ContentLengthWs => Move(q, Put(Value), Consumed)
    case Connection =>
      Move(q.(headerState := if c == 'k' as int then MatchingConnKeepAlive
                             else if c == 'c' as int then MatchingConnClose
                             else if c == 'u' as int then MatchingConnUpgrade
                             else MatchingConnToken), Put(Value), Consumed)
    case MatchingConnTokenStart => Move(q, Put(Value), Consumed)
    case _ => Move(q.(headerState := General), Put(Value), Consumed)
  }

  /** The result of looking at one character inside a header value. */
  datatype ValueResult = Ok(p: Parser) | Bad(e: Errno) | Impossible

  function Settle(q: Parser, r: Match, done: HeaderState, otherwise: HeaderState): Parser {
    match r
    case Mismatch => q.(headerState := otherwise)
    case Complete => q.(headerState := done)
    case Partial => q
  }

  function ValueMatch(p: Parser, c: Byte, done: HeaderState, otherwise: HeaderState): ValueResult
    requires Matching(p.headerState)
  {
    Ok(Settle(p.(index := p.index + 1), MatchKeyword(Keyword(p.headerState), p.index + 1, c), done, otherwise))
  }

  function ContentLengthDigit(p: Parser, ch: Byte): ValueResult {
    if ch == SP then Ok(p.(headerState := ContentLengthWs))
    else if !IsNum(ch) then Bad(InvalidContentLength)
    else if (ULLONG_MAX - 10) / 10 < p.contentLength then Bad(InvalidContentLength)
    else Ok(p.(contentLength := p.contentLength * 10 + (ch - '0' as int)))
  }

  /** Inside a Transfer-Encoding value: looking for the token "chunked". */
  function TeChar(p: Parser, ch: Byte): ValueResult {
    var c := Lower(ch);
    match p.headerState
    case MatchingTeTokenStart =>
      if c == 'c' as int then Ok(p.(headerState := MatchingTeChunked))
      else if StrictToken(c) != 0 then Ok(p.(headerState := MatchingTeToken))
      else if c == SP || c == HTAB then Ok(p)
      else Ok(p.(headerState := General))
    case MatchingTeChunked => ValueMatch(p, c, TeChunked, MatchingTeToken)
    case MatchingTeToken =>
      if ch == ',' as int then Ok(p.(headerState := MatchingTeTokenStart, index := 0)) else Ok(p)
    case TeChunked => if ch != SP then Ok(p.(headerState := MatchingTeToken)) else Ok(p)
    case _ => Ok(p.(headerState := General))
  }

  /** Inside a Connection value: looking for "keep-alive", "close" and "upgrade". */
  function ConnectionChar(p: Parser, ch: Byte): ValueResult {
    var c := Lower(ch);
    match p.headerState
    case MatchingConnTokenStart =>
      if c == 'k' as int then Ok(p.(headerState := MatchingConnKeepAlive))
      else if c == 'c' as int then Ok(p.(headerState := MatchingConnClose))
      else if c == 'u' as int then Ok(p.(headerState := MatchingConnUpgrade))
      else if StrictToken(c) != 0 then Ok(p.(headerState := MatchingConnToken))
      else if c == SP || c == HTAB then Ok(p)
      else Ok(p.(headerState := General))
    case MatchingConnKeepAlive => ValueMatch(p, c, ConnKeepAlive, MatchingConnToken)
    case MatchingConnClose => ValueMatch(p, c, ConnClose, MatchingConnToken)
    case MatchingConnUpgrade => ValueMatch(p, c, ConnUpgrade, MatchingConnToken)
    case MatchingConnToken =>
      if ch == ',' as int then Ok(p.(headerState := MatchingConnTokenStart, index := 0)) else Ok(p)
    case _ => ConnectionTail(p, ch)
  }

  predicate InTransferEncoding(h: HeaderState) {
    h.MatchingTeTokenStart? || h.MatchingTeChunked? || h.MatchingTeToken? || h.TeChunked?
  }

  predicate InConnection(h: HeaderState) {
    h.MatchingConnTokenStart? || h.MatchingConnKeepAlive? || h.MatchingConnClose? || h.MatchingConnUpgrade? ||
    h.MatchingConnToken? || h.ConnKeepAlive? || h.ConnClose? || h.ConnUpgrade?
  }

  /** One character `ch` of a header value, neither CR nor LF. */
  function ValueChar(cfg: Config, p: Parser, ch: Byte): ValueResult {
    var h := p.headerState;
    if !cfg.lenient && !IsHeaderChar(ch) then Bad(InvalidHeaderToken)
    else if h.General? then Ok(p)
    else if h.Connection? || h.TransferEncoding? then Impossible
    else if h.ContentLength? then
      if ch == SP then Ok(p) else ContentLengthDigit(p.(headerState := ContentLengthNum), ch)
    else if h.ContentLengthNum? then ContentLengthDigit(p, ch)
    else if h.ContentLengthWs? then if ch == SP then Ok(p) else Bad(InvalidContentLength)
    else if InTransferEncoding(h) then TeChar(p, ch)
    else if InConnection(h) then ConnectionChar(p, ch)
    else Ok(p.(headerState := General))
  }

  function ConnectionTail(p: Parser, ch: Byte): ValueResult {
    if ch == ',' as int then
      Ok(p.(flags := Finished(p.flags, p.headerState), headerState := MatchingConnTokenStart, index := 0))
    else if ch != SP then Ok(p.(headerState := MatchingConnToken))
    else Ok(p)
  }

  function ValueMove(cfg: Config, p: Parser, ch: Byte): Move {
    match p.state
    case HeaderValueDiscardWs =>
      if ch == SP || ch == HTAB then Take(p)
      else if ch == CR then Goto(p, HeaderValueDiscardWsAlmostDone)
      else if ch == LF then Goto(p, HeaderValueDiscardLws)
      else ValueStartMove(p, ch)
    case HeaderValueStart => ValueStartMove(p, ch)
    case HeaderValue =>
      if ch == CR then Move(p.(state := HeaderAlmostDone), Flush(Value), Consumed)
      else if ch == LF then Move(p.(state := HeaderAlmostDone), Flush(Value), Again)
      else
        (match ValueChar(cfg, p, ch)
         case Ok(q) => Move(q, Put(Value), Consumed)
         case Bad(e) => Error(p, e)
         case Impossible => Move(p, Nothing, Crash))
    case HeaderAlmostDone =>
      if ch != LF then Error(p, LfExpected) else Goto(p, HeaderValueLws)
    case HeaderValueLws =>
      if ch == SP || ch == HTAB then
        Reexecute(p.(headerState := if p.headerState.ContentLengthNum? then ContentLengthWs else p.headerState),
                  HeaderValueStart)
      else Reexecute(p.(flags := Finished(p.flags, p.headerState)), HeaderFieldStart)
    case HeaderValueDiscardWsAlmostDone => Expect(cfg, p, ch, LF, HeaderValueDiscardLws)
    case HeaderValueDiscardLws =>
      if ch == SP || ch == HTAB then Goto(p, HeaderValueDiscardWs)
      else if p.headerState.ContentLength? then Error(p, InvalidContentLength)
      else
        Move(p.(flags := Finished(p.flags, p.headerState), state := HeaderFieldStart), EmptyData(Value), Again)
    case _ => Move(p, Nothing, Crash)
  }

  // ---- End of the headers -----------------------------------------------------------------------

  function HeadOf(p: Parser): Head {
    Head(p.kind, p.method_, p.statusCode, p.flags, p.contentLength, p.upgrade)
  }

  function HeadersAlmostDoneMove(cfg: Config, p: Parser, ch: Byte): Move {
    if cfg.strict && ch != LF then Error(p, Strict)
    else if p.flags.trailing then Move(p.(state := MessageDone), Notify(ChunkComplete), Again)
    else if p.usesTransferEncoding && p.flags.contentLength &&
            (if p.flags.chunked then !cfg.allowChunkedLength else !cfg.lenient) then
      Error(p, UnexpectedContentLength)
    else
      var q := p.(state := HeadersDone,
                  upgrade := if p.flags.upgrade && p.flags.connUpgrade
                             then p.kind.Request? || p.statusCode == 101
                             else p.method_.CONNECT?);
      Answered(q, cfg.onHeadersComplete(HeadOf(q)))
  }

  /** What each answer of on_headers_complete leads to. */
  function Answered(q: Parser, reply: Reply): Move {
    match reply
    case Continue => Move(q, Notify(HeadersComplete), Again)
    case SkipBody => Move(q.(flags := q.flags.(skipBody := true)), Notify(HeadersComplete), Again)
    case SkipBodyAndUpgrade =>
      Move(q.(flags := q.flags.(skipBody := true), upgrade := true), Notify(HeadersComplete), Again)
    case Abort => Move(q.(errno := CbHeadersComplete), Notify(HeadersComplete), Fail)
  }

  function CompleteMessage(cfg: Config, p: Parser, exit: bool): Move {
    Move(p.(state := NewMessage(cfg, p)), Notify(MessageComplete), if exit then Exit else Consumed)
  }

  predicate HasBody(p: Parser) {
    p.flags.chunked || (p.contentLength > 0 && p.contentLength != ULLONG_MAX)
  }

  function HeadersDoneMove(cfg: Config, p0: Parser, ch: Byte): Move {
    if cfg.strict && ch != LF then Error(p0, Strict)
    else
      var p := p0.(nread := 0);
      if p.upgrade && (p.method_.CONNECT? || p.flags.skipBody || !HasBody(p)) then CompleteMessage(cfg, p, true)
      else if p.flags.skipBody then CompleteMessage(cfg, p, false)
      else if p.flags.chunked then Goto(p, ChunkSizeStart)
      else if p.usesTransferEncoding then
        if p.kind.Request? && !cfg.lenient then Error(p, InvalidTransferEncoding) else Goto(p, BodyIdentityEof)
      else if p.contentLength == 0 then CompleteMessage(cfg, p, false)
      else if p.contentLength != ULLONG_MAX then Goto(p, BodyIdentity)
      else if !MessageNeedsEof(p) then CompleteMessage(cfg, p, false)
      else Goto(p, BodyIdentityEof)
  }

  // ---- Bodies -----------------------------------------------------------------------------------

  function Crashed(p: Parser): Move {
    Move(p, Nothing, Crash)
  }

  function ChunkDigit(p: Parser, v: nat): Move {
    if (ULLONG_MAX - 16) / 16 < p.contentLength then Error(p, InvalidContentLength)
    else Take(p.(contentLength := p.contentLength * 16 + v))
  }

  function ChunkHeaderMove(cfg: Config, p: Parser, ch: Byte): Move {
    match p.state
    case ChunkSizeStart =>
      if p.nread != 1 || !p.flags.chunked then Crashed(p)
      else if Unhex(ch) == -1 then Error(p, InvalidChunkSize)
      else Goto(p.(contentLength := Unhex(ch)), ChunkSize)
    case ChunkSize =>
      if !p.flags.chunked then Crashed(p)
      else if ch == CR then Goto(p, ChunkSizeAlmostDone)
      else if Unhex(ch) == -1 then
        if ch == ';' as int || ch == SP then Goto(p, ChunkParameters) else Error(p, InvalidChunkSize)
      else ChunkDigit(p, Unhex(ch))
    case ChunkParameters =>
      if !p.flags.chunked then Crashed(p)
      else if ch == CR then Goto(p, ChunkSizeAlmostDone)
      else Take(p)
    case ChunkSizeAlmostDone =>
      if !p.flags.chunked then Crashed(p)
      else if cfg.strict && ch != LF then Error(p, Strict)
      else
        var q := p.(nread := 0);
        Move(if p.contentLength == 0 then q.(flags := p.flags.(trailing := true), state := HeaderFieldStart)
             else q.(state := ChunkData),
             Notify(ChunkHeader(p.contentLength)), Consumed)
    case _ => Crashed(p)
  }

  function ChunkDataMove(cfg: Config, p: Parser, ch: Byte): Move {
    match p.state
    case ChunkData =>
      if !p.flags.chunked || p.contentLength == 0 || p.contentLength == ULLONG_MAX then Crashed(p)
      else
        Move(p.(contentLength := p.contentLength - 1,
                state := if p.contentLength == 1 then ChunkDataAlmostDone else ChunkData), Put(Body), Consumed)
    case ChunkDataAlmostDone =>
      if !p.flags.chunked || p.contentLength != 0 then Crashed(p)
      else if cfg.strict && ch != CR then Error(p, Strict)
      else Move(p.(state := ChunkDataDone), Flush(Body), Consumed)
    case ChunkDataDone =>
      if !p.flags.chunked then Crashed(p)
      else if cfg.strict && ch != LF then Error(p, Strict)
      else Move(p.(nread := 0, state := ChunkSizeStart), Notify(ChunkComplete), Consumed)
    case _ => Crashed(p)
  }

  function BodyMove(cfg: Config, p: Parser, ch: Byte): Move {
    match p.state
    case HeadersAlmostDone => HeadersAlmostDoneMove(cfg, p, ch)
    case HeadersDone => HeadersDoneMove(cfg, p, ch)
    case BodyIdentity =>
      if p.contentLength == 0 || p.contentLength == ULLONG_MAX then Crashed(p)
      else if p.contentLength == 1 then Move(p.(contentLength := 0, state := MessageDone), Put(Body), Again)
      else Move(p.(contentLength := p.contentLength - 1), Put(Body), Consumed)
    case BodyIdentityEof => Move(p, Put(Body), Consumed)
    case MessageDone => CompleteMessage(cfg, p, p.upgrade)
    case _ => Crashed(p)
  }

  // ---- The whole switch -------------------------------------------------------------------------

  datatype Group =
    | GStart | GResponseVersion | GStatusLine | GRequestLine | GRequestProtocol | GRequestVersion | GRequestEnd
    | GField | GValue | GBody | GChunkHeader | GChunkData

  function GroupOf(s: State): Group {
    match s
    case Dead => GStart
    case StartReqOrRes => GStart
    case ResOrRespH => GStart
    case StartRes => GStart
    case StartReq => GStart
    case ResH => GResponseVersion
    case ResHT => GResponseVersion
    case ResHTT => GResponseVersion
    case ResHTTP => GResponseVersion
    case ResHttpMajor => GResponseVersion
    case ResHttpDot => GResponseVersion
    case ResHttpMinor => GResponseVersion
    case ResHttpEnd => GResponseVersion
    case ResFirstStatusCode => GStatusLine
    case ResStatusCode => GStatusLine
    case ResStatusStart => GStatusLine
    case ResStatus => GStatusLine
    case ResLineAlmostDone => GStatusLine
    case ReqMethod => GRequestLine
    case ReqSpacesBeforeUrl => GRequestLine
    case ReqSchema => GRequestLine
    case ReqSchemaSlash => GRequestLine
    case ReqSchemaSlashSlash => GRequestLine
    case ReqServerStart => GRequestLine
    case ReqServer => GRequestLine
    case ReqServerWithAt => GRequestLine
    case ReqPath => GRequestLine
    case ReqQueryStringStart => GRequestLine
    case ReqQueryString => GRequestLine
    case ReqFragmentStart => GRequestLine
    case ReqFragment => GRequestLine
    case ReqHttpStart => GRequestProtocol
    case ReqHttpH => GRequestProtocol
    case ReqHttpHT => GRequestProtocol
    case ReqHttpHTT => GRequestProtocol
    case ReqHttpHTTP => GRequestProtocol
    case ReqHttpI => GRequestProtocol
    case ReqHttpIC => GRequestProtocol
    case ReqHttpMajor => GRequestVersion
    case ReqHttpDot => GRequestVersion
    case ReqHttpMinor => GRequestVersion
    case ReqHttpEnd => GRequestEnd
    case ReqLineAlmostDone => GRequestEnd
    case HeaderFieldStart => GField
    case HeaderField => GField
    case HeaderValueDiscardWs => GValue
    case HeaderValueDiscardWsAlmostDone => GValue
    case HeaderValueDiscardLws => GValue
    case HeaderValueStart => GValue
    case HeaderValue => GValue
    case HeaderValueLws => GValue
    case HeaderAlmostDone => GValue
    case ChunkSizeStart => GChunkHeader
    case ChunkSize => GChunkHeader
    case ChunkParameters => GChunkHeader
    case ChunkSizeAlmostDone => GChunkHeader
    case ChunkData => GChunkData
    case ChunkDataAlmostDone => GChunkData
    case ChunkDataDone => GChunkData
    case HeadersAlmostDone => GBody
    case HeadersDone => GBody
    case BodyIdentity => GBody
    case BodyIdentityEof => GBody
    case MessageDone => GBody
  }

  /** One pass through the source's switch. */
  function Transition(cfg: Config, p: Parser, ch: Byte): Move {
    match GroupOf(p.state)
    case GStart => StartMove(cfg, p, ch)
    case GResponseVersion => ResponseVersionMove(cfg, p, ch)
    case GStatusLine => StatusLineMove(cfg, p, ch)
    case GRequestLine => RequestLineMove(cfg, p, ch)
    case GRequestProtocol => RequestProtocolMove(cfg, p, ch)
    case GRequestVersion => RequestVersionMove(cfg, p, ch)
    case GRequestEnd => RequestEndMove(cfg, p, ch)
    case GField => FieldMove(cfg, p, ch)
    case GValue => ValueMove(cfg, p, ch)
    case GBody => BodyMove(cfg, p, ch)
    case GChunkHeader => ChunkHeaderMove(cfg, p, ch)
    case GChunkData => ChunkDataMove(cfg, p, ch)
  }

  /** How many more times a byte can be handed on from a state. */
  function Rank(s: State): nat {
    match s
    case StartReqOrRes => 1
    case ResStatusCode => 2
    case ResStatusStart => 1
    case HeaderValue => 6
    case HeaderValueLws => 5
    case HeaderValueDiscardLws => 5
    case HeaderFieldStart => 4
    case HeadersAlmostDone => 3
    case HeadersDone => 1
    case BodyIdentity => 1
    case _ => 0
  }

  predicate Descends(p: Parser, m: Move) {
    m.next.Again? ==> Rank(m.p.state) < Rank(p.state)
  }

  lemma RankStart(cfg: Config, p: Parser, ch: Byte)
    ensures Descends(p, StartMove(cfg, p, ch)) && Descends(p, ResponseVersionMove(cfg, p, ch)) &&
            Descends(p, StatusLineMove(cfg, p, ch))
  {
  }

  lemma RankRequest(cfg: Config, p: Parser, ch: Byte)
    ensures Descends(p, RequestLineMove(cfg, p, ch)) && Descends(p, RequestProtocolMove(cfg, p, ch)) &&
            Descends(p, RequestEndMove(cfg, p, ch)) && Descends(p, RequestVersionMove(cfg, p, ch))
  {
  }

  lemma RankField(cfg: Config, p: Parser, ch: Byte)
    ensures Descends(p, FieldMove(cfg, p, ch)) && Descends(p, ValueMove(cfg, p, ch))
  {
  }

  lemma RankBody(cfg: Config, p: Parser, ch: Byte)
    ensures Descends(p, BodyMove(cfg, p, ch)) && Descends(p, ChunkHeaderMove(cfg, p, ch)) &&
            Descends(p, ChunkDataMove(cfg, p, ch))
  {
  }

  /** Handing a byte on always gets closer to consuming it, so the source's goto cannot loop. */
  lemma RankDecreases(cfg: Config, p: Parser, ch: Byte)
    ensures Descends(p, Transition(cfg, p, ch))
  {
    RankStart(cfg, p, ch);
    RankRequest(cfg, p, ch);
    RankField(cfg, p, ch);
    RankBody(cfg, p, ch);
  }
}
