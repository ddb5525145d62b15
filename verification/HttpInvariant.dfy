/**
 What every reachable state of the HTTP parser satisfies, and the first consequence: none of the
 assertions in http_parser_execute can fire, whatever the input.
 */
module HttpInvariant {
  import opened HttpTypes
  import opened HttpStep
  import opened HttpRun

  /** The largest index with which a name or value may still be matching each keyword. */
  function IndexLimit(h: HeaderState): nat {
    match h
    case HC => 0
    case HCO => 1
    case HCON => 2
    case MatchingConnection => 8
    case MatchingProxyConnection => 14
    case MatchingContentLength => 12
    case MatchingTransferEncoding => 15
    case MatchingUpgrade => 5
    case MatchingTeTokenStart => 0
    case MatchingTeChunked => 5
    case MatchingConnTokenStart => 0
    case MatchingConnKeepAlive => 8
    case MatchingConnClose => 3
    case MatchingConnUpgrade => 5
    case _ => 31
  }

  function MethodLength(m: Method): (n: nat)
    ensures 3 <= n <= 11
  {
    match m
    case DELETE => 6 case GET => 3 case HEAD => 4 case POST => 4 case PUT => 3
    case CONNECT => 7 case OPTIONS => 7 case TRACE => 5
    case COPY => 4 case LOCK => 4 case MKCOL => 5 case MOVE => 4 case PROPFIND => 8 case PROPPATCH => 9
    case SEARCH => 6 case UNLOCK => 6 case BIND => 4 case REBIND => 6 case UNBIND => 6 case ACL => 3
    case REPORT => 6 case MKACTIVITY => 10 case CHECKOUT => 8 case MERGE => 5
    case MSEARCH => 8 case NOTIFY => 6 case SUBSCRIBE => 9 case UNSUBSCRIBE => 11
    case PATCH => 5 case PURGE => 5 case MKCALENDAR => 10 case LINK => 4 case UNLINK => 6 case SOURCE => 6
  }

  lemma MethodLengthIsLength(m: Method)
    ensures |MethodString(m)| == MethodLength(m)
  {
  }

  predicate StateFits(p: Parser, nread: nat) {
    match p.state
    case ReqMethod => 1 <= p.index <= MethodLength(p.method_)
    case HeaderField => FieldHeaderState(p.headerState) && p.index <= IndexLimit(p.headerState)
    case HeaderValue =>
      !p.headerState.Connection? && !p.headerState.TransferEncoding? && p.index <= IndexLimit(p.headerState)
    case ChunkSizeStart => p.flags.chunked && p.nread == nread
    case ChunkSize => p.flags.chunked && p.contentLength < ULLONG_MAX
    case ChunkParameters => p.flags.chunked && p.contentLength < ULLONG_MAX
    case ChunkSizeAlmostDone => p.flags.chunked && p.contentLength < ULLONG_MAX
    case ChunkData => p.flags.chunked && 0 < p.contentLength < ULLONG_MAX
    case ChunkDataAlmostDone => p.flags.chunked && p.contentLength == 0
    case ChunkDataDone => p.flags.chunked
    case BodyIdentity => 0 < p.contentLength < ULLONG_MAX
    case _ => true
  }

  /**
   The parser invariant. `nread` is the value the byte counter must have when a chunk size is about to
   begin: 0 between bytes, 1 while its first byte is being looked at. The bounds on index,
   content_length and status_code are those of the source's 5-, 64- and 16-bit fields.
   */
  predicate Inv(cfg: Config, p: Parser, nread: nat) {
    && p.errno.OK?
    && p.nread <= cfg.maxHeaderSize
    && p.index < 32
    && p.contentLength <= ULLONG_MAX
    && p.statusCode <= 999
    && StateFits(p, nread)
  }

  predicate KeepsInv(cfg: Config, m: Move) {
    match m.next
    case Consumed => Inv(cfg, m.p, 0)
    case Again => Inv(cfg, m.p, 1)
    case Exit => Inv(cfg, m.p, 0)
    case Fail => !m.p.errno.OK?
    case Crash => false
  }

  /** The states of which the invariant asks nothing. */
  predicate Plain(s: State) {
    !(s.ReqMethod? || s.HeaderField? || s.HeaderValue? || s.ChunkSizeStart? || s.ChunkSize? || s.ChunkParameters? ||
      s.ChunkSizeAlmostDone? || s.ChunkData? || s.ChunkDataAlmostDone? || s.ChunkDataDone? || s.BodyIdentity?)
  }

  lemma PlainFits(p: Parser, nread: nat)
    requires Plain(p.state)
    ensures StateFits(p, nread)
  {
  }

  predicate SameNumbers(p: Parser, q: Parser) {
    q.errno == p.errno && q.nread == p.nread && q.index == p.index && q.contentLength == p.contentLength &&
        q.statusCode == p.statusCode
  }

  /** A move to a plain state with the same numbers, or to an error. */
  predicate Harmless(p: Parser, m: Move) {
    || (m.next.Fail? && !m.p.errno.OK?)
    || ((m.next.Consumed? || m.next.Again?) && Plain(m.p.state) && SameNumbers(p, m.p))
  }

  lemma HarmlessInv(cfg: Config, p: Parser, m: Move)
    requires Inv(cfg, p, 1) && Harmless(p, m)
    ensures KeepsInv(cfg, m)
  {
    hide StateFits, Plain;
    if !m.next.Fail? {
      PlainFits(m.p, 0);
      PlainFits(m.p, 1);
    }
  }

  lemma StartInv(cfg: Config, p: Parser, ch: Byte)
    requires Inv(cfg, p, 1) && GroupOf(p.state).GStart?
    ensures KeepsInv(cfg, StartMove(cfg, p, ch))
  {
    hide Fresh, MethodFor, MethodInitial;
    FreshIsSame(p);
  }

  /** What a new message starts with. */
  lemma FreshIsSame(p: Parser)
    ensures var q := Fresh(p);
            && q.errno == p.errno && q.nread == p.nread && q.index == p.index && q.state == p.state
            && q.statusCode == p.statusCode
    ensures Fresh(p).contentLength <= ULLONG_MAX
  {
  }

  lemma StatusCodeInv(cfg: Config, p: Parser, ch: Byte)
    requires Inv(cfg, p, 1)
    ensures p.state.ResStatusCode? || p.state.ResFirstStatusCode? ==> KeepsInv(cfg, StatusCodeMove(p, ch))
  {
  }

  lemma StatusLineInv(cfg: Config, p: Parser, ch: Byte)
    requires Inv(cfg, p, 1) && GroupOf(p.state).GStatusLine?
    ensures KeepsInv(cfg, StatusLineMove(cfg, p, ch))
  {
    hide StatusCodeMove;
    StatusCodeInv(cfg, p, ch);
  }

  lemma ResponseVersionInv(cfg: Config, p: Parser, ch: Byte)
    requires Inv(cfg, p, 1) && GroupOf(p.state).GResponseVersion?
    ensures KeepsInv(cfg, ResponseVersionMove(cfg, p, ch))
  {
    hide Inv, KeepsInv;
    HarmlessInv(cfg, p, ResponseVersionMove(cfg, p, ch));
  }

  lemma MethodInv(cfg: Config, p: Parser, ch: Byte)
    requires Inv(cfg, p, 1) && p.state.ReqMethod?
    ensures KeepsInv(cfg, MethodMove(p, ch))
  {
    MethodLengthIsLength(p.method_);
    hide MethodString;
  }

  lemma UrlInv(cfg: Config, p: Parser, s: State, ch: Byte)
    requires Inv(cfg, p, 1)
    ensures KeepsInv(cfg, UrlMove(cfg, p, s, ch))
  {
    hide Inv, KeepsInv, ParseUrlChar, Plain;
    UrlStates(cfg.strict, s, ch);
    HarmlessInv(cfg, p, UrlMove(cfg, p, s, ch));
  }

  lemma UrlStates(strict: bool, s: State, ch: Byte)
    ensures Plain(ParseUrlChar(strict, s, ch))
  {
    hide IsUrlChar, IsUserinfoChar, IsAlpha;
  }

  lemma UrlOrEndInv(cfg: Config, p: Parser, ch: Byte)
    requires Inv(cfg, p, 1)
    ensures KeepsInv(cfg, UrlOrEnd(cfg, p, ch))
    ensures ch == SP && !p.state.ChunkSizeStart? ==> Inv(cfg, p, 0)
  {
    hide UrlMove;
    UrlInv(cfg, p, p.state, ch);
  }

  lemma RequestLineInv(cfg: Config, p: Parser, ch: Byte)
    requires Inv(cfg, p, 1) && GroupOf(p.state).GRequestLine?
    ensures KeepsInv(cfg, RequestLineMove(cfg, p, ch))
  {
    hide UrlMove, MethodMove, UrlOrEnd, Inv;
    UrlOrEndInv(cfg, p, ch);
    if p.state.ReqMethod? {
      MethodInv(cfg, p, ch);
    } else {
      UrlInv(cfg, p, p.state, ch);
      UrlInv(cfg, p, ReqServerStart, ch);
    }
  }

  lemma RequestProtocolInv(cfg: Config, p: Parser, ch: Byte)
    requires Inv(cfg, p, 1) && GroupOf(p.state).GRequestProtocol?
    ensures KeepsInv(cfg, RequestProtocolMove(cfg, p, ch))
  {
    hide Inv, KeepsInv;
    HarmlessInv(cfg, p, RequestProtocolMove(cfg, p, ch));
  }

  lemma RequestEndInv(cfg: Config, p: Parser, ch: Byte)
    requires Inv(cfg, p, 1) && GroupOf(p.state).GRequestEnd?
    ensures KeepsInv(cfg, RequestEndMove(cfg, p, ch))
  {
    hide Inv, KeepsInv;
    HarmlessInv(cfg, p, RequestEndMove(cfg, p, ch));
  }

  lemma RequestVersionInv(cfg: Config, p: Parser, ch: Byte)
    requires Inv(cfg, p, 1) && GroupOf(p.state).GRequestVersion?
    ensures KeepsInv(cfg, RequestVersionMove(cfg, p, ch))
  {
    hide Inv, KeepsInv;
    HarmlessInv(cfg, p, RequestVersionMove(cfg, p, ch));
  }

  lemma KeywordLimit(h: HeaderState)
    requires Matching(h)
    ensures IndexLimit(h) == |Keyword(h)| - 2 < 31
  {
  }

  /** While a keyword is still being matched, the index stays inside it. */
  lemma MatchInv(h: HeaderState, index: nat, c: Byte)
    requires Matching(h) && index <= IndexLimit(h)
    ensures index < 31
    ensures MatchKeyword(Keyword(h), index + 1, c).Partial? ==> index + 1 <= IndexLimit(h)
  {
    hide Keyword, IndexLimit, Matching;
    KeywordLimit(h);
  }

  lemma FieldMatchInv(cfg: Config, p: Parser, c: Byte, done: HeaderState)
    requires Inv(cfg, p, 1) && p.state.HeaderField? && Matching(p.headerState)
    requires FieldHeaderState(p.headerState) && FieldHeaderState(done) && IndexLimit(done) == 31
    ensures Inv(cfg, FieldMatch(p, c, done), 0) && FieldMatch(p, c, done).state.HeaderField?
  {
    hide Keyword, MatchKeyword;
    MatchInv(p.headerState, p.index, c);
  }

  lemma FieldCharInv(cfg: Config, p: Parser, ch: Byte)
    requires Inv(cfg, p, 1) && p.state.HeaderField?
    ensures Inv(cfg, FieldChar(cfg, p, ch), 0) && FieldChar(cfg, p, ch).state.HeaderField?
  {
    hide FieldChar, Inv;
    if Matching(p.headerState) {
      FieldMatchingInv(cfg, p, ch);
    } else {
      FieldOtherInv(cfg, p, ch);
    }
  }

  lemma FieldMatchingInv(cfg: Config, p: Parser, ch: Byte)
    requires Inv(cfg, p, 1) && p.state.HeaderField? && Matching(p.headerState)
    ensures Inv(cfg, FieldChar(cfg, p, ch), 0) && FieldChar(cfg, p, ch).state.HeaderField?
  {
    hide FieldMatch, Token, Inv, IndexLimit;
    FieldHeaderStateIs(cfg, p);
    var c := Token(cfg.strict, ch);
    FieldMatchInv(cfg, p, c, Connection);
    FieldMatchInv(cfg, p, c, ContentLength);
    FieldMatchInv(cfg, p, c, TransferEncoding);
    FieldMatchInv(cfg, p, c, Upgrade);
  }

  lemma FieldHeaderStateIs(cfg: Config, p: Parser)
    requires Inv(cfg, p, 1) && p.state.HeaderField?
    ensures FieldHeaderState(p.headerState)
    ensures IndexLimit(Connection) == IndexLimit(ContentLength) == 31
    ensures IndexLimit(TransferEncoding) == IndexLimit(Upgrade) == 31
  {
  }

  lemma FieldOtherInv(cfg: Config, p: Parser, ch: Byte)
    requires Inv(cfg, p, 1) && p.state.HeaderField? && !Matching(p.headerState)
    ensures Inv(cfg, FieldChar(cfg, p, ch), 0) && FieldChar(cfg, p, ch).state.HeaderField?
  {
    hide FieldMatch, Token;
  }

  lemma FieldInv(cfg: Config, p: Parser, ch: Byte)
    requires Inv(cfg, p, 1) && GroupOf(p.state).GField?
    ensures KeepsInv(cfg, FieldMove(cfg, p, ch))
  {
    hide FieldChar, Token;
    if p.state.HeaderField? {
      FieldCharInv(cfg, p, ch);
    }
  }

  lemma ValueStartInv(cfg: Config, p: Parser, ch: Byte)
    requires Inv(cfg, p, 1)
    ensures KeepsInv(cfg, ValueStartMove(p, ch))
  {
    hide Lower;
  }

  predicate GoodValue(cfg: Config, r: ValueResult) {
    match r
    case Ok(q) => Inv(cfg, q, 0) && q.state.HeaderValue?
    case Bad(e) => !e.OK?
    case Impossible => false
  }

  lemma ValueMatchInv(cfg: Config, p: Parser, c: Byte, done: HeaderState, otherwise: HeaderState)
    requires Inv(cfg, p, 1) && p.state.HeaderValue? && Matching(p.headerState)
    requires IndexLimit(done) == IndexLimit(otherwise) == 31
    requires !done.Connection? && !done.TransferEncoding? && !otherwise.Connection? && !otherwise.TransferEncoding?
    ensures GoodValue(cfg, ValueMatch(p, c, done, otherwise))
  {
    hide Keyword, MatchKeyword, IndexLimit, Settle, Inv, GoodValue;
    ValueIndex(cfg, p);
    MatchInv(p.headerState, p.index, c);
    SettledInv(cfg, p, MatchKeyword(Keyword(p.headerState), p.index + 1, c), done, otherwise);
  }

  lemma ValueIndex(cfg: Config, p: Parser)
    requires Inv(cfg, p, 1) && p.state.HeaderValue?
    ensures p.index <= IndexLimit(p.headerState)
  {
    hide IndexLimit;
  }

  lemma SettledInv(cfg: Config, p: Parser, r: Match, done: HeaderState, otherwise: HeaderState)
    requires Inv(cfg, p, 1) && p.state.HeaderValue? && p.index < 31
    requires IndexLimit(done) == IndexLimit(otherwise) == 31
    requires !done.Connection? && !done.TransferEncoding? && !otherwise.Connection? && !otherwise.TransferEncoding?
    requires r.Partial? ==> p.index + 1 <= IndexLimit(p.headerState)
    ensures GoodValue(cfg, Ok(Settle(p.(index := p.index + 1), r, done, otherwise)))
  {
    hide IndexLimit;
  }

  lemma ContentLengthInv(cfg: Config, p: Parser, ch: Byte)
    requires Inv(cfg, p, 1) && p.state.HeaderValue?
    ensures GoodValue(cfg, ContentLengthDigit(p, ch))
    ensures GoodValue(cfg, ContentLengthDigit(p.(headerState := ContentLengthNum), ch))
  {
  }

  lemma TeInv(cfg: Config, p: Parser, ch: Byte)
    requires Inv(cfg, p, 1) && p.state.HeaderValue?
    ensures GoodValue(cfg, TeChar(p, ch))
  {
    hide ValueMatch, StrictToken, Lower;
    if p.headerState.MatchingTeChunked? {
      ValueMatchInv(cfg, p, Lower(ch), TeChunked, MatchingTeToken);
    }
  }

  lemma ConnectionInv(cfg: Config, p: Parser, ch: Byte)
    requires Inv(cfg, p, 1) && p.state.HeaderValue? && InConnection(p.headerState)
    ensures GoodValue(cfg, ConnectionChar(p, ch))
  {
    hide ValueMatch, StrictToken, Lower;
    if Matching(p.headerState) {
      ValueMatchInv(cfg, p, Lower(ch), ConnKeepAlive, MatchingConnToken);
      ValueMatchInv(cfg, p, Lower(ch), ConnClose, MatchingConnToken);
      ValueMatchInv(cfg, p, Lower(ch), ConnUpgrade, MatchingConnToken);
    }
  }

  lemma ValueCharInv(cfg: Config, p: Parser, ch: Byte)
    requires Inv(cfg, p, 1) && p.state.HeaderValue?
    ensures GoodValue(cfg, ValueChar(cfg, p, ch))
  {
    hide TeChar, ConnectionChar, ContentLengthDigit, IsHeaderChar, InTransferEncoding;
    ContentLengthInv(cfg, p, ch);
    TeInv(cfg, p, ch);
    if InConnection(p.headerState) {
      ConnectionInv(cfg, p, ch);
    }
  }

  lemma ValueInv(cfg: Config, p: Parser, ch: Byte)
    requires Inv(cfg, p, 1) && GroupOf(p.state).GValue?
    ensures KeepsInv(cfg, ValueMove(cfg, p, ch))
  {
    hide ValueMove, Inv, KeepsInv;
    if p.state.HeaderValue? {
      HeaderValueInv(cfg, p, ch);
    } else {
      AroundValueInv(cfg, p, ch);
    }
  }

  lemma HeaderValueInv(cfg: Config, p: Parser, ch: Byte)
    requires Inv(cfg, p, 1) && p.state.HeaderValue?
    ensures KeepsInv(cfg, ValueMove(cfg, p, ch))
  {
    hide ValueChar, ValueStartMove, Finished;
    ValueCharInv(cfg, p, ch);
  }

  lemma AroundValueInv(cfg: Config, p: Parser, ch: Byte)
    requires Inv(cfg, p, 1) && GroupOf(p.state).GValue? && !p.state.HeaderValue?
    ensures KeepsInv(cfg, ValueMove(cfg, p, ch))
  {
    hide ValueChar, ValueStartMove, Finished, ValueMove, Inv, KeepsInv;
    if p.state.HeaderValueStart? || p.state.HeaderValueDiscardWs? {
      BeforeValueInv(cfg, p, ch);
    } else {
      BehindValueInv(cfg, p, ch);
    }
  }

  lemma BeforeValueInv(cfg: Config, p: Parser, ch: Byte)
    requires Inv(cfg, p, 1) && (p.state.HeaderValueStart? || p.state.HeaderValueDiscardWs?)
    ensures KeepsInv(cfg, ValueMove(cfg, p, ch))
  {
    hide ValueChar, ValueStartMove, Finished;
    ValueStartInv(cfg, p, ch);
  }

  lemma BehindValueInv(cfg: Config, p: Parser, ch: Byte)
    requires Inv(cfg, p, 1) && GroupOf(p.state).GValue? && !p.state.HeaderValue?
    requires !p.state.HeaderValueStart? && !p.state.HeaderValueDiscardWs?
    ensures KeepsInv(cfg, ValueMove(cfg, p, ch))
  {
    hide ValueChar, ValueStartMove, Finished;
  }

  lemma CompleteInv(cfg: Config, p: Parser, exit: bool)
    requires Inv(cfg, p, 1) || (Inv(cfg, p.(nread := 1), 1) && p.nread == 0)
    ensures KeepsInv(cfg, CompleteMessage(cfg, p, exit))
  {
    hide ShouldKeepAlive;
  }

  lemma AnsweredInv(cfg: Config, q: Parser, reply: Reply)
    requires Inv(cfg, q, 1) && q.state.HeadersDone?
    ensures KeepsInv(cfg, Answered(q, reply))
  {
  }

  lemma HeadersAlmostDoneInv(cfg: Config, p: Parser, ch: Byte)
    requires Inv(cfg, p, 1)
    ensures KeepsInv(cfg, HeadersAlmostDoneMove(cfg, p, ch))
  {
    hide Answered;
    var q := p.(state := HeadersDone,
                upgrade := if p.flags.upgrade && p.flags.connUpgrade
                           then p.kind.Request? || p.statusCode == 101
                           else p.method_.CONNECT?);
    AnsweredInv(cfg, q, cfg.onHeadersComplete(HeadOf(q)));
  }

  lemma HeadersDoneInv(cfg: Config, p: Parser, ch: Byte)
    requires Inv(cfg, p, 1)
    ensures KeepsInv(cfg, HeadersDoneMove(cfg, p, ch))
  {
    hide CompleteMessage, MessageNeedsEof, HasBody;
    CompleteInv(cfg, p.(nread := 0), true);
    CompleteInv(cfg, p.(nread := 0), false);
  }

  lemma BodyInv(cfg: Config, p: Parser, ch: Byte)
    requires Inv(cfg, p, 1) && GroupOf(p.state).GBody?
    ensures KeepsInv(cfg, BodyMove(cfg, p, ch))
  {
    hide HeadersAlmostDoneMove, HeadersDoneMove, CompleteMessage;
    if p.state.HeadersAlmostDone? {
      HeadersAlmostDoneInv(cfg, p, ch);
    } else if p.state.HeadersDone? {
      HeadersDoneInv(cfg, p, ch);
    } else if p.state.MessageDone? {
      CompleteInv(cfg, p, p.upgrade);
    }
  }

  lemma ChunkDigitInv(cfg: Config, p: Parser, v: nat)
    requires Inv(cfg, p, 1) && p.state.ChunkSize? && v < 16
    ensures KeepsInv(cfg, ChunkDigit(p, v))
  {
  }

  lemma ChunkHeaderInv(cfg: Config, p: Parser, ch: Byte)
    requires Inv(cfg, p, 1) && GroupOf(p.state).GChunkHeader?
    ensures KeepsInv(cfg, ChunkHeaderMove(cfg, p, ch))
  {
    hide ChunkDigit, Unhex;
    if p.state.ChunkSize? && Unhex(ch) >= 0 {
      ChunkDigitInv(cfg, p, Unhex(ch));
    }
  }

  lemma ChunkDataInv(cfg: Config, p: Parser, ch: Byte)
    requires Inv(cfg, p, 1) && GroupOf(p.state).GChunkData?
    ensures KeepsInv(cfg, ChunkDataMove(cfg, p, ch))
  {
    hide ChunkDataMove, Inv, KeepsInv;
    if p.state.ChunkData? {
      ChunkByteInv(cfg, p, ch);
    } else {
      ChunkEndInv(cfg, p, ch);
    }
  }

  lemma ChunkByteInv(cfg: Config, p: Parser, ch: Byte)
    requires Inv(cfg, p, 1) && p.state.ChunkData?
    ensures KeepsInv(cfg, ChunkDataMove(cfg, p, ch))
  {
  }

  lemma ChunkEndInv(cfg: Config, p: Parser, ch: Byte)
    requires Inv(cfg, p, 1) && (p.state.ChunkDataAlmostDone? || p.state.ChunkDataDone?)
    ensures KeepsInv(cfg, ChunkDataMove(cfg, p, ch))
  {
  }

  lemma TransitionInv(cfg: Config, p: Parser, ch: Byte)
    requires Inv(cfg, p, 1)
    ensures KeepsInv(cfg, Transition(cfg, p, ch))
  {
    match GroupOf(p.state)
    case GStart => StartInv(cfg, p, ch);
    case GResponseVersion => ResponseVersionInv(cfg, p, ch);
    case GStatusLine => StatusLineInv(cfg, p, ch);
    case GRequestLine => RequestLineInv(cfg, p, ch);
    case GRequestProtocol => RequestProtocolInv(cfg, p, ch);
    case GRequestVersion => RequestVersionInv(cfg, p, ch);
    case GRequestEnd => RequestEndInv(cfg, p, ch);
    case GField => FieldInv(cfg, p, ch);
    case GValue => ValueInv(cfg, p, ch);
    case GBody => BodyInv(cfg, p, ch);
    case GChunkHeader => ChunkHeaderInv(cfg, p, ch);
    case GChunkData => ChunkDataInv(cfg, p, ch);
  }

  // ---- Whole runs -------------------------------------------------------------------------------

  lemma {:induction false} DriveInv(cfg: Config, p: Parser, tr: Trace, ch: Byte)
    requires Inv(cfg, p, 1)
    ensures var o := Drive(cfg, p, tr, ch);
            !o.next.Crash? && (o.next.Consumed? || o.next.Exit? ==> Inv(cfg, o.p, 0)) &&
                (o.next.Fail? ==> !o.p.errno.OK?)
    decreases Rank(p.state)
  {
    hide Transition, Inv, Effect, Rank;
    TransitionInv(cfg, p, ch);
    RankDecreases(cfg, p, ch);
    var m := Transition(cfg, p, ch);
    if m.next.Again? {
      DriveInv(cfg, m.p, Effect(m.action, ch, tr), ch);
    }
  }

  predicate Sound(cfg: Config, m: Machine) {
    && !m.halt.Crashed?
    && (m.halt.Running? || m.halt.Exited? ==> Inv(cfg, m.p, 0))
  }

  lemma CountInv(cfg: Config, p: Parser)
    requires Inv(cfg, p, 0)
    requires !Overflows(cfg, p)
    ensures Inv(cfg, Count(p), 1)
  {
  }

  lemma InitInv(cfg: Config, t: HttpType)
    ensures Inv(cfg, Init(t), 0)
  {
  }

  lemma StepInv(cfg: Config, m: Machine, ch: Byte)
    requires Sound(cfg, m)
    ensures Sound(cfg, Step(cfg, m, ch))
  {
    hide Drive, Inv;
    if m.halt.Running? && !Overflows(cfg, m.p) {
      CountInv(cfg, m.p);
      DriveInv(cfg, Count(m.p), m.trace, ch);
    }
  }

  lemma {:induction false} RunInv(cfg: Config, m: Machine, bytes: seq<Byte>)
    requires Sound(cfg, m)
    ensures Sound(cfg, Run(cfg, m, bytes))
    decreases |bytes|
  {
    hide Step, Sound;
    if bytes != [] {
      RunInv(cfg, m, bytes[..|bytes| - 1]);
      StepInv(cfg, Run(cfg, m, bytes[..|bytes| - 1]), bytes[|bytes| - 1]);
    }
  }

  /**
   From a freshly initialised parser of any type, in either build mode and with any limits and replies,
   no input makes an assertion of the parser fail, and every bounded field stays within its width.
   */
  lemma NoAssertFires(cfg: Config, t: HttpType, bytes: seq<Byte>)
    ensures !Run(cfg, Start(Init(t)), bytes).halt.Crashed?
    ensures Run(cfg, Start(Init(t)), bytes).halt.Running? ==> Inv(cfg, Run(cfg, Start(Init(t)), bytes).p, 0)
  {
    hide Run, Inv;
    InitInv(cfg, t);
    RunInv(cfg, Start(Init(t)), bytes);
  }
}
