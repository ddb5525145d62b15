/**
 The inner loops of http_parser_execute, which take runs of header and body bytes without going round the
 main switch, and the byte-by-byte meaning of such runs.
 */
module HttpBulk {
  import opened HttpTypes
  import opened HttpStep
  import opened HttpRun
  import opened HttpInvariant
  import opened HttpMarks

  predicate AllTokens(cfg: Config, bytes: seq<Byte>) {
    forall k :: 0 <= k < |bytes| ==> Token(cfg.strict, bytes[k]) != 0
  }

  predicate NoLineEnd(bytes: seq<Byte>) {
    forall k :: 0 <= k < |bytes| ==> bytes[k] != CR && bytes[k] != LF
  }

  // ---- Folds over a run -------------------------------------------------------------------------

  /** The parser after the characters `bytes` of a header name, not counting them. */
  function FieldChars(cfg: Config, p: Parser, bytes: seq<Byte>): Parser
    decreases |bytes|
  {
    if bytes == [] then p else FieldChar(cfg, FieldChars(cfg, p, bytes[..|bytes| - 1]), bytes[|bytes| - 1])
  }

  /** The parser after the characters `bytes` of a header value, not counting them. */
  function ValueChars(cfg: Config, p: Parser, bytes: seq<Byte>): ValueResult
    decreases |bytes|
  {
    if bytes == [] then Ok(p)
    else
      match ValueChars(cfg, p, bytes[..|bytes| - 1])
      case Ok(q) => ValueChar(cfg, q, bytes[|bytes| - 1])
      case Bad(e) => Bad(e)
      case Impossible => Impossible
  }

  lemma FieldCharsSnoc(cfg: Config, p: Parser, data: seq<Byte>, i: nat, j: nat)
    requires i <= j < |data|
    ensures FieldChars(cfg, p, data[i..j + 1]) == FieldChar(cfg, FieldChars(cfg, p, data[i..j]), data[j])
  {
    hide FieldChar;
    assert data[i..j + 1][..j - i] == data[i..j];
  }

  lemma ValueCharsSnoc(cfg: Config, p: Parser, data: seq<Byte>, i: nat, j: nat)
    requires i <= j < |data| && ValueChars(cfg, p, data[i..j]).Ok?
    ensures ValueChars(cfg, p, data[i..j + 1]) == ValueChar(cfg, ValueChars(cfg, p, data[i..j]).p, data[j])
  {
    hide ValueChar;
    assert data[i..j + 1][..j - i] == data[i..j];
  }

  // ---- The byte counter is independent of everything else ---------------------------------------

  lemma FieldMatchCount(p: Parser, c: Byte, done: HeaderState, n: nat)
    requires Matching(p.headerState)
    ensures FieldMatch(p.(nread := n), c, done) == FieldMatch(p, c, done).(nread := n)
    ensures FieldMatch(p, c, done).state == p.state && FieldMatch(p, c, done).nread == p.nread
    ensures FieldHeaderState(p.headerState) && FieldHeaderState(done) ==>
            FieldHeaderState(FieldMatch(p, c, done).headerState)
  {
    hide Keyword, MatchKeyword, Matching;
  }

  lemma FieldOtherCount(cfg: Config, p: Parser, ch: Byte, n: nat)
    requires !Matching(p.headerState)
    ensures FieldChar(cfg, p.(nread := n), ch) == FieldChar(cfg, p, ch).(nread := n)
    ensures FieldChar(cfg, p, ch).state == p.state && FieldChar(cfg, p, ch).nread == p.nread
  {
    hide FieldMatch, Token;
  }

  lemma FieldMatchingCount(cfg: Config, p: Parser, ch: Byte, n: nat)
    requires Matching(p.headerState)
    ensures FieldChar(cfg, p.(nread := n), ch) == FieldChar(cfg, p, ch).(nread := n)
    ensures FieldChar(cfg, p, ch).state == p.state && FieldChar(cfg, p, ch).nread == p.nread
  {
    hide FieldMatch, Token, FieldHeaderState;
    var c := Token(cfg.strict, ch);
    match p.headerState
    case MatchingConnection => FieldMatchCount(p, c, Connection, n);
    case MatchingProxyConnection => FieldMatchCount(p, c, Connection, n);
    case MatchingContentLength => FieldMatchCount(p, c, ContentLength, n);
    case MatchingTransferEncoding => FieldMatchCount(p, c, TransferEncoding, n);
    case MatchingUpgrade => FieldMatchCount(p, c, Upgrade, n);
    case _ =>
  }

  lemma FieldCharCount(cfg: Config, p: Parser, ch: Byte, n: nat)
    ensures FieldChar(cfg, p.(nread := n), ch) == FieldChar(cfg, p, ch).(nread := n)
    ensures FieldChar(cfg, p, ch).state == p.state && FieldChar(cfg, p, ch).nread == p.nread
  {
    hide FieldChar;
    if Matching(p.headerState) {
      FieldMatchingCount(cfg, p, ch, n);
    } else {
      FieldOtherCount(cfg, p, ch, n);
    }
  }

  lemma FieldCharKeeps(cfg: Config, p: Parser, ch: Byte)
    requires FieldHeaderState(p.headerState)
    ensures FieldHeaderState(FieldChar(cfg, p, ch).headerState)
  {
    hide Keyword, MatchKeyword, Token;
  }

  function Recount(r: ValueResult, n: nat): ValueResult {
    match r
    case Ok(q) => Ok(q.(nread := n))
    case Bad(e) => Bad(e)
    case Impossible => Impossible
  }

  predicate SameCount(p: Parser, r: ValueResult) {
    r.Ok? ==> r.p.state == p.state && r.p.nread == p.nread
  }

  lemma SettleCount(q: Parser, r: Match, done: HeaderState, otherwise: HeaderState, n: nat)
    ensures Settle(q.(nread := n), r, done, otherwise) == Settle(q, r, done, otherwise).(nread := n)
    ensures Settle(q, r, done, otherwise).state == q.state && Settle(q, r, done, otherwise).nread == q.nread
  {
  }

  lemma ValueMatchCount(p: Parser, c: Byte, done: HeaderState, otherwise: HeaderState, n: nat)
    requires Matching(p.headerState)
    ensures ValueMatch(p.(nread := n), c, done, otherwise) == Recount(ValueMatch(p, c, done, otherwise), n)
    ensures SameCount(p, ValueMatch(p, c, done, otherwise))
  {
    hide Keyword, MatchKeyword, Matching, Settle;
    SettleCount(p.(index := p.index + 1), MatchKeyword(Keyword(p.headerState), p.index + 1, c), done, otherwise, n);
  }

  lemma TeCharCount(p: Parser, ch: Byte, n: nat)
    ensures TeChar(p.(nread := n), ch) == Recount(TeChar(p, ch), n) && SameCount(p, TeChar(p, ch))
  {
    hide ValueMatch, StrictToken, Lower;
    if p.headerState.MatchingTeChunked? {
      ValueMatchCount(p, Lower(ch), TeChunked, MatchingTeToken, n);
    }
  }

  lemma ConnectionTailCount(p: Parser, ch: Byte, n: nat)
    ensures ConnectionTail(p.(nread := n), ch) == Recount(ConnectionTail(p, ch), n)
    ensures SameCount(p, ConnectionTail(p, ch))
  {
  }

  lemma ConnectionCharCount(p: Parser, ch: Byte, n: nat)
    ensures ConnectionChar(p.(nread := n), ch) == Recount(ConnectionChar(p, ch), n)
    ensures SameCount(p, ConnectionChar(p, ch))
  {
    hide ValueMatch, StrictToken, Lower, ConnectionTail;
    ConnectionTailCount(p, ch, n);
    if Matching(p.headerState) {
      ValueMatchCount(p, Lower(ch), ConnKeepAlive, MatchingConnToken, n);
      ValueMatchCount(p, Lower(ch), ConnClose, MatchingConnToken, n);
      ValueMatchCount(p, Lower(ch), ConnUpgrade, MatchingConnToken, n);
    }
  }

  lemma ContentLengthCount(p: Parser, ch: Byte, n: nat)
    ensures ContentLengthDigit(p.(nread := n), ch) == Recount(ContentLengthDigit(p, ch), n)
    ensures SameCount(p, ContentLengthDigit(p, ch))
  {
  }

  lemma ValueCharCount(cfg: Config, p: Parser, ch: Byte, n: nat)
    ensures ValueChar(cfg, p.(nread := n), ch) == Recount(ValueChar(cfg, p, ch), n)
    ensures SameCount(p, ValueChar(cfg, p, ch))
  {
    hide TeChar, ConnectionChar, IsHeaderChar, InTransferEncoding, InConnection, ContentLengthDigit;
    ContentLengthCount(p, ch, n);
    ContentLengthCount(p.(headerState := ContentLengthNum), ch, n);
    TeCharCount(p, ch, n);
    ConnectionCharCount(p, ch, n);
  }

  // ---- What a run does, byte by byte ------------------------------------------------------------

  /** The machine after taking `bytes` as data of kind `k`, ending with the parser `q`. */
  function Took(m: Machine, q: Parser, k: DataKind, bytes: seq<Byte>): Machine {
    Machine(q, Span(m.trace, k, bytes), Running, m.consumed + |bytes|)
  }

  /** As Took, with the bytes counted against the header limit. */
  function TookHeader(m: Machine, q: Parser, k: DataKind, bytes: seq<Byte>): Machine {
    Took(m, q.(nread := m.p.nread + |bytes|), k, bytes)
  }

  lemma TookMore(m: Machine, q: Parser, r: Parser, k: DataKind, bytes: seq<Byte>, ch: Byte)
    ensures Took(Took(m, q, k, bytes), r, k, [ch]) == Took(m, r, k, bytes + [ch])
  {
    hide Span;
    SpanSpan(m.trace, k, bytes, [ch]);
  }

  lemma TookNothing(m: Machine, k: DataKind)
    requires m.halt.Running?
    ensures Took(m, m.p, k, []) == m
  {
  }

  lemma DriveOnce(cfg: Config, p: Parser, tr: Trace, ch: Byte, m: Move)
    requires m == Transition(cfg, p, ch) && !m.next.Again?
    ensures Drive(cfg, p, tr, ch) == Outcome(m.p, Effect(m.action, ch, tr), m.next)
  {
    hide Transition, Effect;
  }

  lemma FieldMoveInside(cfg: Config, p: Parser, ch: Byte)
    requires p.state.HeaderField? && FieldHeaderState(p.headerState) && Token(cfg.strict, ch) != 0
    ensures Transition(cfg, p, ch) == Move(FieldChar(cfg, p, ch), Put(Field), Consumed)
  {
    hide FieldChar, Token, FieldHeaderState;
  }

  lemma FieldStep(cfg: Config, m: Machine, ch: Byte)
    requires m.halt.Running? && m.p.state.HeaderField? && FieldHeaderState(m.p.headerState)
    requires Token(cfg.strict, ch) != 0 && m.p.nread < cfg.maxHeaderSize
    ensures Step(cfg, m, ch) == Took(m, FieldChar(cfg, m.p, ch).(nread := m.p.nread + 1), Field, [ch])
  {
    hide FieldChar, Token, Emit, Transition, FieldHeaderState, Drive;
    FieldCharCount(cfg, m.p, ch, m.p.nread + 1);
    FieldMoveInside(cfg, Count(m.p), ch);
    DriveOnce(cfg, Count(m.p), m.trace, ch, Move(FieldChar(cfg, Count(m.p), ch), Put(Field), Consumed));
  }

  lemma ValueMoveInside(cfg: Config, p: Parser, ch: Byte)
    requires p.state.HeaderValue? && ch != CR && ch != LF
    ensures match ValueChar(cfg, p, ch)
            case Ok(q) => Transition(cfg, p, ch) == Move(q, Put(Value), Consumed)
            case Bad(e) => Transition(cfg, p, ch) == Error(p, e)
            case Impossible => true
  {
    hide ValueChar;
  }

  lemma ValueStep(cfg: Config, m: Machine, ch: Byte)
    requires m.halt.Running? && m.p.state.HeaderValue? && ch != CR && ch != LF && m.p.nread < cfg.maxHeaderSize
    ensures match ValueChar(cfg, m.p, ch)
            case Ok(q) => Step(cfg, m, ch) == Took(m, q.(nread := m.p.nread + 1), Value, [ch])
            case Bad(e) => Step(cfg, m, ch).halt.Failed? && Step(cfg, m, ch).p.errno == e
            case Impossible => true
  {
    hide ValueChar, Emit, Transition, Drive;
    ValueCharCount(cfg, m.p, ch, m.p.nread + 1);
    ValueMoveInside(cfg, Count(m.p), ch);
    if !ValueChar(cfg, m.p, ch).Impossible? {
      DriveOnce(cfg, Count(m.p), m.trace, ch, Transition(cfg, Count(m.p), ch));
    }
  }

  lemma OverflowStep(cfg: Config, m: Machine, ch: Byte)
    requires m.halt.Running? && ParsingHeader(m.p.state) && m.p.nread >= cfg.maxHeaderSize
    ensures Step(cfg, m, ch).halt.Failed? && Step(cfg, m, ch).p.errno == HeaderOverflow
  {
    hide Drive;
  }

  predicate Overflowed(m: Machine) {
    m.halt.Failed? && m.p.errno == HeaderOverflow
  }

  lemma OverflowStays(cfg: Config, m: Machine, bytes: seq<Byte>, ch: Byte)
    requires Overflowed(Run(cfg, m, bytes))
    ensures Overflowed(Run(cfg, m, bytes + [ch]))
  {
    hide Drive;
    RunSnoc(cfg, m, bytes, ch);
  }

  lemma FieldSnoc(cfg: Config, m: Machine, q: Parser, bytes: seq<Byte>, ch: Byte)
    requires q.state.HeaderField? && FieldHeaderState(q.headerState) && Token(cfg.strict, ch) != 0
    requires q.nread <= cfg.maxHeaderSize && Run(cfg, m, bytes) == Took(m, q, Field, bytes)
    ensures if q.nread < cfg.maxHeaderSize
            then Run(cfg, m, bytes + [ch]) == Took(m, FieldChar(cfg, q, ch).(nread := q.nread + 1), Field, bytes + [ch])
            else Overflowed(Run(cfg, m, bytes + [ch]))
  {
    hide Step, FieldChar, Token, FieldHeaderState, Span;
    RunSnoc(cfg, m, bytes, ch);
    if q.nread < cfg.maxHeaderSize {
      FieldStep(cfg, Took(m, q, Field, bytes), ch);
      TookMore(m, q, FieldChar(cfg, q, ch).(nread := q.nread + 1), Field, bytes, ch);
    } else {
      OverflowStep(cfg, Took(m, q, Field, bytes), ch);
    }
  }

  /** Taking a run of header-name characters, or overflowing the header limit within it. */
  lemma {:induction false} FieldBytes(cfg: Config, m: Machine, bytes: seq<Byte>)
    requires m.halt.Running? && m.p.state.HeaderField? && FieldHeaderState(m.p.headerState)
    requires AllTokens(cfg, bytes)
    requires m.p.nread <= cfg.maxHeaderSize
    ensures if m.p.nread + |bytes| <= cfg.maxHeaderSize
            then Run(cfg, m, bytes) == TookHeader(m, FieldChars(cfg, m.p, bytes), Field, bytes)
            else Overflowed(Run(cfg, m, bytes))
    ensures FieldChars(cfg, m.p, bytes).state.HeaderField? && FieldHeaderState(FieldChars(cfg, m.p, bytes).headerState)
    decreases |bytes|
  {
    hide Step, FieldChar, Token, Took, FieldHeaderState, Overflowed;
    TookNothing(m, Field);
    if bytes != [] {
      var front, ch := bytes[..|bytes| - 1], bytes[|bytes| - 1];
      assert front + [ch] == bytes;
      FieldBytes(cfg, m, front);
      var q := FieldChars(cfg, m.p, front);
      FieldCharCount(cfg, q, ch, m.p.nread + |front|);
      FieldCharKeeps(cfg, q, ch);
      if m.p.nread + |front| <= cfg.maxHeaderSize {
        FieldSnoc(cfg, m, q.(nread := m.p.nread + |front|), front, ch);
      } else {
        OverflowStays(cfg, m, front, ch);
      }
    }
  }

  lemma ValueSnoc(cfg: Config, m: Machine, q: Parser, bytes: seq<Byte>, ch: Byte)
    requires q.state.HeaderValue? && ch != CR && ch != LF && ValueChar(cfg, q, ch).Ok?
    requires q.nread <= cfg.maxHeaderSize && Run(cfg, m, bytes) == Took(m, q, Value, bytes)
    ensures if q.nread < cfg.maxHeaderSize
            then Run(cfg, m, bytes + [ch]) ==
                Took(m, ValueChar(cfg, q, ch).p.(nread := q.nread + 1), Value, bytes + [ch])
            else Overflowed(Run(cfg, m, bytes + [ch]))
  {
    hide Step, ValueChar, Span;
    RunSnoc(cfg, m, bytes, ch);
    if q.nread < cfg.maxHeaderSize {
      ValueStep(cfg, Took(m, q, Value, bytes), ch);
      TookMore(m, q, ValueChar(cfg, q, ch).p.(nread := q.nread + 1), Value, bytes, ch);
    } else {
      OverflowStep(cfg, Took(m, q, Value, bytes), ch);
    }
  }

  /** Taking a run of header-value characters, or overflowing the header limit within it. */
  lemma {:induction false} ValueBytes(cfg: Config, m: Machine, bytes: seq<Byte>)
    requires m.halt.Running? && m.p.state.HeaderValue?
    requires NoLineEnd(bytes) && ValueChars(cfg, m.p, bytes).Ok?
    requires m.p.nread <= cfg.maxHeaderSize
    ensures if m.p.nread + |bytes| <= cfg.maxHeaderSize
            then Run(cfg, m, bytes) == TookHeader(m, ValueChars(cfg, m.p, bytes).p, Value, bytes)
            else Overflowed(Run(cfg, m, bytes))
    ensures ValueChars(cfg, m.p, bytes).p.state.HeaderValue?
    decreases |bytes|
  {
    hide Step, ValueChar, Took, Overflowed;
    TookNothing(m, Value);
    if bytes != [] {
      var front, ch := bytes[..|bytes| - 1], bytes[|bytes| - 1];
      assert front + [ch] == bytes;
      ValueBytes(cfg, m, front);
      var q := ValueChars(cfg, m.p, front).p;
      ValueCharCount(cfg, q, ch, m.p.nread + |front|);
      if m.p.nread + |front| <= cfg.maxHeaderSize {
        ValueSnoc(cfg, m, q.(nread := m.p.nread + |front|), front, ch);
      } else {
        OverflowStays(cfg, m, front, ch);
      }
    }
  }

  // ---- Bodies -----------------------------------------------------------------------------------

  /** The parser after taking `n` bytes of a body. */
  function BodyTaken(p: Parser, n: nat): Parser {
    if p.state.BodyIdentityEof? then p
    else if n < p.contentLength then p.(contentLength := p.contentLength - n)
    else if p.state.ChunkData? then p.(contentLength := 0, state := if n == 0 then ChunkData else ChunkDataAlmostDone)
    else p
  }

  /** `n` body bytes can be taken without going round the switch. */
  predicate BodyRoom(p: Parser, n: nat) {
    || p.state.BodyIdentityEof?
    || (p.state.BodyIdentity? && n < p.contentLength < ULLONG_MAX)
    || (p.state.ChunkData? && n <= p.contentLength < ULLONG_MAX && p.contentLength > 0 && p.flags.chunked)
  }

  lemma BodyMoveInside(cfg: Config, p: Parser, ch: Byte)
    requires BodyRoom(p, 1)
    ensures Transition(cfg, p, ch) == Move(BodyTaken(p, 1), Put(Body), Consumed)
  {
  }

  lemma BodyStep(cfg: Config, m: Machine, ch: Byte)
    requires m.halt.Running? && BodyRoom(m.p, 1)
    ensures Step(cfg, m, ch) == Took(m, BodyTaken(m.p, 1), Body, [ch])
  {
    hide Emit, Drive, Transition;
    BodyMoveInside(cfg, m.p, ch);
    DriveOnce(cfg, m.p, m.trace, ch, Transition(cfg, m.p, ch));
  }

  lemma {:induction false} BodyBytes(cfg: Config, m: Machine, bytes: seq<Byte>)
    requires m.halt.Running? && BodyRoom(m.p, |bytes|)
    ensures Run(cfg, m, bytes) == Took(m, BodyTaken(m.p, |bytes|), Body, bytes)
    decreases |bytes|
  {
    hide Step, Took;
    TookNothing(m, Body);
    if bytes != [] {
      var front, ch := bytes[..|bytes| - 1], bytes[|bytes| - 1];
      assert front + [ch] == bytes;
      BodyBytes(cfg, m, front);
      TookFields(m, BodyTaken(m.p, |front|), Body, front);
      BodyStep(cfg, Run(cfg, m, front), ch);
      TookMore(m, BodyTaken(m.p, |front|), BodyTaken(m.p, |bytes|), Body, front, ch);
    }
  }

  lemma TookFields(m: Machine, q: Parser, k: DataKind, bytes: seq<Byte>)
    ensures Took(m, q, k, bytes).p == q && Took(m, q, k, bytes).halt.Running?
  {
  }

  // ---- The loops --------------------------------------------------------------------------------

  predicate TokensIn(cfg: Config, data: seq<Byte>, i: nat, j: nat)
    requires i <= j <= |data|
  {
    forall k :: i <= k < j ==> Token(cfg.strict, data[k]) != 0
  }

  /** The loop of s_header_field: `j` is the first position that holds no token character. */
  method FieldRun(cfg: Config, s0: Parser, data: seq<Byte>, i: nat) returns (s: Parser, j: nat)
    requires s0.state.HeaderField? && Inv(cfg, s0, 1) && i < |data| && cfg.maxHeaderSize > 0
    ensures i <= j <= |data|
    ensures TokensIn(cfg, data, i, j)
    ensures j < |data| ==> Token(cfg.strict, data[j]) == 0
    ensures s == FieldChars(cfg, s0, data[i..j])
    ensures Inv(cfg, s, 1) && s.state.HeaderField?
  {
    hide FieldChar, Token, Inv;
    s, j := s0, i;
    while j < |data| && Token(cfg.strict, data[j]) != 0
      invariant i <= j <= |data|
      invariant TokensIn(cfg, data, i, j)
      invariant s == FieldChars(cfg, s0, data[i..j])
      invariant Inv(cfg, s, 1) && s.state.HeaderField?
    {
      if s.headerState.General? {
        // the fast path: up to max_header_size bytes at once
        var left := |data| - j;
        var pe := j + if left < cfg.maxHeaderSize then left else cfg.maxHeaderSize;
        while j + 1 < pe && Token(cfg.strict, data[j + 1]) != 0
          invariant i <= j < pe <= |data|
          invariant TokensIn(cfg, data, i, j + 1)
          invariant s == FieldChars(cfg, s0, data[i..j])
          invariant s.headerState.General?
        {
          GeneralFieldChar(cfg, s, data[j]);
          FieldCharsSnoc(cfg, s0, data, i, j);
          j := j + 1;
        }
        GeneralFieldChar(cfg, s, data[j]);
        FieldCharsSnoc(cfg, s0, data, i, j);
      } else {
        FieldCharInv(cfg, s, data[j]);
        InvStep(cfg, FieldChar(cfg, s, data[j]));
        FieldCharsSnoc(cfg, s0, data, i, j);
        s := FieldChar(cfg, s, data[j]);
      }
      j := j + 1;
    }
  }

  lemma GeneralFieldChar(cfg: Config, p: Parser, ch: Byte)
    requires p.headerState.General?
    ensures FieldChar(cfg, p, ch) == p
  {
  }

  lemma InvStep(cfg: Config, p: Parser)
    requires Inv(cfg, p, 0) && !p.state.ChunkSizeStart?
    ensures Inv(cfg, p, 1)
  {
  }

  predicate PlainIn(data: seq<Byte>, i: nat, j: nat)
    requires i <= j <= |data|
  {
    forall k :: i <= k < j ==> data[k] != CR && data[k] != LF
  }

  /** How the loop of s_header_value ends: at a line end, at the end of the buffer, or with an error. */
  datatype ValueEnd = AtLineEnd | AtBufferEnd | Rejected(e: Errno)

  /** The characters data[i..j] are an acceptable part of a header value that starts as `s0`. */
  predicate GoodPart(cfg: Config, s0: Parser, data: seq<Byte>, i: nat, j: nat)
    requires i <= j <= |data|
  {
    PlainIn(data, i, j) && ValueChars(cfg, s0, data[i..j]).Ok?
  }

  lemma GoodPartMore(cfg: Config, s0: Parser, data: seq<Byte>, i: nat, j: nat)
    requires i <= j < |data| && GoodPart(cfg, s0, data, i, j) && data[j] != CR && data[j] != LF
    ensures ValueChars(cfg, s0, data[i..j + 1]) == ValueChar(cfg, ValueChars(cfg, s0, data[i..j]).p, data[j])
    ensures ValueChar(cfg, ValueChars(cfg, s0, data[i..j]).p, data[j]).Ok? ==> GoodPart(cfg, s0, data, i, j + 1)
  {
    hide ValueChar;
    ValueCharsSnoc(cfg, s0, data, i, j);
  }

  lemma GeneralValueChar(cfg: Config, p: Parser, ch: Byte)
    requires p.headerState.General?
    ensures ValueChar(cfg, p, ch) == if cfg.lenient || IsHeaderChar(ch) then Ok(p) else Bad(InvalidHeaderToken)
  {
  }

  /** A byte that the fast path for values goes over. */
  predicate Accepted(cfg: Config, ch: Byte) {
    ch != CR && ch != LF && (cfg.lenient || IsHeaderChar(ch))
  }

  /** The first position from `p` on, and before `pe`, that the fast path stops at. */
  function PlainEnd(cfg: Config, data: seq<Byte>, p: nat, pe: nat): (q: nat)
    requires p <= pe <= |data|
    ensures p <= q <= pe && (forall k :: p <= k < q ==> Accepted(cfg, data[k]))
    ensures q < pe ==> !Accepted(cfg, data[q])
    decreases pe - p
  {
    if p == pe || !Accepted(cfg, data[p]) then p else PlainEnd(cfg, data, p + 1, pe)
  }

  function PathEnd(cfg: Config, data: seq<Byte>, j: nat): (pe: nat)
    requires j < |data|
    ensures j <= pe <= |data| && (cfg.maxHeaderSize > 0 ==> j < pe) && (pe < |data| ==> pe == j + cfg.maxHeaderSize)
  {
    j + if |data| - j < cfg.maxHeaderSize then |data| - j else cfg.maxHeaderSize
  }

  /** How far the loop of s_header_value went, the parser it left, and how far it had really looked. */
  datatype Scan = Scan(s: Parser, stop: nat, clean: nat)

  /**
   The loop of s_header_value from position `j` on. Its fast path for headers the parser does not
   interpret stops after max_header_size bytes, and the byte it stops at is then stepped over without
   being looked at. `clean` is how far the loop had really looked by then.
   */
  function ValueScan(cfg: Config, s: Parser, data: seq<Byte>, j: nat, clean: nat): (r: Scan)
    requires j <= |data| && cfg.maxHeaderSize > 0
    ensures j <= r.stop <= |data|
    ensures r.stop < |data| ==> data[r.stop] == CR || data[r.stop] == LF || !ValueChar(cfg, r.s, data[r.stop]).Ok?
    decreases |data| - j
  {
    if j == |data| || data[j] == CR || data[j] == LF || !ValueChar(cfg, s, data[j]).Ok? then Scan(s, j, clean)
    else if s.headerState.General? then
      GeneralValueChar(cfg, s, data[j]);
      var pe := PathEnd(cfg, data, j);
      var q := PlainEnd(cfg, data, j, pe);
      ValueScan(cfg, s, data, if q == pe < |data| then q + 1 else q, if clean == j then q else clean)
    else
      ValueScan(cfg, ValueChar(cfg, s, data[j]).p, data, j + 1, if clean == j then j + 1 else clean)
  }

  /** The loop has come from `i` to `j` with `s`; where it stepped over a byte, the limit was exceeded. */
  predicate Scanned(cfg: Config, s0: Parser, data: seq<Byte>, i: nat, r: Scan) {
    && i <= r.clean <= r.stop <= |data| && GoodPart(cfg, s0, data, i, r.clean)
    && (r.clean < r.stop ==> r.clean - i >= cfg.maxHeaderSize)
    && (r.clean == r.stop ==> ValueChars(cfg, s0, data[i..r.stop]) == Ok(r.s))
  }

  lemma {:induction false} PlainScanned(cfg: Config, s0: Parser, s: Parser, data: seq<Byte>, i: nat, j: nat, q: nat)
    requires Scanned(cfg, s0, data, i, Scan(s, j, j)) && s.headerState.General? && j <= q <= |data|
    requires forall k :: j <= k < q ==> Accepted(cfg, data[k])
    ensures Scanned(cfg, s0, data, i, Scan(s, q, q))
    decreases q - j
  {
    hide ValueChar, ValueChars, IsHeaderChar;
    if j < q {
      GeneralValueChar(cfg, s, data[j]);
      GoodPartMore(cfg, s0, data, i, j);
      PlainScanned(cfg, s0, s, data, i, j + 1, q);
    }
  }

  lemma {:induction false} ScanScanned(cfg: Config, s0: Parser, data: seq<Byte>, i: nat, s: Parser, j: nat, clean: nat)
    requires cfg.maxHeaderSize > 0 && Scanned(cfg, s0, data, i, Scan(s, j, clean))
    ensures Scanned(cfg, s0, data, i, ValueScan(cfg, s, data, j, clean))
    decreases |data| - j
  {
    hide ValueChar, ValueChars, IsHeaderChar, GoodPart, PathEnd, ValueScan;
    if j < |data| {
      ScanStep(cfg, s, data, j, clean);
    } else {
      ScanEnd(cfg, s, data, clean);
    }
    if !(j == |data| || data[j] == CR || data[j] == LF || !ValueChar(cfg, s, data[j]).Ok?) {
      if s.headerState.General? {
        GeneralValueChar(cfg, s, data[j]);
        var pe := PathEnd(cfg, data, j);
        var q := PlainEnd(cfg, data, j, pe);
        if clean == j {
          PlainScanned(cfg, s0, s, data, i, j, q);
        }
        ScanScanned(cfg, s0, data, i, s, if q == pe < |data| then q + 1 else q, if clean == j then q else clean);
      } else {
        if clean == j {
          GoodPartMore(cfg, s0, data, i, j);
        }
        ScanScanned(cfg, s0, data, i, ValueChar(cfg, s, data[j]).p, j + 1, if clean == j then j + 1 else clean);
      }
    }
  }

  lemma ScanFromStart(cfg: Config, s: Parser, data: seq<Byte>, i: nat)
    requires i <= |data| && cfg.maxHeaderSize > 0
    ensures Scanned(cfg, s, data, i, ValueScan(cfg, s, data, i, i))
  {
    assert data[i..i] == [];
    ScanScanned(cfg, s, data, i, s, i, i);
  }

  /** The loop of s_header_value. */
  method ValueRun(cfg: Config, s0: Parser, data: seq<Byte>, i: nat)
    returns (s: Parser, j: nat, end: ValueEnd, ghost clean: nat)
    requires s0.state.HeaderValue? && Inv(cfg, s0, 1) && i < |data| && cfg.maxHeaderSize > 0
    ensures Scan(s, j, clean) == ValueScan(cfg, s0, data, i, i) && Scanned(cfg, s0, data, i, Scan(s, j, clean))
    ensures Inv(cfg, s, 1) && s.state.HeaderValue?
    ensures end.AtBufferEnd? <==> j == |data|
    ensures end.AtLineEnd? ==> data[j] == CR || data[j] == LF
    ensures end.Rejected? ==> !end.e.OK? && data[j] != CR && data[j] != LF && ValueChar(cfg, s, data[j]) == Bad(end.e)
  {
    hide ValueChar, Inv, IsHeaderChar, Scanned, ValueScan, PathEnd, PlainEnd;
    s, j, clean := s0, i, i;
    ScanFromStart(cfg, s0, data, i);
    while j < |data|
      invariant i <= j <= |data| && ValueScan(cfg, s, data, j, clean) == ValueScan(cfg, s0, data, i, i)
      invariant Inv(cfg, s, 1) && s.state.HeaderValue?
    {
      ScanStep(cfg, s, data, j, clean);
      if data[j] == CR || data[j] == LF {
        end := AtLineEnd;
        return;
      }
      ValueCharInv(cfg, s, data[j]);
      var r := ValueChar(cfg, s, data[j]);
      if r.Bad? {
        end := Rejected(r.e);
        return;
      }
      if s.headerState.General? {
        GeneralValueChar(cfg, s, data[j]);
        var bad: bool;
        ghost var q;
        ghost var j0 := j;
        j, bad, q := GeneralRun(cfg, data, j);
        clean := if clean == j0 then q else clean;
        if bad {
          ScanStep(cfg, s, data, j, clean);
          GeneralValueChar(cfg, s, data[j]);
          end := Rejected(InvalidHeaderToken);
          return;
        }
      } else {
        InvStep(cfg, r.p);
        s := r.p;
        clean := if clean == j then j + 1 else clean;
        j := j + 1;
      }
    }
    ScanEnd(cfg, s, data, clean);
    end := AtBufferEnd;
  }

  /** One turn of the loop over a value. */
  lemma ScanStep(cfg: Config, s: Parser, data: seq<Byte>, j: nat, clean: nat)
    requires j < |data| && cfg.maxHeaderSize > 0
    ensures ValueScan(cfg, s, data, j, clean) ==
              if data[j] == CR || data[j] == LF || !ValueChar(cfg, s, data[j]).Ok? then Scan(s, j, clean)
              else if s.headerState.General? then
                var pe := PathEnd(cfg, data, j);
                var q := PlainEnd(cfg, data, j, pe);
                ValueScan(cfg, s, data, if q == pe < |data| then q + 1 else q, if clean == j then q else clean)
              else ValueScan(cfg, ValueChar(cfg, s, data[j]).p, data, j + 1, if clean == j then j + 1 else clean)
  {
    hide ValueChar, PathEnd, PlainEnd;
  }

  lemma ScanEnd(cfg: Config, s: Parser, data: seq<Byte>, clean: nat)
    requires cfg.maxHeaderSize > 0
    ensures ValueScan(cfg, s, data, |data|, clean) == Scan(s, |data|, clean)
  {
  }

  /**
   The fast path of s_header_value for headers the parser does not interpret. It goes over accepted bytes
   up to `q`, where a line end, a bad byte, the end of the buffer or the limit stops it; at the limit the
   loop increment of the source steps over one byte more.
   */
  method GeneralRun(cfg: Config, data: seq<Byte>, i: nat) returns (j: nat, bad: bool, ghost q: nat)
    requires i < |data| && cfg.maxHeaderSize > 0 && Accepted(cfg, data[i])
    ensures q == PlainEnd(cfg, data, i, PathEnd(cfg, data, i)) && i < q
    ensures q < PathEnd(cfg, data, i) ==> j == q && (bad <==> data[q] != CR && data[q] != LF)
    ensures q == PathEnd(cfg, data, i) ==> !bad && j == if q < |data| then q + 1 else q
  {
    hide IsHeaderChar;
    var left := |data| - i;
    var pe := i + if left < cfg.maxHeaderSize then left else cfg.maxHeaderSize;
    var p := i;
    while p != pe && data[p] != CR && data[p] != LF
      invariant i <= p <= pe && PlainEnd(cfg, data, i, pe) == PlainEnd(cfg, data, p, pe)
    {
      if !cfg.lenient && !IsHeaderChar(data[p]) {
        return p, true, p;
      }
      p := p + 1;
    }
    j, bad, q := if p != pe || p == |data| then p else p + 1, false, p;
  }

  // ---- Counting a run ---------------------------------------------------------------------------

  /** The first position from `i` on that holds no token character. */
  function NameStop(cfg: Config, data: seq<Byte>, i: nat): (j: nat)
    requires i <= |data|
    ensures i <= j <= |data| && TokensIn(cfg, data, i, j)
    ensures j < |data| ==> Token(cfg.strict, data[j]) == 0
    decreases |data| - i
  {
    if i == |data| || Token(cfg.strict, data[i]) == 0 then i else NameStop(cfg, data, i + 1)
  }

  lemma NameStopIs(cfg: Config, data: seq<Byte>, i: nat, j: nat)
    requires i <= j <= |data| && TokensIn(cfg, data, i, j)
    requires j < |data| ==> Token(cfg.strict, data[j]) == 0
    ensures j == NameStop(cfg, data, i)
  {
    hide Token;
  }

  /** The bytes the source counts for a run that begins at `i` and stops at `j`, with the byte it stops at. */
  function CountedBytes(data: seq<Byte>, i: nat, j: nat): nat
    requires i <= j <= |data|
  {
    if j == |data| then j - i else j + 1 - i
  }

  /** Where the loop over a value goes does not depend on the counter. */
  lemma {:induction false} ScanCount(cfg: Config, p: Parser, data: seq<Byte>, j: nat, clean: nat, n: nat)
    requires j <= |data| && cfg.maxHeaderSize > 0
    ensures ValueScan(cfg, p.(nread := n), data, j, clean).stop == ValueScan(cfg, p, data, j, clean).stop
    decreases |data| - j
  {
    hide ValueChar, PlainEnd, PathEnd;
    if j < |data| {
      ValueCharCount(cfg, p, data[j], n);
      if ValueChar(cfg, p, data[j]).Ok? {
        if p.headerState.General? {
          GeneralValueChar(cfg, p, data[j]);
          var pe := PathEnd(cfg, data, j);
          var q := PlainEnd(cfg, data, j, pe);
          if q > j {
            ScanCount(cfg, p, data, if q == pe < |data| then q + 1 else q, if clean == j then q else clean, n);
          }
        } else {
          ScanCount(cfg, ValueChar(cfg, p, data[j]).p, data, j + 1, if clean == j then j + 1 else clean, n);
        }
      }
    }
  }

  /** The number of bytes a turn counts, in the state of `p` and at position `i`. */
  function RunBytes(cfg: Config, p: Parser, data: seq<Byte>, i: nat): (n: nat)
    requires i < |data| && cfg.maxHeaderSize > 0
    ensures 0 < n <= |data| - i
  {
    if p.state.HeaderField? then CountedBytes(data, i, NameStop(cfg, data, i))
    else if p.state.HeaderValue? then CountedBytes(data, i, ValueScan(cfg, p, data, i, i).stop)
    else 1
  }

  /** A 32-bit counter that should be at `total` is over the limit exactly when `total` is. */
  predicate CountTells(cfg: Config, total: nat) {
    total <= cfg.maxHeaderSize || total % UINT32_SIZE > cfg.maxHeaderSize
  }

  /** The header limit is checked rightly for the turn at position `i`: after its first byte and at its end. */
  predicate CountsRight(cfg: Config, p: Parser, data: seq<Byte>, i: nat)
    requires i < |data|
  {
    ParsingHeader(p.state) ==>
      && CountTells(cfg, p.nread + 1)
      && (p.nread < cfg.maxHeaderSize ==> CountTells(cfg, p.nread + RunBytes(cfg, p, data, i)))
  }
}
