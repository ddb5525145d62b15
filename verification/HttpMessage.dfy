/**
 Whole messages, written from their parts and read: the record holds what the head says, and the body is what was sent,
 however the bytes were cut.
 */
module HttpMessage {
  import opened HttpTypes
  import opened HttpStep
  import opened HttpRun
  import opened HttpInvariant
  import opened HttpMarks
  import opened HttpBulk
  import opened HttpParser
  import HttpChunked
  import HttpLoop
  import opened HttpHead
  import opened HttpStartLine

  // ---- What header lines say --------------------------------------------------------------------

  predicate NamesConnection(l: Line) {
    Reads(l.name, "connection") || Reads(l.name, "proxy-connection")
  }

  /** A line of a kind the parser knows, with a value that is simple, or one it does not care about. */
  predicate Understood(l: Line) {
    && WellFormed(l)
    && if Reads(l.name, "content-length") then AllDigits(l.value) && Number(l.value) < LENGTH_LIMIT
       else if Reads(l.name, "transfer-encoding") then Reads(l.value, "chunked")
       else if NamesConnection(l) then Reads(l.value, "close") || Reads(l.value, "keep-alive")
       else Unrelated(l.name) && Visible(l.value)
  }

  /** What a line says of its message. */
  function Noted(p: Parser, l: Line): Parser {
    if Reads(l.name, "content-length") then
      p.(flags := p.flags.(contentLength := true), contentLength := Number(l.value))
    else if Reads(l.name, "transfer-encoding") then p.(usesTransferEncoding := true, flags := p.flags.(chunked := true))
    else if NamesConnection(l) then
      p.(flags := if Reads(l.value, "close") then p.flags.(close := true) else p.flags.(keepAlive := true))
    else p
  }

  function NotedAll(p: Parser, ls: seq<Line>): Parser
    decreases |ls|
  {
    if ls == [] then p else NotedAll(Noted(p, ls[0]), ls[1..])
  }

  function Lengths(ls: seq<Line>): nat {
    if ls == [] then 0 else (if Reads(ls[0].name, "content-length") then 1 else 0) + Lengths(ls[1..])
  }

  /** Lines the parser understands, with at most one length. */
  predicate AllUnderstood(ls: seq<Line>) {
    (forall l <- ls :: Understood(l)) && Lengths(ls) <= 1
  }

  function LinesBytes(ls: seq<Line>): seq<Byte> {
    if ls == [] then [] else Bytes(ls[0]) + LinesBytes(ls[1..])
  }

  function LinesEvents(ls: seq<Line>): Trace {
    if ls == [] then [] else LineEvents(ls[0]) + LinesEvents(ls[1..])
  }

  // ---- Between lines ----------------------------------------------------------------------------

  /** What the first byte of the next line, or of the empty one, settles about the line before. */
  function Settled(p: Parser): Parser {
    if p.state.HeaderValueLws? then p.(flags := Finished(p.flags, p.headerState), state := HeaderFieldStart) else p
  }

  lemma LineEnds(cfg: Config, p: Parser, ch: Byte)
    requires p.state.HeaderValueLws? && ch != SP && ch != HTAB
    ensures Transition(cfg, p, ch) == Move(Settled(p), Nothing, Again)
  {
  }

  lemma HandedOn(cfg: Config, p: Parser, tr: Trace, ch: Byte)
    requires Transition(cfg, p, ch).next.Again?
    ensures var mv := Transition(cfg, p, ch); Drive(cfg, p, tr, ch) == Drive(cfg, mv.p, Effect(mv.action, ch, tr), ch)
  {
    hide Transition, Effect;
    RankDecreases(cfg, p, ch);
  }

  lemma SettledStep(cfg: Config, m: Machine, ch: Byte)
    requires m.halt.Running? && ch != SP && ch != HTAB && m.p.nread < cfg.maxHeaderSize
    ensures Step(cfg, m, ch) == Step(cfg, m.(p := Settled(m.p)), ch)
  {
    hide Transition, Finished, Drive;
    if m.p.state.HeaderValueLws? {
      LineEnds(cfg, Count(m.p), ch);
      HandedOn(cfg, Count(m.p), m.trace, ch);
    }
  }

  lemma SettledRun(cfg: Config, m: Machine, bytes: seq<Byte>)
    requires m.halt.Running? && bytes != [] && bytes[0] != SP && bytes[0] != HTAB && m.p.nread < cfg.maxHeaderSize
    ensures Run(cfg, m, bytes) == Run(cfg, m.(p := Settled(m.p)), bytes)
  {
    hide Step, Settled, Run;
    var m' := m.(p := Settled(m.p));
    var first, rest := [bytes[0]], bytes[1..];
    assert first + rest == bytes && [] + first == first;
    SettledStep(cfg, m, bytes[0]);
    NothingRun(cfg, m);
    NothingRun(cfg, m');
    RunSnoc(cfg, m, [], bytes[0]);
    RunSnoc(cfg, m', [], bytes[0]);
    RunConcat(cfg, m, first, rest);
    RunConcat(cfg, m', first, rest);
  }

  /** `p` is `q` but for what only matters inside lines. */
  predicate SameRecord(p: Parser, q: Parser) {
    p == q.(index := p.index, headerState := p.headerState, nread := p.nread)
  }

  /** A line is behind the machine, and the parser is about to note what it says. */
  predicate LineTaken(m: Machine, l: Line, p: Parser, r: Machine) {
    && r == Machine(r.p, m.trace + LineEvents(l), Running, m.consumed + |Bytes(l)|)
    && r.p.state.HeaderValueLws? && r.p.nread == m.p.nread + |Bytes(l)|
    && SameRecord(Settled(r.p), p)
  }

  lemma BehindTaken(m: Machine, l: Line, p: Parser, r: Machine)
    requires BehindLine(m, l, p, r) && p.state.HeaderFieldStart?
    ensures LineTaken(m, l, p.(flags := Finished(p.flags, r.p.headerState)), r)
  {
    hide Finished, Bytes, LineEvents;
  }

  lemma WordNoted(cfg: Config, m: Machine, l: Line)
    requires LineMayCome(cfg, m, l) && Understood(l) && !Reads(l.name, "content-length")
    requires Reads(l.name, "transfer-encoding") || NamesConnection(l)
    ensures LineTaken(m, l, Noted(m.p, l), Run(cfg, m, Bytes(l)))
  {
    hide Run, WellFormed, NotAtEnd, Reads, Bytes, LineTaken, BehindLine;
    var r := Run(cfg, m, Bytes(l));
    if Reads(l.name, "transfer-encoding") {
      WordLine(cfg, m, l, MatchingTeChunked, "chunked", TeChunked);
      BehindTaken(m, l, m.p.(usesTransferEncoding := true), r);
    } else {
      if Reads(l.value, "close") {
        WordLine(cfg, m, l, MatchingConnClose, "close", ConnClose);
      } else {
        WordLine(cfg, m, l, MatchingConnKeepAlive, "keep-alive", ConnKeepAlive);
      }
      BehindTaken(m, l, m.p, r);
    }
  }

  /** One line is read, and what it says is noted. */
  lemma LineNoted(cfg: Config, m: Machine, l: Line)
    requires LineMayCome(cfg, m, l) && Understood(l)
    requires Reads(l.name, "content-length") ==> !m.p.flags.contentLength
    ensures LineTaken(m, l, Noted(m.p, l), Run(cfg, m, Bytes(l)))
  {
    hide Run, WellFormed, NotAtEnd, Reads, Bytes, LineTaken, BehindLine, Unrelated, Visible, AllDigits, Number;
    var r := Run(cfg, m, Bytes(l));
    if Reads(l.name, "content-length") {
      LengthLine(cfg, m, l);
      BehindTaken(m, l, Noted(m.p, l), r);
    } else if Reads(l.name, "transfer-encoding") || NamesConnection(l) {
      WordNoted(cfg, m, l);
    } else {
      UnrelatedLine(cfg, m, l);
      BehindTaken(m, l, m.p, r);
    }
  }

  // ---- All the lines ----------------------------------------------------------------------------

  lemma NotedAlike(p: Parser, q: Parser, l: Line)
    requires SameRecord(p, q)
    ensures SameRecord(Noted(p, l), Noted(q, l))
  {
    hide Reads, Number, NamesConnection;
    if Reads(l.name, "content-length") {
    } else if Reads(l.name, "transfer-encoding") {
    } else if NamesConnection(l) {
      assert p.flags == q.flags;
    }
  }

  lemma LengthNoted(p: Parser, l: Line)
    ensures Noted(p, l).flags.contentLength <==> p.flags.contentLength || Reads(l.name, "content-length")
  {
    hide Reads, Number, NamesConnection;
    if Reads(l.name, "content-length") {
    } else if Reads(l.name, "transfer-encoding") {
    } else if NamesConnection(l) {
    }
  }

  lemma {:induction false} AllNotedAlike(p: Parser, q: Parser, ls: seq<Line>)
    requires SameRecord(p, q)
    ensures SameRecord(NotedAll(p, ls), NotedAll(q, ls))
    decreases |ls|
  {
    hide Noted, SameRecord;
    if ls != [] {
      NotedAlike(p, q, ls[0]);
      AllNotedAlike(Noted(p, ls[0]), Noted(q, ls[0]), ls[1..]);
    }
  }

  lemma SameAs(p: Parser, q: Parser, r: Parser)
    requires SameRecord(p, q) && SameRecord(q, r)
    ensures SameRecord(p, r)
  {
  }

  /** The lines are behind the machine. */
  predicate LinesTaken(m: Machine, ls: seq<Line>, r: Machine) {
    && r == Machine(r.p, m.trace + LinesEvents(ls), Running, m.consumed + |LinesBytes(ls)|)
    && r.p.nread == m.p.nread + |LinesBytes(ls)|
    && (r.p.state.HeaderValueLws? || r.p.state.HeaderFieldStart?)
    && SameRecord(Settled(r.p), NotedAll(m.p, ls))
  }

  /** Lines may come: the parser is in front of a line, and one length at most is or will be there. */
  predicate LinesMayCome(cfg: Config, m: Machine, ls: seq<Line>) {
    && m.halt.Running? && m.p.state.HeaderFieldStart? && NotAtEnd(m.trace, Field)
    && (forall l <- ls :: Understood(l)) && Lengths(ls) + (if m.p.flags.contentLength then 1 else 0) <= 1
    && m.p.nread + |LinesBytes(ls)| <= cfg.maxHeaderSize
  }

  lemma NoLines(m: Machine)
    requires m.halt.Running? && m.p.state.HeaderFieldStart?
    ensures LinesTaken(m, [], m)
  {
    assert m.trace + [] == m.trace;
  }

  lemma FirstLine(cfg: Config, m: Machine, ls: seq<Line>)
    requires LinesMayCome(cfg, m, ls) && ls != []
    ensures LineMayCome(cfg, m, ls[0]) && Understood(ls[0])
    ensures Reads(ls[0].name, "content-length") ==> !m.p.flags.contentLength
    ensures Bytes(ls[0]) != [] && Bytes(ls[0])[0] != SP && Bytes(ls[0])[0] != HTAB
  {
    hide Reads, Unrelated, Visible, AllDigits;
    assert ls[0] in ls;
    TokenIs(true, ls[0].name[0]);
    HtabIsNone();
    assert Bytes(ls[0])[0] == ls[0].name[0];
  }

  lemma HtabIsNone()
    ensures !TokenChar(HTAB) && !TokenChar(SP)
  {
  }

  lemma OtherLines(cfg: Config, m: Machine, ls: seq<Line>, r: Machine)
    requires LinesMayCome(cfg, m, ls) && ls != [] && LineTaken(m, ls[0], Noted(m.p, ls[0]), r)
    ensures LinesMayCome(cfg, r.(p := Settled(r.p)), ls[1..])
  {
    hide Reads, Understood, Noted, Bytes, Finished;
    var last := LineEvents(ls[0])[1];
    assert r.trace[|r.trace| - 1] == last;
    assert forall l <- ls[1..] :: l in ls;
    LengthNoted(m.p, ls[0]);
    NotedKeepsState(m.p, ls[0]);
  }

  lemma NotedKeepsState(p: Parser, l: Line)
    ensures Noted(p, l).state == p.state
  {
    hide Reads, Number;
  }

  lemma TwoTaken(m: Machine, ls: seq<Line>, r: Machine, r': Machine)
    requires ls != [] && LineTaken(m, ls[0], Noted(m.p, ls[0]), r)
    requires LinesTaken(r.(p := Settled(r.p)), ls[1..], r')
    ensures LinesTaken(m, ls, r')
  {
    hide Noted, Bytes, LineEvents, SameRecord, Settled;
    AllNotedAlike(Settled(r.p), Noted(m.p, ls[0]), ls[1..]);
    SameAs(Settled(r'.p), NotedAll(Settled(r.p), ls[1..]), NotedAll(m.p, ls));
    SettledCount(r.p);
    assert m.trace + LineEvents(ls[0]) + LinesEvents(ls[1..]) == m.trace + LinesEvents(ls);
  }

  lemma SettledCount(p: Parser)
    ensures Settled(p).nread == p.nread
  {
  }

  /** All the lines are read, and what they say is noted. */
  lemma {:induction false} LinesRead(cfg: Config, m: Machine, ls: seq<Line>)
    requires LinesMayCome(cfg, m, ls)
    ensures LinesTaken(m, ls, Run(cfg, m, LinesBytes(ls)))
    decreases |ls|
  {
    hide Run, LinesMayCome, LinesTaken, LineTaken, LineMayCome, Understood, Noted, Bytes, Settled, Reads;
    if ls == [] {
      NothingRun(cfg, m);
      LinesBegin(cfg, m, ls);
      NoLines(m);
    } else {
      FirstLine(cfg, m, ls);
      LineNoted(cfg, m, ls[0]);
      var r := Run(cfg, m, Bytes(ls[0]));
      RunConcat(cfg, m, Bytes(ls[0]), LinesBytes(ls[1..]));
      OtherLines(cfg, m, ls, r);
      LinesRead(cfg, r.(p := Settled(r.p)), ls[1..]);
      LinesGoOn(cfg, m, ls, r);
      TwoTaken(m, ls, r, Run(cfg, r, LinesBytes(ls[1..])));
    }
  }

  lemma LinesBegin(cfg: Config, m: Machine, ls: seq<Line>)
    requires LinesMayCome(cfg, m, ls)
    ensures m.halt.Running? && m.p.state.HeaderFieldStart?
  {
  }

  /** The lines behind the first. */
  lemma LinesGoOn(cfg: Config, m: Machine, ls: seq<Line>, r: Machine)
    requires LinesMayCome(cfg, m, ls) && ls != [] && LineTaken(m, ls[0], Noted(m.p, ls[0]), r)
    requires LinesMayCome(cfg, r.(p := Settled(r.p)), ls[1..])
    requires LinesTaken(r.(p := Settled(r.p)), ls[1..], Run(cfg, r.(p := Settled(r.p)), LinesBytes(ls[1..])))
    ensures LinesTaken(r.(p := Settled(r.p)), ls[1..], Run(cfg, r, LinesBytes(ls[1..])))
  {
    hide Run, LinesTaken, Understood, Noted, Bytes, Reads;
    var s, rest := r.(p := Settled(r.p)), ls[1..];
    if rest == [] {
      NothingRun(cfg, r);
      NothingRun(cfg, s);
      TakenUnsettled(m, ls[0], Noted(m.p, ls[0]), r);
    } else {
      FirstLine(cfg, s, rest);
      SettledCount(r.p);
      assert LinesBytes(rest)[0] == Bytes(rest[0])[0];
      SettledRun(cfg, r, LinesBytes(rest));
    }
  }

  lemma TakenUnsettled(m: Machine, l: Line, p: Parser, r: Machine)
    requires LineTaken(m, l, p, r)
    ensures LinesTaken(r.(p := Settled(r.p)), [], r)
  {
    hide Finished;
    assert r.trace + [] == r.trace;
  }

  // ---- The empty line ---------------------------------------------------------------------------

  /** The application has the parser go on after every head. */
  ghost predicate AlwaysContinues(cfg: Config) {
    forall h :: cfg.onHeadersComplete(h) == Continue
  }

  /** Nothing in the head makes the parser leave or refuse the message. */
  predicate Ordinary(p: Parser) {
    !p.flags.trailing && !p.flags.upgrade && !p.method_.CONNECT? && !(p.usesTransferEncoding && p.flags.contentLength)
  }

  lemma HeadEnds(cfg: Config, p: Parser)
    requires AlwaysContinues(cfg)
    ensures p.state.HeaderFieldStart? ==> Transition(cfg, p, CR) == Take(p.(state := HeadersAlmostDone))
    ensures p.state.HeadersAlmostDone? && Ordinary(p) ==>
              Transition(cfg, p, LF) == Move(p.(state := HeadersDone, upgrade := false), Notify(HeadersComplete), Again)
    ensures p.state.HeadersDone? ==> Transition(cfg, p, LF) == HeadersDoneMove(cfg, p, LF)
  {
    hide HeadersDoneMove, Token;
  }

  /** The parser when the head has been reported. */
  function HeadDone(p: Parser): Parser {
    p.(state := HeadersDone, upgrade := false, nread := p.nread + 2)
  }

  lemma EmptyLineRead(cfg: Config, m: Machine)
    requires m.halt.Running? && m.p.state.HeaderFieldStart? && Ordinary(m.p) && AlwaysContinues(cfg)
    requires m.p.nread + 2 <= cfg.maxHeaderSize && HeadersDoneMove(cfg, HeadDone(m.p), LF).next.Consumed?
    ensures var mv := HeadersDoneMove(cfg, HeadDone(m.p), LF);
            Run(cfg, m, [CR] + [LF]) ==
              Machine(mv.p, Effect(mv.action, LF, Emit(m.trace, HeadersComplete)), Running, m.consumed + 2)
  {
    hide Run, Transition, HeadersDoneMove, Effect, AlwaysContinues;
    var p1 := m.p.(nread := m.p.nread + 1);
    HeadEnds(cfg, p1);
    NothingRun(cfg, m);
    Quiet(cfg, m, [], m, CR, p1.(state := HeadersAlmostDone));
    assert [] + [CR] == [CR];
    var m1 := Run(cfg, m, [CR]);
    var p2 := m1.p.(nread := m1.p.nread + 1);
    HeadEnds(cfg, p2);
    HeadEnds(cfg, HeadDone(m.p));
    OnwardTwice(cfg, m, [CR], m1, LF, Transition(cfg, p2, LF), Transition(cfg, HeadDone(m.p), LF));
    HeadersCompleteSent(m.trace);
  }

  lemma HeadersCompleteSent(tr: Trace)
    ensures Effect(Notify(HeadersComplete), LF, tr) == Emit(tr, HeadersComplete)
  {
  }

  /** Responses with these codes have no body, nor has a request that announces none. */
  predicate Bodiless(p: Parser) {
    p.kind.Request? || p.statusCode / 100 == 1 || p.statusCode == 204 || p.statusCode == 304
  }

  /** What comes after the head, by what the head has said. */
  lemma BodyFollows(cfg: Config, p: Parser)
    requires Ordinary(p) && !p.flags.skipBody
    ensures var q, mv := HeadDone(p).(nread := 0), HeadersDoneMove(cfg, HeadDone(p), LF);
            && (p.flags.chunked ==> mv == Take(q.(state := ChunkSizeStart)))
            && (!p.flags.chunked && !p.usesTransferEncoding && 0 < p.contentLength < ULLONG_MAX ==>
                  mv == Take(q.(state := BodyIdentity)))
            && (!p.flags.chunked && !p.usesTransferEncoding &&
                (p.contentLength == 0 || (p.contentLength == ULLONG_MAX && Bodiless(p))) ==>
                  mv == CompleteMessage(cfg, q, false))
  {
  }

  // ---- Bodies of a given length -----------------------------------------------------------------

  /** The parser after a message. */
  function MessageOver(cfg: Config, p: Parser): Parser {
    var q := p.(state := MessageDone, contentLength := 0);
    q.(state := NewMessage(cfg, q))
  }

  lemma LastDrive(cfg: Config, p: Parser, tr: Trace, ch: Byte)
    requires p.state.MessageDone? && !p.upgrade
    ensures Drive(cfg, p, tr, ch) == Outcome(p.(state := NewMessage(cfg, p)), tr + [MessageComplete], Consumed)
  {
    hide Transition, NewMessage;
    HttpChunked.MessageEnds(cfg, p, ch);
    DriveOnce(cfg, p, tr, ch, CompleteMessage(cfg, p, false));
  }

  /** A body of as many bytes as were announced ends the message, and all of it is reported. */
  lemma IdentityRead(cfg: Config, m: Machine, body: seq<Byte>)
    requires m.halt.Running? && m.p.state.BodyIdentity? && !m.p.upgrade && NotAtEnd(m.trace, Body)
    requires 0 < |body| == m.p.contentLength < ULLONG_MAX
    ensures Run(cfg, m, body) ==
            Machine(MessageOver(cfg, m.p), m.trace + [Data(Body, body)] + [MessageComplete], Running,
                    m.consumed + |body|)
  {
    hide Run, Step, Drive, NewMessage, Span, Emit;
    var last := |body| - 1;
    var front, ch := body[..last], body[last];
    assert front + [ch] == body;
    BodyBytes(cfg, m, front);
    var m1 := Run(cfg, m, front);
    RunSnoc(cfg, m, front, ch);
    HttpLoop.LastBodyStep(cfg, m1, ch);
    var q := m1.p.(contentLength := 0, state := MessageDone);
    SpanSpan(m.trace, Body, front, [ch]);
    SpanAtEnd(m.trace, Body, body);
    LastDrive(cfg, q, Span(m1.trace, Body, [ch]), ch);
  }

  // ---- Whole messages ---------------------------------------------------------------------------

  datatype First =
    | Asks(method_: Method, url: seq<Byte>, major: nat, minor: nat)
    | Answers(major: nat, minor: nat, code: nat, reason: seq<Byte>)

  /** A first line a parser of this kind is made for. */
  predicate Suits(t: HttpType, f: First) {
    && f.major < 10 && f.minor < 10
    && match f
       case Asks(m, url, _, _) => !t.Response? && !m.CONNECT? && Target(url)
       case Answers(_, _, code, reason) => !t.Request? && code < 1000 && NoLineEnd(reason)
  }

  function FirstBytes(t: HttpType, f: First): seq<Byte>
    requires Suits(t, f)
  {
    match f
    case Asks(m, url, major, minor) => RequestLine(m, url, major, minor)
    case Answers(major, minor, code, reason) => StatusLine(major, minor, code, reason)
  }

  function FirstEvent(f: First): Event {
    match f
    case Asks(_, url, _, _) => Data(Url, url)
    case Answers(_, _, _, reason) => Data(Status, reason)
  }

  /** What the first line says. */
  function FirstNoted(t: HttpType, f: First): Parser {
    var p := Init(t).(state := HeaderFieldStart, contentLength := ULLONG_MAX, httpMajor := f.major,
                      httpMinor := f.minor);
    match f
    case Asks(m, _, _, _) => p.(kind := Request, method_ := m)
    case Answers(_, _, code, _) => p.(kind := Response, statusCode := code)
  }

  datatype Content = Empty | Identity(bytes: seq<Byte>) | Chunks(chunks: seq<HttpChunked.Chunk>)

  function ContentBytes(b: Content): seq<Byte> {
    match b
    case Empty => []
    case Identity(bytes) => bytes
    case Chunks(chunks) => HttpChunked.EncodeBody(chunks)
  }

  function ContentEvents(b: Content): Trace {
    match b
    case Empty => []
    case Identity(bytes) => if bytes == [] then [] else [Data(Body, bytes)]
    case Chunks(chunks) => HttpChunked.ChunkEvents(chunks) + [ChunkHeader(0), ChunkComplete]
  }

  /** The head announces this body: its length and no coding, the coding and no length, or neither. */
  predicate Announces(cfg: Config, p: Parser, b: Content) {
    match b
    case Empty => !p.flags.contentLength && !p.usesTransferEncoding && Bodiless(p)
    case Identity(bytes) => p.flags.contentLength && !p.usesTransferEncoding && p.contentLength == |bytes|
    case Chunks(chunks) =>
      && p.usesTransferEncoding && !p.flags.contentLength
      && forall k :: 0 <= k < |chunks| ==> HttpChunked.Sendable(cfg, chunks[k])
  }

  datatype Message = Message(first: First, lines: seq<Line>, content: Content)

  /** What the head of a message says. */
  function HeadNoted(t: HttpType, g: Message): Parser {
    NotedAll(FirstNoted(t, g.first), g.lines)
  }

  function HeadBytes(t: HttpType, g: Message): seq<Byte>
    requires Suits(t, g.first)
  {
    FirstBytes(t, g.first) + LinesBytes(g.lines) + ([CR] + [LF])
  }

  function MessageBytes(t: HttpType, g: Message): seq<Byte>
    requires Suits(t, g.first)
  {
    HeadBytes(t, g) + ContentBytes(g.content)
  }

  function MessageEvents(g: Message): Trace {
    [MessageBegin, FirstEvent(g.first)] + LinesEvents(g.lines) + [HeadersComplete] + ContentEvents(g.content) +
      [MessageComplete]
  }

  /** A message a parser of this kind takes: its head fits the limit and announces its body. */
  predicate Sound(cfg: Config, t: HttpType, g: Message) {
    && Suits(t, g.first) && AllUnderstood(g.lines) && |HeadBytes(t, g)| <= cfg.maxHeaderSize
    && Announces(cfg, HeadNoted(t, g), g.content)
  }

  /** HTTP/1.1 connections are kept unless closed, older ones only if that is asked for. */
  predicate KeptOpen(said: Parser) {
    if said.httpMajor > 0 && said.httpMinor > 0 then !said.flags.close else said.flags.keepAlive
  }

  /** The parser holds what the head of the message says, and waits for another message. */
  predicate Holds(cfg: Config, t: HttpType, g: Message, p: Parser) {
    var said := HeadNoted(t, g);
    && p.kind == said.kind && p.method_ == said.method_ && p.statusCode == said.statusCode
    && p.httpMajor == said.httpMajor && p.httpMinor == said.httpMinor
    && p.usesTransferEncoding == said.usesTransferEncoding && p.errno.OK? && !p.upgrade
    && p.flags == said.flags.(trailing := g.content.Chunks?)
    && p.state == if cfg.strict && !KeptOpen(said) then Dead else if p.kind.Request? then StartReq else StartRes
  }

  lemma FirstRead(cfg: Config, t: HttpType, f: First)
    requires Suits(t, f) && |FirstBytes(t, f)| <= cfg.maxHeaderSize
    ensures var r := Run(cfg, Start(Init(t)), FirstBytes(t, f));
            && r == Machine(r.p, [MessageBegin, FirstEvent(f)], Running, |FirstBytes(t, f)|)
            && r.p.state.HeaderFieldStart? && r.p.nread == |FirstBytes(t, f)| && SameRecord(r.p, FirstNoted(t, f))
  {
    hide Run, RequestLine, StatusLine, Target;
    match f
    case Asks(m, url, major, minor) => RequestLineRead(cfg, t, m, url, major, minor);
    case Answers(major, minor, code, reason) => StatusLineRead(cfg, t, major, minor, code, reason);
  }

  /** What header lines leave as it is, and what they only say together. */
  predicate Consistent(p: Parser, q: Parser) {
    && q == p.(flags := q.flags, usesTransferEncoding := q.usesTransferEncoding, contentLength := q.contentLength)
    && q.flags == p.flags.(chunked := q.usesTransferEncoding, keepAlive := q.flags.keepAlive, close := q.flags.close,
                           contentLength := q.flags.contentLength)
    && (if q.flags.contentLength then q.contentLength < LENGTH_LIMIT else q.contentLength == p.contentLength)
  }

  lemma ConsistentNext(p: Parser, q: Parser, l: Line)
    requires Consistent(p, q) && Understood(l)
    ensures Consistent(p, Noted(q, l))
  {
    hide Reads, Number, Unrelated, Visible, AllDigits, WellFormed;
  }

  lemma {:induction false} AllConsistent(p: Parser, q: Parser, ls: seq<Line>)
    requires Consistent(p, q) && forall l <- ls :: Understood(l)
    ensures Consistent(p, NotedAll(q, ls))
    decreases |ls|
  {
    hide Consistent, Understood, Noted;
    if ls != [] {
      ConsistentNext(p, q, ls[0]);
      AllConsistent(p, Noted(q, ls[0]), ls[1..]);
    }
  }

  lemma HeadConsistent(t: HttpType, g: Message)
    requires AllUnderstood(g.lines)
    ensures Consistent(FirstNoted(t, g.first), HeadNoted(t, g))
  {
    hide Understood, NotedAll;
    var p := FirstNoted(t, g.first);
    AllConsistent(p, p, g.lines);
  }

  lemma HeadersFollow(cfg: Config, t: HttpType, g: Message, m: Machine)
    requires Sound(cfg, t, g) && m.halt.Running? && m.p.state.HeaderFieldStart? && NotAtEnd(m.trace, Field)
    requires m.p.nread == |FirstBytes(t, g.first)| && SameRecord(m.p, FirstNoted(t, g.first))
    ensures LinesMayCome(cfg, m, g.lines)
  {
    hide Understood, Announces, FirstBytes;
  }

  /** The head, up to the empty line, leaves what its lines say. */
  lemma LinesSettled(cfg: Config, t: HttpType, g: Message)
    requires Sound(cfg, t, g)
    ensures var r := Run(cfg, Start(Init(t)), FirstBytes(t, g.first) + LinesBytes(g.lines));
            && r == Machine(r.p, [MessageBegin, FirstEvent(g.first)] + LinesEvents(g.lines), Running,
                            |FirstBytes(t, g.first) + LinesBytes(g.lines)|)
            && (r.p.state.HeaderValueLws? || r.p.state.HeaderFieldStart?)
            && r.p.nread == r.consumed && SameRecord(Settled(r.p), HeadNoted(t, g))
  {
    hide Run, Understood, Announces, FirstBytes, FirstNoted, LinesBytes, LinesEvents, LinesMayCome, SameRecord, Settled;
    FirstRead(cfg, t, g.first);
    var m0 := Start(Init(t));
    var m1 := Run(cfg, m0, FirstBytes(t, g.first));
    HeadersFollow(cfg, t, g, m1);
    LinesRead(cfg, m1, g.lines);
    RunConcat(cfg, m0, FirstBytes(t, g.first), LinesBytes(g.lines));
    var r := Run(cfg, m1, LinesBytes(g.lines));
    AllNotedAlike(m1.p, FirstNoted(t, g.first), g.lines);
    SameAs(Settled(r.p), NotedAll(m1.p, g.lines), HeadNoted(t, g));
  }

  /** The machine in front of the empty line, settled. */
  function BeforeEmptyLine(m: Machine): Machine {
    m.(p := Settled(m.p))
  }

  /** What the parser goes by when the content comes. */
  predicate Expects(p: Parser, c: Content) {
    match c
    case Empty => !p.flags.chunked && !p.usesTransferEncoding && p.contentLength == ULLONG_MAX && Bodiless(p)
    case Identity(bytes) => !p.flags.chunked && !p.usesTransferEncoding && p.contentLength == |bytes| < ULLONG_MAX
    case Chunks(_) => p.flags.chunked
  }

  lemma HeadIsOrdinary(cfg: Config, t: HttpType, g: Message, p: Parser)
    requires Sound(cfg, t, g) && SameRecord(p, HeadNoted(t, g))
    ensures Ordinary(p) && !p.flags.skipBody && p.state.HeaderFieldStart? && Expects(p, g.content)
  {
    hide HeadNoted, AllUnderstood, HeadBytes;
    HeadConsistent(t, g);
  }

  /** The parser behind a message, from the one in front of the empty line. */
  predicate Over(cfg: Config, p: Parser, c: Content, q: Parser) {
    && q == p.(state := q.state, nread := q.nread, contentLength := q.contentLength, upgrade := false,
               flags := p.flags.(trailing := c.Chunks?))
    && q.state == NewMessage(cfg, q) && (c.Empty? || q.contentLength == 0)
  }

  lemma NewMessageSame(cfg: Config, p: Parser, s: State)
    ensures NewMessage(cfg, p.(state := s)) == NewMessage(cfg, p)
  {
  }

  /** The trace behind a message. */
  function TraceOver(tr: Trace, c: Content): Trace {
    tr + [HeadersComplete] + ContentEvents(c) + [MessageComplete]
  }

  lemma EmptyRead(cfg: Config, m: Machine, c: Content)
    requires m.halt.Running? && m.p.state.HeaderFieldStart? && Ordinary(m.p) && AlwaysContinues(cfg)
    requires !m.p.flags.skipBody && m.p.nread + 2 <= cfg.maxHeaderSize && Expects(m.p, c)
    requires c.Empty? || c == Identity([])
    ensures var r := Run(cfg, m, [CR] + [LF]);
            r == Machine(r.p, TraceOver(m.trace, c), Running, m.consumed + 2) && Over(cfg, m.p, c, r.p)
  {
    hide Run, AlwaysContinues, HeadersDoneMove, NewMessage, Bodiless;
    BodyFollows(cfg, m.p);
    EmptyLineRead(cfg, m);
    var q := HeadDone(m.p).(nread := 0);
    NewMessageSame(cfg, q, NewMessage(cfg, q));
    assert m.trace + [HeadersComplete] + [] + [MessageComplete] == m.trace + [HeadersComplete] + [MessageComplete];
  }

  lemma IdentityContentRead(cfg: Config, m: Machine, c: Content)
    requires m.halt.Running? && m.p.state.HeaderFieldStart? && Ordinary(m.p) && AlwaysContinues(cfg)
    requires !m.p.flags.skipBody && m.p.nread + 2 <= cfg.maxHeaderSize && Expects(m.p, c)
    requires c.Identity? && c.bytes != []
    ensures var r := Run(cfg, m, [CR] + [LF] + c.bytes);
            && r == Machine(r.p, TraceOver(m.trace, c), Running, m.consumed + 2 + |c.bytes|)
            && Over(cfg, m.p, c, r.p)
  {
    hide Run, AlwaysContinues, HeadersDoneMove, NewMessage;
    BodyFollows(cfg, m.p);
    EmptyLineRead(cfg, m);
    var m1 := Run(cfg, m, [CR] + [LF]);
    IdentityRead(cfg, m1, c.bytes);
    RunConcat(cfg, m, [CR] + [LF], c.bytes);
    var q := m1.p.(state := MessageDone, contentLength := 0);
    NewMessageSame(cfg, q, NewMessage(cfg, q));
  }

  lemma ChunksRead(cfg: Config, m: Machine, c: Content)
    requires m.halt.Running? && m.p.state.HeaderFieldStart? && Ordinary(m.p) && AlwaysContinues(cfg)
    requires !m.p.flags.skipBody && m.p.nread + 2 <= cfg.maxHeaderSize && Expects(m.p, c) && cfg.maxHeaderSize >= 3
    requires c.Chunks? && forall k :: 0 <= k < |c.chunks| ==> HttpChunked.Sendable(cfg, c.chunks[k])
    ensures var r := Run(cfg, m, [CR] + [LF] + HttpChunked.EncodeBody(c.chunks));
            && r == Machine(r.p, TraceOver(m.trace, c), Running, m.consumed + 2 + |HttpChunked.EncodeBody(c.chunks)|)
            && Over(cfg, m.p, c, r.p)
  {
    hide Run, AlwaysContinues, HeadersDoneMove, NewMessage, HttpChunked.EncodeBody, HttpChunked.ChunkEvents,
      HttpChunked.Sendable;
    BodyFollows(cfg, m.p);
    EmptyLineRead(cfg, m);
    var m1 := Run(cfg, m, [CR] + [LF]);
    HttpChunked.ReadBody(cfg, m1, c.chunks);
    RunConcat(cfg, m, [CR] + [LF], HttpChunked.EncodeBody(c.chunks));
    var q := m1.p.(state := MessageDone, contentLength := 0, nread := 2, flags := m1.p.flags.(trailing := true));
    NewMessageSame(cfg, q, NewMessage(cfg, q));
    var events := HttpChunked.ChunkEvents(c.chunks);
    assert m.trace + [HeadersComplete] + events + [ChunkHeader(0), ChunkComplete, MessageComplete] ==
           m.trace + [HeadersComplete] + (events + [ChunkHeader(0), ChunkComplete]) + [MessageComplete];
  }

  /** The empty line and the content, whatever kind it is of. */
  lemma ContentRead(cfg: Config, m: Machine, c: Content)
    requires m.halt.Running? && m.p.state.HeaderFieldStart? && Ordinary(m.p) && AlwaysContinues(cfg)
    requires !m.p.flags.skipBody && m.p.nread + 2 <= cfg.maxHeaderSize && Expects(m.p, c) && cfg.maxHeaderSize >= 3
    requires c.Chunks? ==> forall k :: 0 <= k < |c.chunks| ==> HttpChunked.Sendable(cfg, c.chunks[k])
    ensures var r := Run(cfg, m, [CR] + [LF] + ContentBytes(c));
            && r == Machine(r.p, TraceOver(m.trace, c), Running, m.consumed + 2 + |ContentBytes(c)|)
            && Over(cfg, m.p, c, r.p)
  {
    hide Run, AlwaysContinues, Ordinary, Expects, Over, TraceOver, HttpChunked.EncodeBody, HttpChunked.Sendable;
    if c.Chunks? {
      ChunksRead(cfg, m, c);
    } else if c.Identity? && c.bytes != [] {
      IdentityContentRead(cfg, m, c);
    } else {
      EmptyRead(cfg, m, c);
      assert ContentBytes(c) == [] && [CR] + [LF] + [] == [CR] + [LF];
    }
  }

  lemma OverHolds(cfg: Config, t: HttpType, g: Message, p: Parser, q: Parser)
    requires Sound(cfg, t, g) && SameRecord(p, HeadNoted(t, g)) && Expects(p, g.content) && Over(cfg, p, g.content, q)
    ensures Holds(cfg, t, g, q)
  {
    hide HeadNoted, AllUnderstood, HeadBytes, Announces;
    HeadConsistent(t, g);
  }

  /**
   A message, read from its first byte on: the parser reports its parts and its end and takes every byte, and then holds
   what its head says.
   */
  lemma MessageRead(cfg: Config, t: HttpType, g: Message)
    requires Sound(cfg, t, g) && AlwaysContinues(cfg)
    ensures var r := Run(cfg, Start(Init(t)), MessageBytes(t, g));
            && r == Machine(r.p, MessageEvents(g), Running, |MessageBytes(t, g)|)
            && Holds(cfg, t, g, r.p)
  {
    hide Run, FirstBytes, LinesBytes, LinesEvents, ContentBytes, ContentEvents, AllUnderstood, HeadNoted, Announces,
      Ordinary, Expects, Over, SameRecord, Settled, Holds, AlwaysContinues;
    var m0, head := Start(Init(t)), FirstBytes(t, g.first) + LinesBytes(g.lines);
    var rest := [CR] + [LF] + ContentBytes(g.content);
    LinesSettled(cfg, t, g);
    var m1 := Run(cfg, m0, head);
    var m2 := BeforeEmptyLine(m1);
    SettledCount(m1.p);
    SettledRun(cfg, m1, rest);
    HeadIsOrdinary(cfg, t, g, m2.p);
    SendableChunks(cfg, t, g);
    SomeHead(t, g.first);
    ContentRead(cfg, m2, g.content);
    var r := Run(cfg, m2, rest);
    OverHolds(cfg, t, g, m2.p, r.p);
    RunConcat(cfg, m0, head, rest);
    assert head + rest == MessageBytes(t, g);
  }

  lemma SomeHead(t: HttpType, f: First)
    requires Suits(t, f)
    ensures |FirstBytes(t, f)| >= 3
  {
    VersionLength(f.major, f.minor);
    hide Version;
  }

  lemma SendableChunks(cfg: Config, t: HttpType, g: Message)
    requires Sound(cfg, t, g)
    ensures g.content.Chunks? ==>
              forall k :: 0 <= k < |g.content.chunks| ==> HttpChunked.Sendable(cfg, g.content.chunks[k])
  {
  }

  lemma NothingYet()
    ensures Glue([]) == []
  {
  }

  lemma HoldsFine(cfg: Config, t: HttpType, g: Message, p: Parser)
    requires Holds(cfg, t, g, p)
    ensures p.errno.OK?
  {
  }

  /** The same for a parser object that is fed the message in pieces cut anywhere. */
  method ReadInPieces(cfg: Config, t: HttpType, pieces: seq<seq<Byte>>, ghost g: Message)
    returns (parser: HttpParser, nparsed: nat)
    requires Sound(cfg, t, g) && AlwaysContinues(cfg)
    requires (forall k :: 0 <= k < |pieces| ==> 0 < |pieces[k]|) && Flatten(pieces) == MessageBytes(t, g)
    ensures nparsed == |MessageBytes(t, g)| && parser.errno.OK?
    ensures Glue(parser.events) == MessageEvents(g) && Holds(cfg, t, g, parser.View())
  {
    hide Run, Glue, Inv, Suits, AllUnderstood, HeadBytes, Announces, Holds, MessageBytes, MessageEvents,
      AlwaysContinues;
    MessageRead(cfg, t, g);
    parser := new HttpParser(cfg, t);
    NothingYet();
    HoldsFine(cfg, t, g, Run(cfg, Start(Init(t)), MessageBytes(t, g)).p);
    assert parser.Abstract() == Start(Init(t));
    var exited;
    nparsed, exited := parser.ExecuteAll(cfg, pieces);
  }
}
