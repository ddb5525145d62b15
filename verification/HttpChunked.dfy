/**
 Chunked transfer coding (section 4.1 of RFC 7230): the parser undoes what a sender writes.
 */
module HttpChunked {
  import opened HttpTypes
  import opened HttpStep
  import opened HttpRun
  import opened HttpInvariant
  import opened HttpBulk
  import opened HttpParser

  /** A chunk with its extension, which the parser ignores. */
  datatype Chunk = Chunk(extension: seq<Byte>, payload: seq<Byte>)

  function HexDigit(v: nat): (ch: Byte)
    requires v < 16
    ensures Unhex(ch) == v
  {
    if v < 10 then '0' as int + v else 'a' as int + v - 10
  }

  /** Capital letters stand for the same digits. */
  lemma CapitalDigits(v: nat)
    requires 10 <= v < 16
    ensures Unhex('A' as int + v - 10) == v
  {
  }

  /** A number in hexadecimal, without leading zeros. */
  function Hex(n: nat): (digits: seq<Byte>)
    ensures |digits| > 0
  {
    if n < 16 then [HexDigit(n)] else Hex(n / 16) + [HexDigit(n % 16)]
  }

  predicate ValidExtension(ext: seq<Byte>) {
    ext != [] ==> (ext[0] == ';' as int || ext[0] == SP) && forall k :: 0 <= k < |ext| ==> ext[k] != CR
  }

  /** A chunk a sender may write and whose size line fits the parser's limits. */
  predicate Sendable(cfg: Config, c: Chunk) {
    && ValidExtension(c.extension) && c.payload != []
    && |c.payload| <= ULLONG_MAX - 16
    && |Hex(|c.payload|)| + |c.extension| + 2 <= cfg.maxHeaderSize
  }

  function SizeLine(n: nat, ext: seq<Byte>): seq<Byte> {
    Hex(n) + ext + [CR] + [LF]
  }

  function EncodeChunk(c: Chunk): seq<Byte> {
    SizeLine(|c.payload|, c.extension) + c.payload + [CR] + [LF]
  }

  function EncodeChunks(chunks: seq<Chunk>): seq<Byte> {
    if chunks == [] then [] else EncodeChunk(chunks[0]) + EncodeChunks(chunks[1..])
  }

  /** The whole body: the chunks, the last chunk, and an empty trailer. */
  function EncodeBody(chunks: seq<Chunk>): seq<Byte> {
    EncodeChunks(chunks) + SizeLine(0, []) + [CR] + [LF]
  }

  function ChunkEvents(chunks: seq<Chunk>): seq<Event> {
    if chunks == [] then []
    else [ChunkHeader(|chunks[0].payload|), Data(Body, chunks[0].payload), ChunkComplete] + ChunkEvents(chunks[1..])
  }

  function Payload(chunks: seq<Chunk>): seq<Byte> {
    if chunks == [] then [] else chunks[0].payload + Payload(chunks[1..])
  }

  // ---- Single bytes -----------------------------------------------------------------------------

  /** A byte that one state consumes, counted against the header limit. */
  lemma StepOnce(cfg: Config, m: Machine, ch: Byte, mv: Move)
    requires m.halt.Running? && !Overflows(cfg, m.p)
    requires mv == Transition(cfg, Count(m.p), ch) && mv.next.Consumed?
    ensures Step(cfg, m, ch) == Machine(mv.p, Effect(mv.action, ch, m.trace), Running, m.consumed + 1)
  {
    hide Transition, Effect, Drive, Overflows, Count;
    DriveOnce(cfg, Count(m.p), m.trace, ch, mv);
  }

  /** The parser inside the size line of a chunk of `n` bytes, `read` bytes into the line. */
  function SizeState(p: Parser, s: State, n: nat, read: nat): Parser {
    p.(state := s, contentLength := n, nread := read)
  }

  predicate AtChunk(p: Parser) {
    p.state.ChunkSizeStart? && p.nread == 0 && p.flags.chunked
  }

  lemma FirstDigit(cfg: Config, p: Parser, v: nat)
    requires AtChunk(p) && v < 16
    ensures Transition(cfg, Count(p), HexDigit(v)) == Take(SizeState(p, ChunkSize, v, 1))
  {
    hide HexDigit, Unhex;
  }

  lemma NextDigit(cfg: Config, p: Parser, n: nat, read: nat, v: nat)
    requires AtChunk(p) && v < 16 && n * 16 + v <= ULLONG_MAX - 16
    ensures Transition(cfg, Count(SizeState(p, ChunkSize, n, read)), HexDigit(v)) ==
              Take(SizeState(p, ChunkSize, n * 16 + v, read + 1))
  {
    hide HexDigit, Unhex;
    assert Unhex(HexDigit(v)) == v;
    assert HexDigit(v) != CR by { NoHexCR(); }
  }

  lemma NoHexCR()
    ensures Unhex(CR) == -1 && Unhex(';' as int) == -1 && Unhex(SP) == -1
  {
  }

  lemma SizeEnds(cfg: Config, p: Parser, s: State, n: nat, read: nat)
    requires AtChunk(p) && (s.ChunkSize? || s.ChunkParameters?)
    ensures Transition(cfg, Count(SizeState(p, s, n, read)), CR) == Take(SizeState(p, ChunkSizeAlmostDone, n, read + 1))
  {
    hide Transition, ChunkHeaderMove, Unhex;
    var q := SizeState(p, s, n, read + 1);
    ChunkHeaderOnly(cfg, q, CR);
    SizeEndMove(cfg, q);
  }

  lemma SizeEndMove(cfg: Config, p: Parser)
    requires p.flags.chunked && (p.state.ChunkSize? || p.state.ChunkParameters?)
    ensures ChunkHeaderMove(cfg, p, CR) == Take(p.(state := ChunkSizeAlmostDone))
  {
    hide Unhex, ChunkDigit;
  }

  lemma ChunkHeaderOnly(cfg: Config, p: Parser, ch: Byte)
    requires p.state.ChunkSize? || p.state.ChunkParameters?
    ensures Transition(cfg, p, ch) == ChunkHeaderMove(cfg, p, ch)
  {
    hide ChunkHeaderMove;
  }

  lemma ExtensionByte(cfg: Config, p: Parser, n: nat, read: nat, ch: Byte)
    requires AtChunk(p)
    ensures ch == ';' as int || ch == SP ==>
              Transition(cfg, Count(SizeState(p, ChunkSize, n, read)), ch) ==
                  Take(SizeState(p, ChunkParameters, n, read + 1))
    ensures ch != CR ==>
              Transition(cfg, Count(SizeState(p, ChunkParameters, n, read)), ch) ==
                  Take(SizeState(p, ChunkParameters, n, read + 1))
  {
    hide Transition, Count;
    if ch == ';' as int || ch == SP {
      ExtensionBegins(cfg, p, n, read, ch);
    }
    if ch != CR {
      ExtensionGoesOn(cfg, p, n, read, ch);
    }
  }

  lemma ExtensionBegins(cfg: Config, p: Parser, n: nat, read: nat, ch: Byte)
    requires AtChunk(p) && (ch == ';' as int || ch == SP)
    ensures Transition(cfg, Count(SizeState(p, ChunkSize, n, read)), ch) ==
            Take(SizeState(p, ChunkParameters, n, read + 1))
  {
    NoHexCR();
  }

  lemma ExtensionGoesOn(cfg: Config, p: Parser, n: nat, read: nat, ch: Byte)
    requires AtChunk(p) && ch != CR
    ensures Transition(cfg, Count(SizeState(p, ChunkParameters, n, read)), ch) ==
            Take(SizeState(p, ChunkParameters, n, read + 1))
  {
  }

  lemma LineFeed(cfg: Config, p: Parser, n: nat, read: nat)
    requires AtChunk(p)
    ensures Transition(cfg, Count(SizeState(p, ChunkSizeAlmostDone, n, read)), LF) ==
              Move(if n == 0 then SizeState(p, HeaderFieldStart, 0, 0).(flags := p.flags.(trailing := true))
                   else SizeState(p, ChunkData, n, 0),
                   Notify(ChunkHeader(n)), Consumed)
  {
  }

  // ---- The size line ----------------------------------------------------------------------------

  function InLine(m: Machine, s: State, n: nat, read: nat): Machine {
    Machine(SizeState(m.p, s, n, read), m.trace, Running, m.consumed + read)
  }

  /** Reading back a number written in hexadecimal. */
  lemma {:induction false} ReadHex(cfg: Config, m: Machine, n: nat)
    requires m.halt.Running? && AtChunk(m.p) && n <= ULLONG_MAX - 16 && |Hex(n)| <= cfg.maxHeaderSize
    ensures Run(cfg, m, Hex(n)) == InLine(m, ChunkSize, n, |Hex(n)|)
  {
    hide Step, Transition, HexDigit, Unhex, Overflows, Count;
    HexShape(n);
    if n < 16 {
      RunSnoc(cfg, m, [], HexDigit(n));
      assert [] + [HexDigit(n)] == Hex(n);
      FirstDigit(cfg, m.p, n);
      ChunkCounts(cfg, m.p, 0);
      StepOnce(cfg, m, HexDigit(n), Take(SizeState(m.p, ChunkSize, n, 1)));
    } else {
      ReadHex(cfg, m, n / 16);
      RunSnoc(cfg, m, Hex(n / 16), HexDigit(n % 16));
      NextDigit(cfg, m.p, n / 16, |Hex(n / 16)|, n % 16);
      ChunkCounts(cfg, SizeState(m.p, ChunkSize, n / 16, |Hex(n / 16)|), |Hex(n / 16)|);
      StepOnce(cfg, InLine(m, ChunkSize, n / 16, |Hex(n / 16)|), HexDigit(n % 16),
               Take(SizeState(m.p, ChunkSize, n, |Hex(n)|)));
    }
  }

  lemma HexShape(n: nat)
    ensures n < 16 ==> Hex(n) == [HexDigit(n)]
    ensures n >= 16 ==> Hex(n) == Hex(n / 16) + [HexDigit(n % 16)] && n / 16 * 16 + n % 16 == n
  {
  }

  lemma ChunkCounts(cfg: Config, p: Parser, read: nat)
    requires p.nread == read < cfg.maxHeaderSize
    ensures !Overflows(cfg, p)
  {
  }

  lemma {:induction false} ReadExtension(cfg: Config, m: Machine, n: nat, read: nat, ext: seq<Byte>)
    requires m.halt.Running? && AtChunk(m.p) && ValidExtension(ext) && read + |ext| <= cfg.maxHeaderSize
    ensures Run(cfg, InLine(m, ChunkSize, n, read), ext) ==
              InLine(m, if ext == [] then ChunkSize else ChunkParameters, n, read + |ext|)
    decreases |ext|
  {
    hide Run, Step, Transition, AtChunk, Overflows, Count;
    if ext == [] {
      RunNothing(cfg, InLine(m, ChunkSize, n, read));
    } else {
      var front, ch := ext[..|ext| - 1], ext[|ext| - 1];
      assert front + [ch] == ext;
      ReadExtension(cfg, m, n, read, front);
      RunSnoc(cfg, InLine(m, ChunkSize, n, read), front, ch);
      var s := if front == [] then ChunkSize else ChunkParameters;
      ExtensionByte(cfg, m.p, n, read + |front|, ch);
      ChunkCounts(cfg, SizeState(m.p, s, n, read + |front|), read + |front|);
      StepOnce(cfg, InLine(m, s, n, read + |front|), ch, Take(SizeState(m.p, ChunkParameters, n, read + |ext|)));
    }
  }

  /** A size line announces the chunk, and resets the count of header bytes. */
  lemma ReadSizeLine(cfg: Config, m: Machine, n: nat, ext: seq<Byte>)
    requires m.halt.Running? && AtChunk(m.p) && n <= ULLONG_MAX - 16 && ValidExtension(ext)
    requires |Hex(n)| + |ext| + 2 <= cfg.maxHeaderSize
    ensures Run(cfg, m, SizeLine(n, ext)) ==
              Machine(if n == 0 then SizeState(m.p, HeaderFieldStart, 0, 0).(flags := m.p.flags.(trailing := true))
                      else SizeState(m.p, ChunkData, n, 0),
                      Emit(m.trace, ChunkHeader(n)), Running, m.consumed + |SizeLine(n, ext)|)
  {
    hide Step, Run, Transition, AtChunk, Hex, Emit, Overflows, Count, ValidExtension;
    ReadHex(cfg, m, n);
    ReadExtension(cfg, m, n, |Hex(n)|, ext);
    RunConcat(cfg, m, Hex(n), ext);
    var line := Hex(n) + ext;
    var s := if ext == [] then ChunkSize else ChunkParameters;
    RunSnoc(cfg, m, line, CR);
    SizeEnds(cfg, m.p, s, n, |line|);
    ChunkCounts(cfg, SizeState(m.p, s, n, |line|), |line|);
    StepOnce(cfg, InLine(m, s, n, |line|), CR, Take(SizeState(m.p, ChunkSizeAlmostDone, n, |line| + 1)));
    RunSnoc(cfg, m, line + [CR], LF);
    LineFeed(cfg, m.p, n, |line| + 1);
    ChunkCounts(cfg, SizeState(m.p, ChunkSizeAlmostDone, n, |line| + 1), |line| + 1);
    StepOnce(cfg, InLine(m, ChunkSizeAlmostDone, n, |line| + 1), LF,
             Transition(cfg, Count(SizeState(m.p, ChunkSizeAlmostDone, n, |line| + 1)), LF));
  }

  // ---- A chunk ----------------------------------------------------------------------------------

  lemma DataEnds(cfg: Config, p: Parser)
    requires p.flags.chunked && p.contentLength == 0
    ensures Transition(cfg, p.(state := ChunkDataAlmostDone), CR) ==
            Move(p.(state := ChunkDataDone), Flush(Body), Consumed)
  {
  }

  lemma ChunkEnds(cfg: Config, p: Parser)
    requires p.flags.chunked
    ensures Transition(cfg, p.(state := ChunkDataDone), LF) ==
              Move(p.(state := ChunkSizeStart, nread := 0), Notify(ChunkComplete), Consumed)
  {
  }

  function AfterChunk(m: Machine, n: nat, payload: seq<Byte>, consumed: nat): Machine {
    Machine(m.p.(contentLength := 0), m.trace + [ChunkHeader(n), Data(Body, payload), ChunkComplete], Running,
            m.consumed + consumed)
  }

  lemma ReadChunk(cfg: Config, m: Machine, c: Chunk)
    requires m.halt.Running? && AtChunk(m.p) && Sendable(cfg, c)
    ensures Run(cfg, m, EncodeChunk(c)) == AfterChunk(m, |c.payload|, c.payload, |EncodeChunk(c)|)
  {
    hide Step, Run, Transition, Hex, Overflows;
    var n, line := |c.payload|, SizeLine(|c.payload|, c.extension);
    ReadSizeLine(cfg, m, n, c.extension);
    var m1 := Run(cfg, m, line);
    RunConcat(cfg, m, line, c.payload);
    BodyBytes(cfg, m1, c.payload);
    var p := m.p.(contentLength := 0);
    var m2 := Run(cfg, m1, c.payload);
    var wire := line + c.payload;
    DataEnds(cfg, p);
    ChunkEnds(cfg, p);
    RunSnoc(cfg, m, wire, CR);
    StepOnceBody(cfg, m2, CR, Move(p.(state := ChunkDataDone), Flush(Body), Consumed));
    RunSnoc(cfg, m, wire + [CR], LF);
    StepOnceBody(cfg, Step(cfg, m2, CR), LF,
                 Move(p.(state := ChunkSizeStart, nread := 0), Notify(ChunkComplete), Consumed));
  }

  lemma StepOnceBody(cfg: Config, m: Machine, ch: Byte, mv: Move)
    requires m.halt.Running? && !ParsingHeader(m.p.state)
    requires mv == Transition(cfg, m.p, ch) && mv.next.Consumed?
    ensures Step(cfg, m, ch) == Machine(mv.p, Effect(mv.action, ch, m.trace), Running, m.consumed + 1)
  {
    hide Transition, Effect, Drive;
    DriveOnce(cfg, m.p, m.trace, ch, mv);
  }

  lemma RunNothing(cfg: Config, m: Machine)
    ensures Run(cfg, m, []) == m
  {
  }

  lemma {:induction false} ReadChunks(cfg: Config, m: Machine, chunks: seq<Chunk>)
    requires m.halt.Running? && AtChunk(m.p)
    requires forall k :: 0 <= k < |chunks| ==> Sendable(cfg, chunks[k])
    ensures Run(cfg, m, EncodeChunks(chunks)) ==
              Machine(if chunks == [] then m.p else m.p.(contentLength := 0), m.trace + ChunkEvents(chunks), Running,
                      m.consumed + |EncodeChunks(chunks)|)
    decreases |chunks|
  {
    hide Run, Step, Transition, EncodeChunk, Sendable;
    RunNothing(cfg, m);
    if chunks != [] {
      ReadChunk(cfg, m, chunks[0]);
      var m1 := Run(cfg, m, EncodeChunk(chunks[0]));
      RunConcat(cfg, m, EncodeChunk(chunks[0]), EncodeChunks(chunks[1..]));
      ReadChunks(cfg, m1, chunks[1..]);
      var first := [ChunkHeader(|chunks[0].payload|), Data(Body, chunks[0].payload), ChunkComplete];
      assert m.trace + first + ChunkEvents(chunks[1..]) == m.trace + ChunkEvents(chunks);
    } else {
      assert m.trace + [] == m.trace;
    }
  }

  // ---- The whole body ---------------------------------------------------------------------------

  lemma TrailerCR(cfg: Config, p: Parser)
    requires p.state.HeaderFieldStart?
    ensures Transition(cfg, p, CR) == Take(p.(state := HeadersAlmostDone))
  {
    hide Token;
  }

  lemma TrailerLF(cfg: Config, p: Parser)
    requires p.state.HeadersAlmostDone? && p.flags.trailing
    ensures Transition(cfg, p, LF) == Move(p.(state := MessageDone), Notify(ChunkComplete), Again)
  {
    hide Answered;
  }

  lemma MessageEnds(cfg: Config, p: Parser, ch: Byte)
    requires p.state.MessageDone?
    ensures Transition(cfg, p, ch) == CompleteMessage(cfg, p, p.upgrade)
  {
    hide CompleteMessage;
  }

  /** The end of the trailer ends the message. */
  lemma DriveTrailer(cfg: Config, p: Parser, tr: Trace)
    requires p.state.HeadersAlmostDone? && p.flags.trailing
    ensures var q := p.(state := MessageDone);
            Drive(cfg, p, tr, LF) ==
              Outcome(q.(state := NewMessage(cfg, q)), Emit(Emit(tr, ChunkComplete), MessageComplete),
                      if p.upgrade then Exit else Consumed)
  {
    hide Transition, NewMessage, Emit;
    TrailerLF(cfg, p);
    RankDecreases(cfg, p, LF);
    var q := p.(state := MessageDone);
    MessageEnds(cfg, q, LF);
    DriveOnce(cfg, q, Emit(tr, ChunkComplete), LF, CompleteMessage(cfg, q, q.upgrade));
  }

  /** The parser after a chunked message whose body was announced to the parser `p`. */
  function Finished(cfg: Config, p: Parser): Parser {
    var q := p.(state := MessageDone, contentLength := 0, nread := 2, flags := p.flags.(trailing := true));
    q.(state := NewMessage(cfg, q))
  }

  lemma LastLine(cfg: Config, m: Machine)
    requires m.halt.Running? && m.p.state.HeaderFieldStart? && m.p.flags.trailing && m.p.nread == 0 &&
             cfg.maxHeaderSize >= 2
    ensures var q := m.p.(state := MessageDone, nread := 2);
            Run(cfg, m, [CR] + [LF]) ==
              Machine(q.(state := NewMessage(cfg, q)), m.trace + [ChunkComplete, MessageComplete],
                      if q.upgrade then Exited else Running, m.consumed + 2)
  {
    hide Transition, NewMessage, Drive, Step;
    TrailerCR(cfg, Count(m.p));
    RunSnoc(cfg, m, [], CR);
    assert [] + [CR] == [CR];
    var p1 := m.p.(state := HeadersAlmostDone, nread := 1);
    StepOnce(cfg, m, CR, Take(p1));
    RunSnoc(cfg, m, [CR], LF);
    TrailerStep(cfg, Machine(p1, m.trace, Running, m.consumed + 1));
  }

  /** The line feed that ends the trailer. */
  lemma TrailerStep(cfg: Config, m: Machine)
    requires m.halt.Running? && m.p.state.HeadersAlmostDone? && m.p.flags.trailing && m.p.nread == 1
    requires cfg.maxHeaderSize >= 2
    ensures var q := m.p.(state := MessageDone, nread := 2);
            Step(cfg, m, LF) ==
              Machine(q.(state := NewMessage(cfg, q)), m.trace + [ChunkComplete, MessageComplete],
                      if q.upgrade then Exited else Running, m.consumed + 1)
  {
    hide NewMessage, Drive;
    DriveTrailer(cfg, m.p.(nread := 2), m.trace);
    assert m.trace + [ChunkComplete] + [MessageComplete] == m.trace + [ChunkComplete, MessageComplete];
  }

  /**
   Chunked decoding undoes chunked encoding: the parser reports exactly the chunks that were written, the
   end of the message once, and consumes every byte; it is then ready for another message, or has left
   for another protocol.
   */
  lemma ReadBody(cfg: Config, m: Machine, chunks: seq<Chunk>)
    requires m.halt.Running? && AtChunk(m.p) && cfg.maxHeaderSize >= 3
    requires forall k :: 0 <= k < |chunks| ==> Sendable(cfg, chunks[k])
    ensures Run(cfg, m, EncodeBody(chunks)) ==
              Machine(Finished(cfg, m.p),
                      m.trace + ChunkEvents(chunks) + [ChunkHeader(0), ChunkComplete, MessageComplete],
                      if m.p.upgrade then Exited else Running,
                      m.consumed + |EncodeBody(chunks)|)
  {
    hide Step, Run, NewMessage, EncodeChunks, ChunkEvents, Sendable;
    ReadChunks(cfg, m, chunks);
    var m1 := Run(cfg, m, EncodeChunks(chunks));
    HexShape(0);
    ReadSizeLine(cfg, m1, 0, []);
    RunConcat(cfg, m, EncodeChunks(chunks), SizeLine(0, []));
    var m2 := Run(cfg, m1, SizeLine(0, []));
    LastLine(cfg, m2);
    var front := EncodeChunks(chunks) + SizeLine(0, []);
    RunConcat(cfg, m, front, [CR] + [LF]);
    assert front + ([CR] + [LF]) == EncodeBody(chunks);
    assert m.trace + ChunkEvents(chunks) + [ChunkHeader(0)] + [ChunkComplete, MessageComplete] ==
           m.trace + ChunkEvents(chunks) + [ChunkHeader(0), ChunkComplete, MessageComplete];
  }

  /** All the body bytes a trace reports. */
  function BodyOf(tr: Trace): seq<Byte> {
    if tr == [] then [] else BodyIn(tr[0]) + BodyOf(tr[1..])
  }

  function BodyIn(e: Event): seq<Byte> {
    if e.Data? && e.kind.Body? then e.bytes else []
  }

  lemma BodyOfNext(e: Event, tr: Trace)
    ensures BodyOf([e] + tr) == BodyIn(e) + BodyOf(tr)
  {
    hide BodyIn;
    assert ([e] + tr)[1..] == tr;
  }

  lemma {:induction false} BodyOfConcat(a: Trace, b: Trace)
    ensures BodyOf(a + b) == BodyOf(a) + BodyOf(b)
    decreases |a|
  {
    hide BodyIn, BodyOf;
    if a == [] {
      BodyOfNothing();
      assert a + b == b;
    } else {
      BodyOfConcat(a[1..], b);
      BodyOfNext(a[0], a[1..] + b);
      BodyOfNext(a[0], a[1..]);
      assert [a[0]] + (a[1..] + b) == a + b && [a[0]] + a[1..] == a;
    }
  }

  lemma BodyOfChunk(n: nat, payload: seq<Byte>)
    ensures BodyOf([ChunkHeader(n), Data(Body, payload), ChunkComplete]) == payload
  {
    BodyOfConcat([ChunkHeader(n)], [Data(Body, payload), ChunkComplete]);
    BodyOfConcat([Data(Body, payload)], [ChunkComplete]);
    assert [ChunkHeader(n)] + [Data(Body, payload), ChunkComplete] ==
           [ChunkHeader(n), Data(Body, payload), ChunkComplete];
    assert [Data(Body, payload)] + [ChunkComplete] == [Data(Body, payload), ChunkComplete];
  }

  /** The bytes reported for a chunked body are the payload. */
  lemma {:induction false} BodyIsPayload(chunks: seq<Chunk>)
    ensures BodyOf(ChunkEvents(chunks)) == Payload(chunks)
  {
    hide BodyOf;
    if chunks == [] {
      BodyOfNothing();
    } else {
      BodyIsPayload(chunks[1..]);
      BodyOfChunk(|chunks[0].payload|, chunks[0].payload);
      BodyOfConcat([ChunkHeader(|chunks[0].payload|), Data(Body, chunks[0].payload), ChunkComplete],
                   ChunkEvents(chunks[1..]));
    }
  }

  lemma BodyOfNothing()
    ensures BodyOf([]) == []
  {
  }

  /**
   The same for a parser object fed the encoded body in pieces cut anywhere: it reports exactly the chunks
   that were written and takes every byte.
   */
  method DecodeInPieces(parser: HttpParser, cfg: Config, pieces: seq<seq<Byte>>, ghost chunks: seq<Chunk>)
    returns (nparsed: nat)
    requires Inv(cfg, parser.View(), 0) && parser.errno.OK? && AtChunk(parser.View()) && cfg.maxHeaderSize >= 3
    requires forall k :: 0 <= k < |pieces| ==> 0 < |pieces[k]|
    requires forall k :: 0 <= k < |chunks| ==> Sendable(cfg, chunks[k])
    requires Flatten(pieces) == EncodeBody(chunks)
    modifies parser
    ensures parser.errno.OK? && nparsed == |EncodeBody(chunks)|
    ensures Glue(parser.events) ==
              old(Glue(parser.events)) + ChunkEvents(chunks) + [ChunkHeader(0), ChunkComplete, MessageComplete]
    ensures parser.View() == Finished(cfg, old(parser.View()))
  {
    hide Run, Glue, Inv, AtChunk, Finished, EncodeBody, ChunkEvents, Sendable;
    ReadBody(cfg, parser.Abstract(), chunks);
    var exited;
    nparsed, exited := parser.ExecuteAll(cfg, pieces);
  }
}
