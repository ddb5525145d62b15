/**
 How the parser reports data: it marks where a piece of data begins, and calls back with everything from
 the mark when the piece, or the buffer, ends. This module relates marks and callbacks over a buffer to
 the byte-by-byte trace, which knows nothing of buffers.
 */
module HttpMarks {
  import opened HttpTypes
  import opened HttpStep
  import opened HttpRun

  /** The positions of the source's five mark pointers, without those that are null. */
  type Marks = map<DataKind, nat>

  /** The trace `tr` followed by the data of an open piece. */
  function Span(tr: Trace, k: DataKind, bytes: seq<Byte>): Trace {
    if bytes == [] then tr else Emit(tr, Data(k, bytes))
  }

  lemma SpanSpan(tr: Trace, k: DataKind, a: seq<Byte>, b: seq<Byte>)
    ensures Span(Span(tr, k, a), k, b) == Span(tr, k, a + b)
  {
    assert a + [] == a && [] + b == b;
    EmitTwice(tr, k, a, b);
  }

  /**
   The callbacks made so far and the data still held back by a mark, up to position `i`, are together
   the trace `tr`.
   */
  predicate Tells(log: seq<Event>, marks: Marks, data: seq<Byte>, i: nat, tr: Trace)
    requires i <= |data|
  {
    && (marks == map[] ==> tr == Glue(log))
    && forall k :: k in marks ==>
       marks[k] <= i && marks == map[k := marks[k]] && tr == Span(Glue(log), k, data[marks[k]..i])
  }

  predicate Started(marks: Marks, i: nat) {
    forall k :: k in marks ==> marks[k] < i || (marks[k] == i == 0 && !k.Body?)
  }

  // ---- Which mark is set in which state ---------------------------------------------------------

  datatype Expectation = NoMark | Always(kind: DataKind) | Maybe(kind: DataKind)

  function Expected(s: State): Expectation {
    match s
    case HeaderField => Always(Field)
    case HeaderValue => Always(Value)
    case ReqSchema => Always(Url)
    case ReqSchemaSlash => Always(Url)
    case ReqSchemaSlashSlash => Always(Url)
    case ReqServerStart => Always(Url)
    case ReqServer => Always(Url)
    case ReqServerWithAt => Always(Url)
    case ReqPath => Always(Url)
    case ReqQueryStringStart => Always(Url)
    case ReqQueryString => Always(Url)
    case ReqFragmentStart => Always(Url)
    case ReqFragment => Always(Url)
    case ResStatus => Always(Status)
    case ChunkDataAlmostDone => Maybe(Body)
    case _ => NoMark
  }

  predicate MarksFit(e: Expectation, marks: Marks) {
    match e
    case NoMark => marks == map[]
    case Always(k) => k in marks && marks == map[k := marks[k]]
    case Maybe(k) => marks == map[] || (k in marks && marks == map[k := marks[k]])
  }

  /** The states whose data the source takes in a loop of its own. */
  predicate Bulk(s: State) {
    s.HeaderField? || s.HeaderValue? || s.BodyIdentity? || s.BodyIdentityEof? || s.ChunkData?
  }

  predicate Allowed(e: Expectation, a: Action) {
    match e
    case NoMark => !a.Flush?
    case Always(k) => a == Put(k) || (a == Flush(k) && !k.Body?)
    case Maybe(k) => a == Flush(k) && k.Body?
  }

  function After(a: Action): Expectation {
    match a
    case Put(k) => Always(k)
    case Mark(k) => Always(k)
    case _ => NoMark
  }

  /** Marks are set and used up in step with the state. */
  predicate Orderly(p: Parser, m: Move) {
    !m.next.Fail? && !m.next.Crash? && !Bulk(p.state) ==>
      && Allowed(Expected(p.state), m.action)
      && Expected(m.p.state) == After(m.action)
      && (m.next.Again? ==> !m.action.Put? && !Bulk(m.p.state))
      && (m.next.Consumed? ==> !m.action.Mark?)
      && (m.action.Mark? ==> m.action.kind.Status?)
      && (m.next.Exit? ==> !m.action.Put? && !m.action.Mark?)
  }

  lemma OrderlyStart(cfg: Config, p: Parser, ch: Byte)
    ensures GroupOf(p.state).GStart? ==> Orderly(p, StartMove(cfg, p, ch))
    ensures GroupOf(p.state).GResponseVersion? ==> Orderly(p, ResponseVersionMove(cfg, p, ch))
    ensures GroupOf(p.state).GStatusLine? ==> Orderly(p, StatusLineMove(cfg, p, ch))
  {
  }

  lemma OrderlyUrl(cfg: Config, p: Parser, s: State, ch: Byte)
    ensures var m := UrlMove(cfg, p, s, ch); !m.next.Fail? ==>
            m.next.Consumed? && m.action == Put(Url) && Expected(m.p.state) == Always(Url)
  {
    hide IsUrlChar, IsUserinfoChar, IsAlpha;
  }

  lemma OrderlyRequest(cfg: Config, p: Parser, ch: Byte)
    requires GroupOf(p.state).GRequestLine?
    ensures Orderly(p, RequestLineMove(cfg, p, ch))
  {
    hide MethodString, Reconsider, UrlMove;
    OrderlyUrl(cfg, p, p.state, ch);
    OrderlyUrl(cfg, p, ReqServerStart, ch);
  }

  lemma OrderlyRequestVersion(cfg: Config, p: Parser, ch: Byte)
    ensures GroupOf(p.state).GRequestProtocol? ==> Orderly(p, RequestProtocolMove(cfg, p, ch))
    ensures GroupOf(p.state).GRequestEnd? ==> Orderly(p, RequestEndMove(cfg, p, ch))
    ensures GroupOf(p.state).GRequestVersion? ==> Orderly(p, RequestVersionMove(cfg, p, ch))
  {
  }

  lemma OrderlyField(cfg: Config, p: Parser, ch: Byte)
    ensures GroupOf(p.state).GField? ==> Orderly(p, FieldMove(cfg, p, ch))
  {
    hide FieldChar, Token;
  }

  lemma OrderlyValueStart(p: Parser, ch: Byte)
    ensures var m := ValueStartMove(p, ch); !m.next.Fail? ==>
            m.next.Consumed? && m.action == Put(Value) && m.p.state.HeaderValue?
  {
  }

  lemma OrderlyValue(cfg: Config, p: Parser, ch: Byte)
    ensures GroupOf(p.state).GValue? ==> Orderly(p, ValueMove(cfg, p, ch))
  {
    hide ValueChar, ValueStartMove, Finished;
    OrderlyValueStart(p, ch);
  }

  lemma OrderlyHeadersEnd(cfg: Config, p: Parser, ch: Byte)
    ensures p.state.HeadersAlmostDone? ==> Orderly(p, HeadersAlmostDoneMove(cfg, p, ch))
    ensures p.state.HeadersDone? ==> Orderly(p, HeadersDoneMove(cfg, p, ch))
  {
    hide HasBody, MessageNeedsEof, ShouldKeepAlive;
  }

  lemma OrderlyBody(cfg: Config, p: Parser, ch: Byte)
    ensures GroupOf(p.state).GBody? ==> Orderly(p, BodyMove(cfg, p, ch))
  {
    hide HeadersAlmostDoneMove, HeadersDoneMove, ShouldKeepAlive;
    OrderlyHeadersEnd(cfg, p, ch);
  }

  lemma OrderlyChunk(cfg: Config, p: Parser, ch: Byte)
    ensures GroupOf(p.state).GChunkHeader? ==> Orderly(p, ChunkHeaderMove(cfg, p, ch))
    ensures GroupOf(p.state).GChunkData? ==> Orderly(p, ChunkDataMove(cfg, p, ch))
  {
    hide Unhex;
  }

  lemma TransitionOrderly(cfg: Config, p: Parser, ch: Byte)
    ensures Orderly(p, Transition(cfg, p, ch))
  {
    hide Orderly, StartMove, ResponseVersionMove, StatusLineMove, RequestProtocolMove, RequestVersionMove,
      RequestEndMove, RequestLineMove, FieldMove, ValueMove, BodyMove,
      ChunkHeaderMove, ChunkDataMove;
    OrderlyStart(cfg, p, ch);
    if GroupOf(p.state).GRequestLine? {
      OrderlyRequest(cfg, p, ch);
    }
    OrderlyRequestVersion(cfg, p, ch);
    OrderlyField(cfg, p, ch);
    OrderlyValue(cfg, p, ch);
    OrderlyBody(cfg, p, ch);
    OrderlyChunk(cfg, p, ch);
  }

  // ---- Performing an action on a buffer ---------------------------------------------------------

  /** The data callback for everything from the mark `from` up to, but not including, position `i`. */
  method CallbackData(data: seq<Byte>, i: nat, from: nat, log0: seq<Event>, k: DataKind, ghost tr: Trace)
    returns (log: seq<Event>)
    requires from <= i <= |data| && tr == Span(Glue(log0), k, data[from..i])
    ensures log == log0 + [Data(k, data[from..i])]
    ensures Glue(log) == Emit(tr, Data(k, []))
    ensures from < i ==> Glue(log) == tr
  {
    hide Glue, Emit;
    var bytes := data[from..i];
    log := log0 + [Data(k, bytes)];
    GlueSnoc(log0, Data(k, bytes));
    EmitTwice(Glue(log0), k, bytes, []);
    assert bytes + [] == bytes;
  }

  /** The MARK and CALLBACK macros of the source, at position `i` of the buffer. */
  method Perform(data: seq<Byte>, i: nat, marks0: Marks, log0: seq<Event>, a: Action, ghost e: Expectation,
                 ghost tr: Trace)
    returns (marks: Marks, log: seq<Event>)
    requires i < |data| && Tells(log0, marks0, data, i, tr) && MarksFit(e, marks0) && Allowed(e, a)
    requires forall k :: k in marks0 && k.Body? ==> marks0[k] < i
    ensures MarksFit(After(a), marks)
    ensures Tells(log, marks, data, if a.Put? then i + 1 else i, Effect(a, data[i], tr))
    ensures forall k :: k in marks ==> marks[k] <= i
  {
    hide Glue, Emit, Expected;
    marks, log := marks0, log0;
    match a
    case Nothing =>
    case Put(k) =>
      if k !in marks {
        marks := marks[k := i];
      }
      SpanSpan(Glue(log), k, data[marks[k]..i], [data[i]]);
      assert data[marks[k]..i] + [data[i]] == data[marks[k]..i + 1];
    case Mark(k) =>
      if k !in marks {
        marks := marks[k := i];
      }
      assert data[i..i] == [];
    case Flush(k) =>
      if k in marks {
        log := CallbackData(data, i, marks[k], log, k, tr);
        marks := map[];
      }
    case EmptyData(k) =>
      log := log + [Data(k, [])];
      GlueSnoc(log0, Data(k, []));
    case Notify(event) =>
      log := log + [event];
      GlueSnoc(log0, event);
  }
}
