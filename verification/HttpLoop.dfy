/**
 One turn of the outer loop of http_parser_execute for each kind of state, over a buffer. Each turn may
 take many bytes; its contract says what taking them one by one would have done.
 */
module HttpLoop {
  import opened HttpTypes
  import opened HttpStep
  import opened HttpRun
  import opened HttpInvariant
  import opened HttpMarks
  import opened HttpBulk

  /** The locals of http_parser_execute: parser copy, marks, callbacks so far, position. */
  datatype Cursor = Cursor(s: Parser, marks: Marks, log: seq<Event>, i: nat)

  datatype Verdict = Going | Stopped | Erred

  /** The cursor is sound by itself: its parser satisfies the invariant and its log tells the trace. */
  predicate Stands(cfg: Config, tr: Trace, data: seq<Byte>, c: Cursor) {
    && c.i <= |data| && Inv(cfg, c.s, 0)
    && Tells(c.log, c.marks, data, c.i, tr) && Started(c.marks, c.i)
    && (c.i < |data| ==> MarksFit(Expected(c.s.state), c.marks))
  }

  /** At the top of the loop: the cursor is where the machine is. */
  predicate At(cfg: Config, m: Machine, data: seq<Byte>, c: Cursor) {
    m.halt.Running? && m.p == c.s && Stands(cfg, m.trace, data, c)
  }

  /** Inside the loop, where the byte at `i` has been counted against the header limit. */
  predicate Ready(cfg: Config, tr: Trace, data: seq<Byte>, c: Cursor) {
    && c.i < |data| && Inv(cfg, c.s, 1) && (ParsingHeader(c.s.state) ==> cfg.maxHeaderSize > 0)
    && Tells(c.log, c.marks, data, c.i, tr) && Started(c.marks, c.i)
    && MarksFit(Expected(c.s.state), c.marks)
  }

  /** Inside the loop, where the cursor is where the machine is once it has counted its next byte. */
  predicate Inside(cfg: Config, m: Machine, data: seq<Byte>, c: Cursor) {
    && Ready(cfg, m.trace, data, c)
    && m.halt.Running? && Inv(cfg, m.p, 0) && !Overflows(cfg, m.p) && c.s == Count(m.p)
  }

  /** The run fails; with the same error unless it runs into the header limit. */
  predicate FailsWith(m: Machine, e: Errno) {
    m.halt.Failed? && !e.OK? && (m.p.errno.HeaderOverflow? || m.p.errno == e)
  }

  /** What any turn from `c` to `c'` leaves, `tr` being the trace after it. */
  predicate TurnSound(cfg: Config, tr: Trace, data: seq<Byte>, c: Cursor, v: Verdict, c': Cursor) {
    match v
    case Going => c.i < c'.i && Stands(cfg, tr, data, c')
    case Stopped => c.i < c'.i <= |data| && Inv(cfg, c'.s, 0) && Glue(c'.log) == tr
    case Erred => !c'.s.errno.OK?
  }

  /** A turn from `c` to `c'` does what the machine `m` does. */
  predicate Turned(cfg: Config, m: Machine, data: seq<Byte>, c: Cursor, v: Verdict, c': Cursor)
    requires c.i < |data|
  {
    match v
    case Going => c.i < c'.i <= |data| && At(cfg, Run(cfg, m, data[c.i..c'.i]), data, c')
    case Stopped =>
      && c.i < c'.i <= |data|
      && var m' := Run(cfg, m, data[c.i..c'.i]);
      && m'.halt.Exited? && m'.p == c'.s && Inv(cfg, c'.s, 0)
      && Glue(c'.log) == m'.trace && m'.consumed == m.consumed + (c'.i - c.i)
    case Erred => FailsWith(Run(cfg, m, data[c.i..]), c'.s.errno)
  }

  lemma RunSlice(cfg: Config, m: Machine, data: seq<Byte>, i: nat, j: nat, k: nat)
    requires i <= j <= k <= |data|
    ensures Run(cfg, m, data[i..k]) == Run(cfg, Run(cfg, m, data[i..j]), data[j..k])
  {
    hide Step;
    assert data[i..k] == data[i..j] + data[j..k];
    RunConcat(cfg, m, data[i..j], data[j..k]);
  }

  lemma FailsEarly(cfg: Config, m: Machine, data: seq<Byte>, i: nat, j: nat, e: Errno)
    requires i <= j <= |data| && FailsWith(Run(cfg, m, data[i..j]), e)
    ensures FailsWith(Run(cfg, m, data[i..]), e)
  {
    hide Step;
    RunSlice(cfg, m, data, i, j, |data|);
    assert data[i..|data|] == data[i..];
    HaltedStays(cfg, Run(cfg, m, data[i..j]), data[j..|data|]);
  }

  lemma RunOne(cfg: Config, m: Machine, data: seq<Byte>, i: nat)
    requires i < |data|
    ensures Run(cfg, m, data[i..i + 1]) == Step(cfg, m, data[i])
  {
    hide Step;
    RunSnoc(cfg, m, [], data[i]);
    assert data[i..i + 1] == [] + [data[i]];
  }

  /** A mark that stays put while data[i..j] of its kind is taken goes on telling the trace. */
  lemma TellsMore(log: seq<Event>, marks: Marks, data: seq<Byte>, i: nat, j: nat, k: DataKind, tr: Trace)
    requires i <= j <= |data| && Tells(log, marks, data, i, tr) && k in marks
    ensures Tells(log, marks, data, j, Span(tr, k, data[i..j]))
  {
    hide Glue, Span;
    assert data[marks[k]..i] + data[i..j] == data[marks[k]..j];
    SpanSpan(Glue(log), k, data[marks[k]..i], data[i..j]);
    assert k in marks && marks == map[k := marks[k]];
  }

  // ---- The switch -------------------------------------------------------------------------------

  /** The switch and its REEXECUTE, for the states that have no loop of their own. */
  method Switch(cfg: Config, data: seq<Byte>, i: nat, s0: Parser, marks0: Marks, log0: seq<Event>, ghost tr0: Trace)
    returns (s: Parser, marks: Marks, log: seq<Event>, next: Next)
    requires i < |data| && Inv(cfg, s0, 1) && !Bulk(s0.state)
    requires Tells(log0, marks0, data, i, tr0) && MarksFit(Expected(s0.state), marks0)
    requires forall k :: k in marks0 && k.Body? ==> marks0[k] < i
    ensures next == Drive(cfg, s0, tr0, data[i]).next && s == Drive(cfg, s0, tr0, data[i]).p
    ensures next.Consumed? || next.Exit? || next.Fail?
    ensures next.Consumed? ==>
              && Inv(cfg, s, 0) && MarksFit(Expected(s.state), marks) && Started(marks, i + 1)
              && Tells(log, marks, data, i + 1, Drive(cfg, s0, tr0, data[i]).trace)
    ensures next.Exit? ==> Inv(cfg, s, 0) && Glue(log) == Drive(cfg, s0, tr0, data[i]).trace
    ensures next.Fail? ==> !s.errno.OK?
  {
    hide Transition, Inv, Expected, Rank, Glue, Effect;
    s, marks, log, next := s0, marks0, log0, Again;
    ghost var tr := tr0;
    while next.Again?
      invariant next.Again? ==>
          && Inv(cfg, s, 1) && !Bulk(s.state) && Tells(log, marks, data, i, tr)
          && MarksFit(Expected(s.state), marks) && (forall k :: k in marks && k.Body? ==> marks[k] < i)
          && Drive(cfg, s, tr, data[i]) == Drive(cfg, s0, tr0, data[i])
      invariant !next.Again? ==>
          && Drive(cfg, s0, tr0, data[i]) == Outcome(s, tr, next) && !next.Crash?
          && (next.Consumed? || next.Exit? ==> Inv(cfg, s, 0))
          && (next.Consumed? ==>
                MarksFit(Expected(s.state), marks) && Started(marks, i + 1) && Tells(log, marks, data, i + 1, tr))
          && (next.Exit? ==> Glue(log) == tr)
          && (next.Fail? ==> !s.errno.OK?)
      decreases next.Again?, Rank(s.state)
    {
      ghost var p := s;
      var m := Transition(cfg, s, data[i]);
      TransitionInv(cfg, s, data[i]);
      TransitionOrderly(cfg, s, data[i]);
      RankDecreases(cfg, s, data[i]);
      next := m.next;
      if next.Consumed? || next.Exit? || next.Again? {
        marks, log := Perform(data, i, marks, log, m.action, Expected(s.state), tr);
      }
      tr := Effect(m.action, data[i], tr);
      s := m.p;
    }
  }

  /** A turn of the loop in a state without a loop of its own. */
  method SwitchTurn(cfg: Config, data: seq<Byte>, c: Cursor, ghost m: Machine)
    returns (v: Verdict, c': Cursor, ghost tr: Trace)
    requires Ready(cfg, m.trace, data, c) && !Bulk(c.s.state)
    ensures TurnSound(cfg, tr, data, c, v, c') && c'.i == c.i + 1
    ensures Inside(cfg, m, data, c) ==> Turned(cfg, m, data, c, v, c')
  {
    hide Inv, Tells, Drive, Expected, Glue, Bulk;
    var s, marks, log, next := Switch(cfg, data, c.i, c.s, c.marks, c.log, m.trace);
    c', tr := Cursor(s, marks, log, c.i + 1), Drive(cfg, c.s, m.trace, data[c.i]).trace;
    RunOne(cfg, m, data, c.i);
    match next
    case Consumed => v := Going;
    case Exit => v := Stopped;
    case Fail =>
      v := Erred;
      if Inside(cfg, m, data, c) {
        FailsEarly(cfg, m, data, c.i, c'.i, s.errno);
      }
  }

  // ---- Header names -----------------------------------------------------------------------------

  lemma {:induction false} FieldCharsCount(cfg: Config, p: Parser, bytes: seq<Byte>, n: nat)
    ensures FieldChars(cfg, p.(nread := n), bytes) == FieldChars(cfg, p, bytes).(nread := n)
    ensures FieldChars(cfg, p, bytes).nread == p.nread
    decreases |bytes|
  {
    hide FieldChar;
    if bytes != [] {
      FieldCharsCount(cfg, p, bytes[..|bytes| - 1], n);
      FieldCharCount(cfg, FieldChars(cfg, p, bytes[..|bytes| - 1]), bytes[|bytes| - 1], n);
    }
  }

  /** Up to position `j` of a header name, byte by byte. */
  lemma FieldSlice(cfg: Config, m: Machine, data: seq<Byte>, i: nat, j: nat)
    requires i <= j <= |data| && m.halt.Running? && Inv(cfg, m.p, 0) && m.p.state.HeaderField?
    requires TokensIn(cfg, data, i, j)
    ensures if m.p.nread + (j - i) <= cfg.maxHeaderSize
            then Run(cfg, m, data[i..j]) == TookHeader(m, FieldChars(cfg, m.p, data[i..j]), Field, data[i..j])
            else Overflowed(Run(cfg, m, data[i..j]))
    ensures FieldChars(cfg, Count(m.p), data[i..j]) == FieldChars(cfg, m.p, data[i..j]).(nread := m.p.nread + 1)
    ensures FieldChars(cfg, m.p, data[i..j]).state.HeaderField?
  {
    hide Step, FieldChar, Token, Took;
    FieldBytes(cfg, m, data[i..j]);
    FieldCharsCount(cfg, m.p, data[i..j], m.p.nread + 1);
  }

  lemma NameEndStep(cfg: Config, m: Machine, ch: Byte)
    requires m.halt.Running? && m.p.state.HeaderField? && Token(cfg.strict, ch) == 0
    ensures
      if m.p.nread >= cfg.maxHeaderSize then Overflowed(Step(cfg, m, ch))
      else if ch == ':' as int then
        Step(cfg, m, ch) == Machine(m.p.(nread := m.p.nread + 1, state := HeaderValueDiscardWs),
                                    Emit(m.trace, Data(Field, [])), Running, m.consumed + 1)
      else Step(cfg, m, ch).halt.Failed? && Step(cfg, m, ch).p.errno == InvalidHeaderToken
  {
    hide Drive, Transition, Token, Emit;
    NameEndMove(cfg, Count(m.p), ch);
    DriveOnce(cfg, Count(m.p), m.trace, ch, Transition(cfg, Count(m.p), ch));
  }

  lemma NameEndMove(cfg: Config, p: Parser, ch: Byte)
    requires p.state.HeaderField? && Token(cfg.strict, ch) == 0
    ensures Transition(cfg, p, ch) == if ch == ':' as int
                                      then Move(p.(state := HeaderValueDiscardWs), Flush(Field), Consumed)
                                      else Error(p, InvalidHeaderToken)
  {
    hide FieldChar, Token;
  }

  /** The parser's 32-bit byte counter after `n` more header bytes. */
  function AddNread(nread: nat, n: nat): nat {
    (nread + n) % UINT32_SIZE
  }

  lemma InvRecount(cfg: Config, p: Parser, n: nat, s: State)
    requires Inv(cfg, p, 1) && n <= cfg.maxHeaderSize &&
             (s == p.state || s.HeaderValueDiscardWs? || s.HeaderAlmostDone?)
    requires !p.state.ChunkSizeStart?
    ensures Inv(cfg, p.(nread := n, state := s), 0) && Inv(cfg, p.(nread := n, state := s), 1)
  {
  }

  /** The name ends at position `j` with a colon. */
  lemma FieldToColon(cfg: Config, m: Machine, data: seq<Byte>, c: Cursor, s: Parser, j: nat)
    requires Inside(cfg, m, data, c) && c.s.state.HeaderField?
    requires c.i <= j < |data| && TokensIn(cfg, data, c.i, j) && s == FieldChars(cfg, c.s, data[c.i..j])
    requires m.p.nread + (j + 1 - c.i) <= cfg.maxHeaderSize && Token(cfg.strict, data[j]) == 0
    ensures var m' := Run(cfg, m, data[c.i..j + 1]);
            if data[j] == ':' as int then
              m' == Machine(s.(nread := m.p.nread + (j + 1 - c.i), state := HeaderValueDiscardWs),
                            Emit(Span(m.trace, Field, data[c.i..j]), Data(Field, [])), Running,
                            m.consumed + (j + 1 - c.i))
            else m'.halt.Failed? && m'.p.errno == InvalidHeaderToken
  {
    hide Inv, Tells, Token, Step, FieldChar, Glue, Emit, Span, TokensIn;
    FieldSlice(cfg, m, data, c.i, j);
    RunSlice(cfg, m, data, c.i, j, j + 1);
    RunOne(cfg, Run(cfg, m, data[c.i..j]), data, j);
    NameEndStep(cfg, Run(cfg, m, data[c.i..j]), data[j]);
  }

  /** A name that is too long overflows the limit within the bytes its turn counts. */
  lemma FieldOverflows(cfg: Config, m: Machine, data: seq<Byte>, i: nat)
    requires i < |data| && m.halt.Running? && Inv(cfg, m.p, 0) && m.p.state.HeaderField? && cfg.maxHeaderSize > 0
    requires m.p.nread + RunBytes(cfg, m.p, data, i) > cfg.maxHeaderSize
    ensures Overflowed(Run(cfg, m, data[i..i + RunBytes(cfg, m.p, data, i)]))
  {
    hide Inv, Token, Step, FieldChar, TokensIn, NameStop;
    var j := NameStop(cfg, data, i);
    FieldSlice(cfg, m, data, i, j);
    if j < |data| {
      RunSlice(cfg, m, data, i, j, j + 1);
      RunOne(cfg, Run(cfg, m, data[i..j]), data, j);
      if Overflowed(Run(cfg, m, data[i..j])) {
        OverflowStays(cfg, m, data[i..j], data[j]);
        assert data[i..j] + [data[j]] == data[i..j + 1];
      } else {
        NameEndStep(cfg, Run(cfg, m, data[i..j]), data[j]);
      }
    }
  }

  lemma FailedIsFinal(cfg: Config, m: Machine, data: seq<Byte>, i: nat, j: nat)
    requires i <= j <= |data| && !Run(cfg, m, data[i..j]).halt.Running?
    ensures Run(cfg, m, data[i..]) == Run(cfg, m, data[i..j])
  {
    hide Step;
    RunSlice(cfg, m, data, i, j, |data|);
    assert data[i..|data|] == data[i..];
    HaltedStays(cfg, Run(cfg, m, data[i..j]), data[j..|data|]);
  }

  /** The colon after a header name: report the name. */
  method NameCallback(data: seq<Byte>, c: Cursor, ghost tr: Trace, s: Parser, j: nat) returns (c': Cursor)
    requires c.i <= j < |data| && Tells(c.log, c.marks, data, c.i, tr) && Started(c.marks, c.i)
    requires MarksFit(Always(Field), c.marks)
    ensures c'.i == j + 1 && c'.s == s && c'.marks == map[]
    ensures Tells(c'.log, c'.marks, data, c'.i, Emit(Span(tr, Field, data[c.i..j]), Data(Field, [])))
  {
    hide Glue, Emit, Tells, Span;
    TellsMore(c.log, c.marks, data, c.i, j, Field, tr);
    ghost var tr' := Span(tr, Field, data[c.i..j]);
    var marks, log := Perform(data, j, c.marks, c.log, Flush(Field), Always(Field), tr');
    c' := Cursor(s, marks, log, j + 1);
    TellsAll(log, data, j, j + 1, Emit(tr', Data(Field, [])));
  }

  /** A count that tells the truth is below the limit exactly when the 32-bit counter is. */
  lemma CounterIsTrue(cfg: Config, nread: nat, n: nat)
    requires n > 0
    ensures AddNread(nread + 1, n - 1) == (nread + n) % UINT32_SIZE
    ensures CountTells(cfg, nread + n) ==>
            (AddNread(nread + 1, n - 1) > cfg.maxHeaderSize <==> nread + n > cfg.maxHeaderSize)
    ensures nread + n <= cfg.maxHeaderSize ==> AddNread(nread + 1, n - 1) == nread + n
  {
  }

  /** The 32-bit counter at the end of a run of `n` bytes, the first of which has been counted before. */
  function CounterAfter(s: Parser, n: nat): nat
    requires n > 0
  {
    AddNread(s.nread, n - 1)
  }

  /** What the source does with a header name. */
  predicate NameTaken(cfg: Config, tr: Trace, data: seq<Byte>, c: Cursor, v: Verdict, c': Cursor, tr': Trace)
    requires c.i < |data| && c.s.state.HeaderField? && cfg.maxHeaderSize > 0
  {
    var j := NameStop(cfg, data, c.i);
    var s := FieldChars(cfg, c.s, data[c.i..j]);
    var nread := CounterAfter(c.s, RunBytes(cfg, c.s, data, c.i));
    var span := Span(tr, Field, data[c.i..j]);
    if nread > cfg.maxHeaderSize then v.Erred? && c'.s.errno.HeaderOverflow?
    else if j == |data| then v.Going? && c' == c.(s := s.(nread := nread), i := j) && tr' == span
    else if data[j] == ':' as int then
      v.Going? && c'.i == j + 1 && c'.s == s.(nread := nread, state := HeaderValueDiscardWs) &&
      tr' == Emit(span, Data(Field, []))
    else v.Erred? && c'.s.errno == InvalidHeaderToken
  }

  /** s_header_field. The name is counted with one 32-bit addition. */
  method FieldTurn(cfg: Config, data: seq<Byte>, c: Cursor, ghost tr: Trace)
    returns (v: Verdict, c': Cursor, ghost tr': Trace)
    requires Ready(cfg, tr, data, c) && c.s.state.HeaderField?
    ensures TurnSound(cfg, tr', data, c, v, c') && NameTaken(cfg, tr, data, c, v, c', tr')
  {
    hide Inv, Token, Run, FieldChar, FieldChars, Glue, Emit, Tells, Span, TokensIn, NameStop;
    var s, j := FieldRun(cfg, c.s, data, c.i);
    NameStopIs(cfg, data, c.i, j);
    FieldCharsCount(cfg, c.s, data[c.i..j], c.s.nread);
    var nread := AddNread(s.nread, (if j == |data| then j - 1 else j) - c.i);
    tr' := tr;
    if nread > cfg.maxHeaderSize {
      v, c' := Erred, c.(s := s.(errno := HeaderOverflow));
    } else if j == |data| {
      v, c' := Going, c.(s := s.(nread := nread), i := j);
      tr' := Span(tr, Field, data[c.i..j]);
      InvRecount(cfg, s, nread, HeaderField);
      TellsMore(c.log, c.marks, data, c.i, j, Field, tr);
    } else if data[j] == ':' as int {
      v := Going;
      c' := NameCallback(data, c, tr, s.(nread := nread, state := HeaderValueDiscardWs), j);
      tr' := Emit(Span(tr, Field, data[c.i..j]), Data(Field, []));
      InvRecount(cfg, s, nread, HeaderValueDiscardWs);
    } else {
      v, c' := Erred, c.(s := s.(errno := InvalidHeaderToken));
    }
  }

  /** If the count tells the truth, that is what the machine does. */
  lemma NameTurned(cfg: Config, m: Machine, data: seq<Byte>, c: Cursor, v: Verdict, c': Cursor, tr: Trace)
    requires Inside(cfg, m, data, c) && c.s.state.HeaderField?
    requires CountTells(cfg, m.p.nread + RunBytes(cfg, m.p, data, c.i))
    requires TurnSound(cfg, tr, data, c, v, c') && NameTaken(cfg, m.trace, data, c, v, c', tr)
    ensures Turned(cfg, m, data, c, v, c')
  {
    hide Inv, Token, Run, FieldChar, FieldChars, Glue, Emit, Tells, Span, TokensIn, NameStop, CountTells, MarksFit,
      Started;
    var j, n := NameStop(cfg, data, c.i), RunBytes(cfg, c.s, data, c.i);
    CounterIsTrue(cfg, m.p.nread, n);
    FieldSlice(cfg, m, data, c.i, j);
    if m.p.nread + n > cfg.maxHeaderSize {
      FieldOverflows(cfg, m, data, c.i);
      FailsEarly(cfg, m, data, c.i, c.i + n, HeaderOverflow);
    } else if j < |data| {
      FieldToColon(cfg, m, data, c, FieldChars(cfg, c.s, data[c.i..j]), j);
      if v.Erred? {
        FailsEarly(cfg, m, data, c.i, j + 1, InvalidHeaderToken);
      }
    }
  }

  /** With no mark set, the log tells the trace at any position. */
  lemma TellsAll(log: seq<Event>, data: seq<Byte>, i: nat, j: nat, tr: Trace)
    requires i <= |data| && j <= |data| && Tells(log, map[], data, i, tr)
    ensures Tells(log, map[], data, j, tr)
  {
    hide Glue, Span;
  }

  // ---- Header values ----------------------------------------------------------------------------

  lemma {:induction false} ValueCharsCount(cfg: Config, p: Parser, bytes: seq<Byte>, n: nat)
    ensures ValueChars(cfg, p.(nread := n), bytes) == Recount(ValueChars(cfg, p, bytes), n)
    ensures SameCount(p, ValueChars(cfg, p, bytes))
    decreases |bytes|
  {
    hide ValueChar;
    if bytes != [] {
      var front := bytes[..|bytes| - 1];
      ValueCharsCount(cfg, p, front, n);
      if ValueChars(cfg, p, front).Ok? {
        ValueCharCount(cfg, ValueChars(cfg, p, front).p, bytes[|bytes| - 1], n);
      }
    }
  }

  /** The part of a header value up to `j`, byte by byte; `s` is what the loop makes of it. */
  lemma ValueSlice(cfg: Config, m: Machine, data: seq<Byte>, i: nat, j: nat)
    requires i <= j <= |data| && m.halt.Running? && Inv(cfg, m.p, 0) && m.p.state.HeaderValue?
    requires GoodPart(cfg, Count(m.p), data, i, j)
    ensures var s := ValueChars(cfg, Count(m.p), data[i..j]).p;
            && s.state.HeaderValue? && s.nread == m.p.nread + 1
            && if m.p.nread + (j - i) <= cfg.maxHeaderSize
               then Run(cfg, m, data[i..j]) == TookHeader(m, s, Value, data[i..j])
               else Overflowed(Run(cfg, m, data[i..j]))
  {
    hide Step, ValueChar, Took;
    ValueCharsCount(cfg, m.p, data[i..j], m.p.nread + 1);
    ValueBytes(cfg, m, data[i..j]);
  }

  /** Past `clean` bytes of a value, where the count has reached the limit, the run overflows. */
  lemma ValueOverflowsAt(cfg: Config, m: Machine, data: seq<Byte>, i: nat, clean: nat)
    requires i <= clean <= |data| && m.halt.Running? && Inv(cfg, m.p, 0) && m.p.state.HeaderValue?
    requires GoodPart(cfg, Count(m.p), data, i, clean)
    requires m.p.nread + (clean - i) + (if clean == |data| then 0 else 1) > cfg.maxHeaderSize
    ensures Overflowed(Run(cfg, m, data[i..if clean == |data| then clean else clean + 1]))
  {
    hide Step, ValueChar, Took, Inv;
    ValueSlice(cfg, m, data, i, clean);
    if clean < |data| {
      RunSlice(cfg, m, data, i, clean, clean + 1);
      RunOne(cfg, Run(cfg, m, data[i..clean]), data, clean);
      if Overflowed(Run(cfg, m, data[i..clean])) {
        OverflowStays(cfg, m, data[i..clean], data[clean]);
        assert data[i..clean] + [data[clean]] == data[i..clean + 1];
      } else {
        TookFields(m, ValueChars(cfg, Count(m.p), data[i..clean]).p.(nread := m.p.nread + (clean - i)), Value,
                   data[i..clean]);
        OverflowStep(cfg, Run(cfg, m, data[i..clean]), data[clean]);
      }
    }
  }

  /** A value that is too long overflows the limit within the bytes its turn counts. */
  lemma ValueOverflows(cfg: Config, m: Machine, data: seq<Byte>, i: nat)
    requires i < |data| && m.halt.Running? && Inv(cfg, m.p, 0) && m.p.state.HeaderValue? && cfg.maxHeaderSize > 0
    requires m.p.nread + RunBytes(cfg, m.p, data, i) > cfg.maxHeaderSize
    ensures Overflowed(Run(cfg, m, data[i..i + RunBytes(cfg, m.p, data, i)]))
  {
    hide Step, Run, ValueScan, ValueChar, ValueChars, Inv, GoodPart, Overflowed;
    ScanCount(cfg, m.p, data, i, i, m.p.nread + 1);
    ScanFromStart(cfg, Count(m.p), data, i);
    var r := ValueScan(cfg, Count(m.p), data, i, i);
    ValueOverflowsAt(cfg, m, data, i, r.clean);
    OverflowLasts(cfg, m, data, i, if r.clean == |data| then r.clean else r.clean + 1, i + RunBytes(cfg, m.p, data, i));
  }

  lemma OverflowLasts(cfg: Config, m: Machine, data: seq<Byte>, i: nat, j: nat, k: nat)
    requires i <= j <= k <= |data| && Overflowed(Run(cfg, m, data[i..j]))
    ensures Overflowed(Run(cfg, m, data[i..k]))
  {
    hide Step;
    RunSlice(cfg, m, data, i, j, k);
    HaltedStays(cfg, Run(cfg, m, data[i..j]), data[j..k]);
  }

  lemma ValueEndMove(cfg: Config, p: Parser, ch: Byte)
    requires p.state.HeaderValue? && (ch == CR || ch == LF)
    ensures Transition(cfg, p, ch) ==
            Move(p.(state := HeaderAlmostDone), Flush(Value), if ch == CR then Consumed else Again)
  {
    hide ValueChar;
  }

  lemma ValueEndStep(cfg: Config, m: Machine, ch: Byte)
    requires m.halt.Running? && m.p.state.HeaderValue? && (ch == CR || ch == LF) && m.p.nread < cfg.maxHeaderSize
    ensures var q := m.p.(nread := m.p.nread + 1, state := HeaderAlmostDone);
            var tr := Emit(m.trace, Data(Value, []));
            var o := if ch == CR then Outcome(q, tr, Consumed) else Drive(cfg, q, tr, ch);
            Step(cfg, m, ch) ==
              Machine(o.p, o.trace, Halted(o.next), m.consumed + if o.next.Consumed? || o.next.Exit? then 1 else 0)
  {
    hide Transition, Emit, Rank;
    ValueEndMove(cfg, Count(m.p), ch);
    RankDecreases(cfg, Count(m.p), ch);
  }

  /** The byte-by-byte run, on reaching the line end at position `j` of a header value. */
  lemma ValueToLineEnd(cfg: Config, m: Machine, data: seq<Byte>, i: nat, j: nat, s: Parser)
    requires i <= j < |data| && m.halt.Running? && Inv(cfg, m.p, 0) && m.p.state.HeaderValue?
    requires GoodPart(cfg, Count(m.p), data, i, j) && ValueChars(cfg, Count(m.p), data[i..j]) == Ok(s)
    requires data[j] == CR || data[j] == LF
    requires m.p.nread + (j - i) < cfg.maxHeaderSize
    ensures var q := s.(nread := m.p.nread + (j - i) + 1, state := HeaderAlmostDone);
            var tr := Emit(Span(m.trace, Value, data[i..j]), Data(Value, []));
            var o := if data[j] == CR then Outcome(q, tr, Consumed) else Drive(cfg, q, tr, data[j]);
            Run(cfg, m, data[i..j + 1]) ==
              Machine(o.p, o.trace, Halted(o.next),
                      m.consumed + (j - i) + if o.next.Consumed? || o.next.Exit? then 1 else 0)
  {
    hide ValueChar, ValueChars, Inv, Step, Drive, Emit, Span, GoodPart, Run;
    ValueSlice(cfg, m, data, i, j);
    var m1 := Run(cfg, m, data[i..j]);
    RunSlice(cfg, m, data, i, j, j + 1);
    RunOne(cfg, m1, data, j);
    ValueEndStep(cfg, m1, data[j]);
  }

  /** A bad byte in a value. */
  lemma ValueRejected(cfg: Config, m: Machine, data: seq<Byte>, i: nat, s: Parser, j: nat, clean: nat, e: Errno)
    requires i <= j < |data| && m.halt.Running? && Inv(cfg, m.p, 0) && m.p.state.HeaderValue?
    requires Scanned(cfg, Count(m.p), data, i, Scan(s, j, clean))
    requires data[j] != CR && data[j] != LF && ValueChar(cfg, s, data[j]) == Bad(e) && !e.OK?
    ensures FailsWith(Run(cfg, m, data[i..]), e)
  {
    hide ValueChar, Inv, Step, Took;
    if m.p.nread + (clean - i) >= cfg.maxHeaderSize {
      ValueOverflowsAt(cfg, m, data, i, clean);
      FailsEarly(cfg, m, data, i, clean + 1, e);
    } else {
      ValueSlice(cfg, m, data, i, j);
      var m1 := Run(cfg, m, data[i..j]);
      TookFields(m, s.(nread := m.p.nread + (j - i)), Value, data[i..j]);
      ValueCharCount(cfg, s, data[j], m1.p.nread);
      RunSlice(cfg, m, data, i, j, j + 1);
      RunOne(cfg, m1, data, j);
      ValueStep(cfg, m1, data[j]);
      FailsEarly(cfg, m, data, i, j + 1, e);
    }
  }

  /** The line end after a header value: report the value. */
  method ValueCallback(cfg: Config, data: seq<Byte>, c: Cursor, ghost tr: Trace, q: Parser, j: nat)
    returns (v: Verdict, c': Cursor, ghost tr': Trace)
    requires c.i <= j < |data| && Tells(c.log, c.marks, data, c.i, tr) && Started(c.marks, c.i)
    requires MarksFit(Always(Value), c.marks) && Inv(cfg, q, 0) && Inv(cfg, q, 1) && q.state.HeaderAlmostDone?
    requires data[j] == CR || data[j] == LF
    ensures TurnSound(cfg, tr', data, c, v, c') && c'.i == j + 1
    ensures LineEnded(cfg, q, Span(tr, Value, data[c.i..j]), data[j], v, c', tr')
  {
    hide Inv, Glue, Tells, Emit, Span, Drive;
    ghost var t := Span(tr, Value, data[c.i..j]);
    TellsMore(c.log, c.marks, data, c.i, j, Value, tr);
    var marks, log := Perform(data, j, c.marks, c.log, Flush(Value), Always(Value), t);
    if data[j] == CR {
      v, c', tr' := Going, Cursor(q, marks, log, j + 1), Emit(t, Data(Value, []));
      TellsAll(log, data, j, j + 1, tr');
    } else {
      var s, marks', log', next := Switch(cfg, data, j, q, marks, log, Emit(t, Data(Value, [])));
      c', tr' := Cursor(s, marks', log', j + 1), Drive(cfg, q, Emit(t, Data(Value, [])), data[j]).trace;
      v := if next.Consumed? then Going else if next.Exit? then Stopped else Erred;
    }
  }

  /** What the source does with a header value. */
  predicate ValueTaken(cfg: Config, tr: Trace, data: seq<Byte>, c: Cursor, v: Verdict, c': Cursor, tr': Trace)
    requires c.i < |data| && c.s.state.HeaderValue? && cfg.maxHeaderSize > 0
  {
    var r := ValueScan(cfg, c.s, data, c.i, c.i);
    var j := r.stop;
    var nread := CounterAfter(c.s, RunBytes(cfg, c.s, data, c.i));
    var span := Span(tr, Value, data[c.i..j]);
    if j < |data| && data[j] != CR && data[j] != LF then
      v.Erred? && ValueChar(cfg, r.s, data[j]) == Bad(c'.s.errno)
    else if nread > cfg.maxHeaderSize then v.Erred? && c'.s.errno.HeaderOverflow?
    else if j == |data| then v.Going? && c' == c.(s := r.s.(nread := nread), i := j) && tr' == span
    else c'.i == j + 1 && LineEnded(cfg, r.s.(nread := nread, state := HeaderAlmostDone), span, data[j], v, c', tr')
  }

  /** What the source does at the line end behind a value. */
  predicate LineEnded(cfg: Config, q: Parser, span: Trace, ch: Byte, v: Verdict, c': Cursor, tr': Trace) {
    var t := Emit(span, Data(Value, []));
    var o := if ch == CR then Outcome(q, t, Consumed) else Drive(cfg, q, t, ch);
    && c'.s == o.p && tr' == o.trace
    && (v.Going? <==> o.next.Consumed?) && (v.Stopped? <==> o.next.Exit?) && (v.Erred? <==> o.next.Fail?)
  }

  /** s_header_value. As for names, one 32-bit addition counts the value. */
  method ValueTurn(cfg: Config, data: seq<Byte>, c: Cursor, ghost tr: Trace)
    returns (v: Verdict, c': Cursor, ghost tr': Trace)
    requires Ready(cfg, tr, data, c) && c.s.state.HeaderValue?
    ensures TurnSound(cfg, tr', data, c, v, c') && ValueTaken(cfg, tr, data, c, v, c', tr')
  {
    hide Inv, Run, ValueChar, ValueChars, ValueScan, Glue, Emit, Tells, Span, GoodPart, Drive, Scanned, LineEnded;
    var s, j, end, clean := ValueRun(cfg, c.s, data, c.i);
    tr' := tr;
    if end.Rejected? {
      v, c' := Erred, c.(s := s.(errno := end.e));
      return;
    }
    var nread := AddNread(c.s.nread, (if j == |data| then j - 1 else j) - c.i);
    if nread > cfg.maxHeaderSize {
      v, c' := Erred, c.(s := s.(errno := HeaderOverflow));
    } else if j == |data| {
      v, c' := Going, c.(s := s.(nread := nread), i := j);
      tr' := Span(tr, Value, data[c.i..j]);
      InvRecount(cfg, s, nread, HeaderValue);
      TellsMore(c.log, c.marks, data, c.i, j, Value, tr);
    } else {
      InvRecount(cfg, s, nread, HeaderAlmostDone);
      v, c', tr' := ValueCallback(cfg, data, c, tr, s.(nread := nread, state := HeaderAlmostDone), j);
    }
  }

  /** If the count tells the truth, or the value is bad, that is what the machine does. */
  lemma ValueTurned(cfg: Config, m: Machine, data: seq<Byte>, c: Cursor, v: Verdict, c': Cursor, tr: Trace)
    requires Inside(cfg, m, data, c) && c.s.state.HeaderValue?
    requires CountTells(cfg, m.p.nread + RunBytes(cfg, m.p, data, c.i))
    requires TurnSound(cfg, tr, data, c, v, c') && ValueTaken(cfg, m.trace, data, c, v, c', tr)
    ensures Turned(cfg, m, data, c, v, c')
  {
    hide Inv, Run, ValueChar, ValueChars, ValueScan, Glue, Emit, Tells, Span, GoodPart, CountTells, Drive, MarksFit,
      Started, LineEnded;
    ScanCount(cfg, m.p, data, c.i, c.i, m.p.nread + 1);
    ScanFromStart(cfg, c.s, data, c.i);
    var r, n := ValueScan(cfg, c.s, data, c.i, c.i), RunBytes(cfg, c.s, data, c.i);
    CounterIsTrue(cfg, m.p.nread, n);
    if r.stop < |data| && data[r.stop] != CR && data[r.stop] != LF {
      ValueRejected(cfg, m, data, c.i, r.s, r.stop, r.clean, c'.s.errno);
    } else if m.p.nread + n > cfg.maxHeaderSize {
      ValueOverflows(cfg, m, data, c.i);
      FailsEarly(cfg, m, data, c.i, c.i + n, HeaderOverflow);
    } else {
      ValueSlice(cfg, m, data, c.i, r.stop);
      if r.stop < |data| {
        ValueEnded(cfg, m, data, c, r.s, r.stop, v, c', tr);
      }
    }
  }

  lemma ValueEnded(cfg: Config, m: Machine, data: seq<Byte>, c: Cursor, s: Parser, j: nat,
                   v: Verdict, c': Cursor, tr: Trace)
    requires Inside(cfg, m, data, c) && c.s.state.HeaderValue? && TurnSound(cfg, tr, data, c, v, c')
    requires c.i <= j < |data| && GoodPart(cfg, c.s, data, c.i, j) && ValueChars(cfg, c.s, data[c.i..j]) == Ok(s)
    requires (data[j] == CR || data[j] == LF) && m.p.nread + (j - c.i) < cfg.maxHeaderSize && c'.i == j + 1
    requires LineEnded(cfg, s.(nread := m.p.nread + (j - c.i) + 1, state := HeaderAlmostDone),
                       Span(m.trace, Value, data[c.i..j]), data[j], v, c', tr)
    ensures Turned(cfg, m, data, c, v, c')
  {
    hide Inv, Run, ValueChar, ValueChars, Glue, Emit, Tells, Span, GoodPart, Drive, MarksFit, Started;
    ValueToLineEnd(cfg, m, data, c.i, j, s);
    if v.Erred? {
      FailsEarly(cfg, m, data, c.i, j + 1, c'.s.errno);
    }
  }

  // ---- Bodies -----------------------------------------------------------------------------------

  lemma BodyTakenInv(cfg: Config, p: Parser, n: nat)
    requires Inv(cfg, p, 0) && BodyRoom(p, n) && n > 0
    ensures Inv(cfg, BodyTaken(p, n), 0)
    ensures MarksFit(Expected(BodyTaken(p, n).state), map[]) || BodyTaken(p, n).state.ChunkDataAlmostDone?
  {
  }

  lemma BodyTakenMark(p: Parser, n: nat)
    requires BodyRoom(p, n) && n > 0
    ensures p.state.ChunkData? && n == p.contentLength ==> Expected(BodyTaken(p, n).state) == Maybe(Body)
  {
  }

  lemma BodyTells(log: seq<Event>, data: seq<Byte>, i: nat, j: nat, tr: Trace)
    requires i <= j <= |data| && Tells(log, map[], data, i, tr)
    ensures Tells(log, map[Body := i], data, j, Span(tr, Body, data[i..j]))
  {
    hide Glue, Span;
    TellsNoMark(log, map[], data, i, tr);
    var marks: Marks := map[Body := i];
    assert forall k :: k in marks ==> k == Body && marks == map[k := i];
  }

  /** `n` body bytes taken at once, ending the buffer or the chunk. */
  lemma BodyTurned(cfg: Config, m: Machine, data: seq<Byte>, c: Cursor, n: nat)
    requires Inside(cfg, m, data, c) && c.marks == map[] && c.s == m.p && 0 < n <= |data| - c.i && BodyRoom(m.p, n)
    requires c.i + n < |data| ==> m.p.state.ChunkData? && n == m.p.contentLength
    ensures Turned(cfg, m, data, c, Going, c.(s := BodyTaken(m.p, n), marks := map[Body := c.i], i := c.i + n))
  {
    hide Inv, Step, Run, Glue, Emit, Span, Tells, BodyTaken, BodyRoom, Expected;
    BodyBytes(cfg, m, data[c.i..c.i + n]);
    BodyTakenInv(cfg, m.p, n);
    BodyTells(c.log, data, c.i, c.i + n, m.trace);
    BodyTakenMark(m.p, n);
  }

  lemma BodyReady(cfg: Config, m: Machine, data: seq<Byte>, c: Cursor)
    requires Inside(cfg, m, data, c) && (c.s.state.BodyIdentity? || c.s.state.BodyIdentityEof? || c.s.state.ChunkData?)
    ensures c.s == m.p && c.marks == map[]
    ensures !c.s.state.BodyIdentityEof? ==> c.s.contentLength != 0 && c.s.contentLength != ULLONG_MAX
    ensures !c.s.state.BodyIdentityEof? ==> 0 < c.s.contentLength < ULLONG_MAX
    ensures c.s.state.ChunkData? ==> c.s.flags.chunked
  {
    hide Tells;
  }

  /** s_body_identity, s_body_identity_eof and s_chunk_data. */
  method BodyTurn(cfg: Config, data: seq<Byte>, c: Cursor, ghost m: Machine) returns (v: Verdict, c': Cursor)
    requires Inside(cfg, m, data, c) && (c.s.state.BodyIdentity? || c.s.state.BodyIdentityEof? || c.s.state.ChunkData?)
    ensures Turned(cfg, m, data, c, v, c')
  {
    hide Inv, Step, Run, Glue, Emit, Tells, Span, Drive, Turned, Expected, Started, MarksFit, Overflows;
    BodyReady(cfg, m, data, c);
    var left := |data| - c.i;
    if c.s.state.BodyIdentityEof? {
      v, c' := Going, c.(marks := map[Body := c.i], i := |data|);
      BodyTurned(cfg, m, data, c, left);
    } else {
      var toRead := if c.s.contentLength < left then c.s.contentLength else left;
      var remaining := c.s.contentLength - toRead;
      if c.s.state.ChunkData? {
        v, c' := Going, c.(s := c.s.(contentLength := remaining,
                                            state := if remaining == 0 then ChunkDataAlmostDone else ChunkData),
                           marks := map[Body := c.i], i := c.i + toRead);
        BodyTurned(cfg, m, data, c, toRead);
      } else if remaining > 0 {
        v, c' := Going, c.(s := c.s.(contentLength := remaining), marks := map[Body := c.i], i := c.i + toRead);
        BodyTurned(cfg, m, data, c, toRead);
      } else {
        v, c' := LastBodyTurn(cfg, data, c, m, toRead);
      }
    }
  }

  /** The last bytes of a body of known length, and the end of the message. */
  method LastBodyTurn(cfg: Config, data: seq<Byte>, c: Cursor, ghost m: Machine, n: nat)
    returns (v: Verdict, c': Cursor)
    requires Inside(cfg, m, data, c) && c.s.state.BodyIdentity? && n == c.s.contentLength <= |data| - c.i
    ensures Turned(cfg, m, data, c, v, c')
  {
    hide Inv, Step, Run, Glue, Emit, Tells, Span, Drive, Overflows, Bulk, Expected, Started;
    LastBodyByte(cfg, m, data, c, n);
    var last := c.i + n - 1;
    ghost var tr := Span(m.trace, Body, data[c.i..last + 1]);
    DoneReady(cfg, c.s, c.marks);
    var log := LastBodyCallback(data, c, last, m.trace);
    var q := c.s.(contentLength := 0, state := MessageDone);
    var s', marks', log', next := Switch(cfg, data, last, q, map[], log, tr);
    c' := Cursor(s', marks', log', last + 1);
    match next
    case Consumed => v := Going;
    case Exit => v := Stopped;
    case Fail =>
      v := Erred;
      FailsEarly(cfg, m, data, c.i, c'.i, s'.errno);
  }

  lemma DoneReady(cfg: Config, p: Parser, marks: Marks)
    requires Inv(cfg, p, 1) && p.state.BodyIdentity? && MarksFit(Expected(p.state), marks)
    ensures marks == map[]
    ensures Inv(cfg, p.(contentLength := 0, state := MessageDone), 1)
    ensures MarksFit(Expected(MessageDone), map[]) && !Bulk(MessageDone)
  {
  }

  /** The callback for the last bytes of a body. */
  method LastBodyCallback(data: seq<Byte>, c: Cursor, last: nat, ghost tr: Trace) returns (log: seq<Event>)
    requires c.i <= last < |data| && Tells(c.log, c.marks, data, c.i, tr) && c.marks == map[]
    ensures Tells(log, map[], data, last, Span(tr, Body, data[c.i..last + 1]))
  {
    hide Glue, Emit, Span, Tells;
    TellsNoMark(c.log, c.marks, data, c.i, tr);
    log := CallbackData(data, last + 1, c.i, c.log, Body, Span(tr, Body, data[c.i..last + 1]));
    TellsNothing(log, data, last, Span(tr, Body, data[c.i..last + 1]));
  }

  lemma TellsNoMark(log: seq<Event>, marks: Marks, data: seq<Byte>, i: nat, tr: Trace)
    requires i <= |data| && Tells(log, marks, data, i, tr) && marks == map[]
    ensures tr == Glue(log)
  {
    hide Glue;
  }

  lemma TellsNothing(log: seq<Event>, data: seq<Byte>, i: nat, tr: Trace)
    requires i <= |data| && Glue(log) == tr
    ensures Tells(log, map[], data, i, tr)
  {
    hide Glue, Span;
  }

  lemma LastBodyByte(cfg: Config, m: Machine, data: seq<Byte>, c: Cursor, n: nat)
    requires Inside(cfg, m, data, c) && c.s.state.BodyIdentity? && n == c.s.contentLength <= |data| - c.i
    ensures n > 0
    ensures var tr := Span(m.trace, Body, data[c.i..c.i + n]);
            var o := Drive(cfg, m.p.(contentLength := 0, state := MessageDone), tr, data[c.i + n - 1]);
            Run(cfg, m, data[c.i..c.i + n]) ==
              Machine(o.p, o.trace, Halted(o.next),
                      m.consumed + (n - 1) + if o.next.Consumed? || o.next.Exit? then 1 else 0)
  {
    hide Step, Run, Glue, Emit, Tells, Span, Drive;
    var last := c.i + n - 1;
    BodyBytes(cfg, m, data[c.i..last]);
    var m1 := Run(cfg, m, data[c.i..last]);
    RunSlice(cfg, m, data, c.i, last, last + 1);
    RunOne(cfg, m1, data, last);
    LastBodyStep(cfg, m1, data[last]);
    assert data[c.i..last] + [data[last]] == data[c.i..last + 1];
    SpanSpan(m.trace, Body, data[c.i..last], [data[last]]);
  }

  lemma LastBodyStep(cfg: Config, m: Machine, ch: Byte)
    requires m.halt.Running? && m.p.state.BodyIdentity? && m.p.contentLength == 1
    ensures var o := Drive(cfg, m.p.(contentLength := 0, state := MessageDone), Span(m.trace, Body, [ch]), ch);
            Step(cfg, m, ch) == Machine(o.p, o.trace, Halted(o.next),
                                        m.consumed + if o.next.Consumed? || o.next.Exit? then 1 else 0)
  {
    hide Emit, Transition;
    LastBodyMove(cfg, m.p, ch);
    RankDecreases(cfg, m.p, ch);
  }

  lemma LastBodyMove(cfg: Config, p: Parser, ch: Byte)
    requires p.state.BodyIdentity? && p.contentLength == 1
    ensures Transition(cfg, p, ch) == Move(p.(contentLength := 0, state := MessageDone), Put(Body), Again)
  {
  }

  // ---- A whole turn -----------------------------------------------------------------------------

  /** The code for a state; `m` matters only where it is where the cursor is. */
  method StateTurn(cfg: Config, data: seq<Byte>, c: Cursor, ghost m: Machine)
    returns (v: Verdict, c': Cursor, ghost tr: Trace)
    requires Ready(cfg, m.trace, data, c) && (!ParsingHeader(c.s.state) ==> Inside(cfg, m, data, c))
    ensures TurnSound(cfg, tr, data, c, v, c')
    ensures ParsingHeader(c.s.state) && !v.Erred? ==> c'.i == c.i + RunBytes(cfg, c.s, data, c.i)
    ensures Inside(cfg, m, data, c) &&
            (ParsingHeader(c.s.state) ==> CountTells(cfg, m.p.nread + RunBytes(cfg, m.p, data, c.i))) ==>
              Turned(cfg, m, data, c, v, c')
  {
    hide Inv, Step, Run, Glue, Tells, Bulk, Turned, TurnSound, TakenTo, NameStop, ValueScan, CountTells, MarksFit,
      Started;
    if c.s.state.HeaderField? {
      v, c', tr := FieldTurn(cfg, data, c, m.trace);
      if Inside(cfg, m, data, c) && CountTells(cfg, m.p.nread + RunBytes(cfg, m.p, data, c.i)) {
        NameTurned(cfg, m, data, c, v, c', tr);
      }
    } else if c.s.state.HeaderValue? {
      v, c', tr := ValueTurn(cfg, data, c, m.trace);
      if Inside(cfg, m, data, c) && CountTells(cfg, m.p.nread + RunBytes(cfg, m.p, data, c.i)) {
        ValueTurned(cfg, m, data, c, v, c', tr);
      }
    } else if c.s.state.BodyIdentity? || c.s.state.BodyIdentityEof? || c.s.state.ChunkData? {
      v, c' := BodyTurn(cfg, data, c, m);
      tr := TakenTo(cfg, m, data, c.i, c'.i).trace;
      TurnedIsSound(cfg, m, data, c, v, c');
    } else {
      NotBulk(c.s.state);
      v, c', tr := SwitchTurn(cfg, data, c, m);
    }
  }

  /**
   One turn of the outer loop: count the byte, then do what the state says. The turn does what the machine
   does, unless the 32-bit counter passes for one below the limit and nothing else is wrong; then the
   machine overflows.
   */
  method Turn(cfg: Config, data: seq<Byte>, c: Cursor, ghost m: Machine)
    returns (v: Verdict, c': Cursor, ghost m': Machine)
    requires At(cfg, m, data, c) && c.i < |data|
    ensures v.Going? ==> c.i < c'.i <= |data| && At(cfg, m', data, c') &&
                         (CountsRight(cfg, m.p, data, c.i) ==> m' == Run(cfg, m, data[c.i..c'.i]))
    ensures v.Stopped? ==> c.i < c'.i <= |data| && Inv(cfg, c'.s, 0)
    ensures v.Erred? ==> !c'.s.errno.OK?
    ensures Turned(cfg, m, data, c, v, c') <==> CountsRight(cfg, m.p, data, c.i) || v.Erred?
  {
    hide Inv, Step, Run, Glue, Tells, Bulk, Turned, CountsRight, TurnSound, AfterTurn, TakenTo;
    var s := c.s;
    ghost var tr;
    if ParsingHeader(s.state) {
      s := s.(nread := AddNread(s.nread, 1));
      if s.nread > cfg.maxHeaderSize {
        v, c' := Erred, c.(s := s.(errno := HeaderOverflow));
        m' := m;
        CountOverflows(cfg, m, data, c, c');
        return;
      }
    }
    var d := c.(s := s);
    CountReady(cfg, m, data, c, d);
    v, c', tr := StateTurn(cfg, data, d, m);
    TurnedWhenRight(cfg, m, data, c, d, v, c', tr);
    m' := AfterTurn(cfg, m, data, c, c', tr);
    AfterTurnAt(cfg, m, data, c, d, v, c', tr);
  }

  /** The machine after the bytes from `i` up to `j`. */
  function TakenTo(cfg: Config, m: Machine, data: seq<Byte>, i: nat, j: nat): Machine {
    if i <= j <= |data| then Run(cfg, m, data[i..j]) else m
  }

  /** A machine at the cursor after a turn: the machine the byte-by-byte run leads to, if it does. */
  function AfterTurn(cfg: Config, m: Machine, data: seq<Byte>, c: Cursor, c': Cursor, tr: Trace): Machine
    requires c.i < |data|
  {
    if CountsRight(cfg, m.p, data, c.i) then TakenTo(cfg, m, data, c.i, c'.i) else Machine(c'.s, tr, Running, 0)
  }

  lemma AfterTurnAt(cfg: Config, m: Machine, data: seq<Byte>, c: Cursor, d: Cursor, v: Verdict, c': Cursor, tr: Trace)
    requires c.i == d.i < |data| && TurnSound(cfg, tr, data, d, v, c')
    requires CountsRight(cfg, m.p, data, c.i) ==> Turned(cfg, m, data, c, v, c')
    ensures var m' := AfterTurn(cfg, m, data, c, c', tr);
            v.Going? ==> c.i < c'.i <= |data| && At(cfg, m', data, c') &&
                         (CountsRight(cfg, m.p, data, c.i) ==> m' == Run(cfg, m, data[c.i..c'.i]))
    ensures v.Stopped? ==> c.i < c'.i <= |data| && Inv(cfg, c'.s, 0)
    ensures v.Erred? ==> !c'.s.errno.OK?
  {
    hide Inv, Tells, Run, Glue, Expected, Started, MarksFit, CountsRight;
  }

  lemma TurnedIsSound(cfg: Config, m: Machine, data: seq<Byte>, c: Cursor, v: Verdict, c': Cursor)
    requires c.i < |data| && Turned(cfg, m, data, c, v, c')
    ensures TurnSound(cfg, TakenTo(cfg, m, data, c.i, c'.i).trace, data, c, v, c')
  {
    hide Inv, Tells, Run, Glue, Expected, Started, MarksFit;
  }

  lemma NotBulk(s: State)
    requires !s.HeaderField? && !s.HeaderValue? && !s.BodyIdentity? && !s.BodyIdentityEof? && !s.ChunkData?
    ensures !Bulk(s)
  {
  }

  /** The limit is exceeded by the first byte of a turn. */
  lemma CountOverflows(cfg: Config, m: Machine, data: seq<Byte>, c: Cursor, c': Cursor)
    requires c.i < |data| && m.halt.Running? && Overflows(cfg, m.p) && c'.s.errno.HeaderOverflow?
    ensures Turned(cfg, m, data, c, Erred, c') && TurnSound(cfg, m.trace, data, c, Erred, c')
  {
    hide Inv, Run, Glue, Tells, Drive;
    RunOne(cfg, m, data, c.i);
    OverflowStep(cfg, m, data[c.i]);
    FailsEarly(cfg, m, data, c.i, c.i + 1, HeaderOverflow);
  }

  lemma CountReady(cfg: Config, m: Machine, data: seq<Byte>, c: Cursor, d: Cursor)
    requires At(cfg, m, data, c) && c.i < |data| && (ParsingHeader(c.s.state) ==> d.s.nread <= cfg.maxHeaderSize)
    requires d == c.(s := if ParsingHeader(c.s.state) then c.s.(nread := AddNread(c.s.nread, 1)) else c.s)
    ensures Ready(cfg, m.trace, data, d)
    ensures !Overflows(cfg, m.p) ==> Inside(cfg, m, data, d)
  {
    hide Tells, Expected, Started, MarksFit;
    if !Overflows(cfg, m.p) {
      CountInv(cfg, c.s);
    }
  }

  lemma SameRunBytes(cfg: Config, p: Parser, data: seq<Byte>, i: nat, n: nat)
    requires i < |data| && cfg.maxHeaderSize > 0
    ensures RunBytes(cfg, p.(nread := n), data, i) == RunBytes(cfg, p, data, i)
  {
    hide ValueScan, NameStop;
    ScanCount(cfg, p, data, i, i, n);
  }

  /** Where the counter does not tell the truth, the machine has overflowed by the end of the turn. */
  lemma WrongCountOverflows(cfg: Config, m: Machine, data: seq<Byte>, i: nat, k: nat)
    requires i < k <= |data| && m.halt.Running? && Inv(cfg, m.p, 0) && !CountsRight(cfg, m.p, data, i)
    requires m.p.nread < cfg.maxHeaderSize ==> k - i >= RunBytes(cfg, m.p, data, i)
    ensures Overflowed(Run(cfg, m, data[i..k]))
  {
    hide Step, Run, Inv, RunBytes, Overflowed;
    if m.p.nread >= cfg.maxHeaderSize {
      RunOne(cfg, m, data, i);
      OverflowStep(cfg, m, data[i]);
      OverflowIs(Step(cfg, m, data[i]));
      OverflowLasts(cfg, m, data, i, i + 1, k);
    } else if m.p.state.HeaderField? {
      FieldOverflows(cfg, m, data, i);
      OverflowLasts(cfg, m, data, i, i + RunBytes(cfg, m.p, data, i), k);
    } else if m.p.state.HeaderValue? {
      ValueOverflows(cfg, m, data, i);
      OverflowLasts(cfg, m, data, i, i + RunBytes(cfg, m.p, data, i), k);
    } else {
      OneByte(cfg, m.p, data, i);
    }
  }

  lemma OverflowIs(m: Machine)
    requires m.halt.Failed? && m.p.errno == HeaderOverflow
    ensures Overflowed(m)
  {
  }

  lemma OneByte(cfg: Config, p: Parser, data: seq<Byte>, i: nat)
    requires i < |data| && cfg.maxHeaderSize > 0 && !p.state.HeaderField? && !p.state.HeaderValue?
    ensures RunBytes(cfg, p, data, i) == 1
  {
  }

  /** A turn does what the machine does exactly when its counting is right, errors apart. */
  lemma TurnedWhenRight(cfg: Config, m: Machine, data: seq<Byte>, c: Cursor, d: Cursor, v: Verdict, c': Cursor,
                        tr: Trace)
    requires At(cfg, m, data, c) && c.i < |data| && TurnSound(cfg, tr, data, d, v, c')
    requires d == c.(s := if ParsingHeader(c.s.state) then c.s.(nread := AddNread(c.s.nread, 1)) else c.s)
    requires ParsingHeader(c.s.state) ==> d.s.nread <= cfg.maxHeaderSize
    requires ParsingHeader(c.s.state) && !v.Erred? ==>
               cfg.maxHeaderSize > 0 && c'.i == c.i + RunBytes(cfg, d.s, data, c.i)
    requires !Overflows(cfg, m.p) &&
             (ParsingHeader(m.p.state) ==> CountTells(cfg, m.p.nread + RunBytes(cfg, m.p, data, c.i))) ==>
               Turned(cfg, m, data, d, v, c')
    ensures Turned(cfg, m, data, c, v, c') <==> CountsRight(cfg, m.p, data, c.i) || v.Erred?
  {
    hide Inv, Tells, Run, Glue, Expected, RunBytes, Overflowed, Started, MarksFit;
    if !CountsRight(cfg, m.p, data, c.i) {
      if v.Erred? {
        WrongCountOverflows(cfg, m, data, c.i, |data|);
        assert data[c.i..|data|] == data[c.i..];
        OverflowFails(Run(cfg, m, data[c.i..]), c'.s.errno);
      } else {
        SameRunBytes(cfg, c.s, data, c.i, d.s.nread);
        WrongCountOverflows(cfg, m, data, c.i, c'.i);
        OverflowFails(Run(cfg, m, data[c.i..c'.i]), HeaderOverflow);
      }
    }
  }

  lemma OverflowFails(m: Machine, e: Errno)
    requires Overflowed(m)
    ensures !e.OK? ==> FailsWith(m, e)
    ensures m.halt.Failed?
  {
  }

  // ---- Whole buffers ----------------------------------------------------------------------------

  /** No turn that may begin in the buffer is miscounted by the 32-bit counter. */
  predicate AllCounted(cfg: Config, m: Machine, data: seq<Byte>) {
    forall i: nat :: i < |data| && Run(cfg, m, data[..i]).halt.Running? ==>
      CountsRight(cfg, Run(cfg, m, data[..i]).p, data, i)
  }

  /** What the run of all of `data` is known to be after a turn that ends it. */
  predicate Ended(m: Machine, consumed: nat, v: Verdict, c': Cursor) {
    match v
    case Going => true
    case Stopped => m.halt.Exited? && m.p == c'.s && Glue(c'.log) == m.trace && m.consumed == consumed + c'.i
    case Erred => FailsWith(m, c'.s.errno)
  }

  /** After a turn that does what the machine does. */
  lemma TurnedAdvances(cfg: Config, m0: Machine, data: seq<Byte>, c: Cursor, v: Verdict, c': Cursor)
    requires c.i < |data| && Run(cfg, m0, data[..c.i]).halt.Running?
    requires Turned(cfg, Run(cfg, m0, data[..c.i]), data, c, v, c')
    ensures v.Going? ==> Run(cfg, m0, data[..c'.i]) == Run(cfg, Run(cfg, m0, data[..c.i]), data[c.i..c'.i])
    ensures Ended(Run(cfg, m0, data), m0.consumed, v, c')
  {
    hide Inv, Step, Glue, Tells, Run;
    var m := Run(cfg, m0, data[..c.i]);
    ConsumedWhileRunning(cfg, m0, data[..c.i]);
    RunSlice(cfg, m0, data, 0, c.i, |data|);
    assert data[0..|data|] == data && data[0..c.i] == data[..c.i] && data[c.i..|data|] == data[c.i..];
    if v.Going? {
      RunSlice(cfg, m0, data, 0, c.i, c'.i);
      assert data[0..c'.i] == data[..c'.i];
    } else if v.Stopped? {
      FailedIsFinal(cfg, m, data, c.i, c'.i);
    }
  }

  /** Wherever a run is miscounted, the machine overflows, if not there then later. */
  lemma MiscountedOverflows(cfg: Config, m: Machine, data: seq<Byte>, i: nat)
    requires i < |data| && m.halt.Running? && Inv(cfg, m.p, 0)
    requires Run(cfg, m, data[..i]).halt.Running? && !CountsRight(cfg, Run(cfg, m, data[..i]).p, data, i)
    ensures Overflowed(Run(cfg, m, data)) && !AllCounted(cfg, m, data)
  {
    hide Inv, Step, Run, Overflowed, CountsRight;
    RunInv(cfg, m, data[..i]);
    RunSlice(cfg, m, data, 0, i, |data|);
    assert data[0..|data|] == data && data[0..i] == data[..i];
    WrongCountOverflows(cfg, Run(cfg, m, data[..i]), data, i, |data|);
  }

  /** A buffer on which the machine keeps within the header limit is counted rightly. */
  lemma CountedOrOverflows(cfg: Config, m: Machine, data: seq<Byte>)
    requires m.halt.Running? && Inv(cfg, m.p, 0)
    ensures AllCounted(cfg, m, data) || Overflowed(Run(cfg, m, data))
  {
    hide Inv, Run, Overflowed, CountsRight;
    if !AllCounted(cfg, m, data) {
      var i: nat :| i < |data| && Run(cfg, m, data[..i]).halt.Running? &&
          !CountsRight(cfg, Run(cfg, m, data[..i]).p, data, i);
      MiscountedOverflows(cfg, m, data, i);
    }
  }

  /** So is every buffer that is short enough for the counter. */
  lemma ShortIsCounted(cfg: Config, m: Machine, data: seq<Byte>)
    requires m.halt.Running? && Inv(cfg, m.p, 0) && |data| + cfg.maxHeaderSize < UINT32_SIZE
    ensures AllCounted(cfg, m, data)
  {
    hide Run, RunBytes;
    forall i: nat | i < |data| && Run(cfg, m, data[..i]).halt.Running?
      ensures CountsRight(cfg, Run(cfg, m, data[..i]).p, data, i)
    {
      RunInv(cfg, m, data[..i]);
    }
  }

  // ---- A run that is not counted ----------------------------------------------------------------

  lemma {:induction false} PlainName(cfg: Config, p: Parser, bytes: seq<Byte>)
    requires p.headerState.General?
    ensures FieldChars(cfg, p, bytes) == p
    decreases |bytes|
  {
    if bytes != [] {
      PlainName(cfg, p, bytes[..|bytes| - 1]);
    }
  }

  /**
   A header name that goes on for 2^32 letters in one buffer: the counter comes back to where it was, so
   that the source takes the letters, although taking them one by one, or in shorter buffers, overflows
   the limit.
   */
  method HugeName(cfg: Config, data: seq<Byte>, c: Cursor, ghost m: Machine) returns (v: Verdict, c': Cursor)
    requires Inside(cfg, m, data, c) && c.s.state.HeaderField? && c.s.headerState.General?
    requires c.i == 0 && |data| == UINT32_SIZE && forall k :: 0 <= k < |data| ==> data[k] == 'a' as int
    ensures v.Going? && c' == c.(s := m.p, i := |data|)
    ensures Overflowed(Run(cfg, m, data))
    ensures !Turned(cfg, m, data, c, v, c')
  {
    hide Inv, Run, Glue, Emit, Tells, Span, FieldChars, Overflowed;
    ghost var tr;
    v, c', tr := FieldTurn(cfg, data, c, m.trace);
    assert forall k :: 0 <= k < |data| ==> Token(cfg.strict, data[k]) != 0;
    NameStopIs(cfg, data, 0, |data|);
    PlainName(cfg, c.s, data[0..|data|]);
    FieldOverflows(cfg, m, data, 0);
    assert data[0..|data|] == data;
    OverflowFails(Run(cfg, m, data), HeaderOverflow);
  }

  // ---- Beginning and end of a buffer ------------------------------------------------------------

  /** The mark set on entry when the buffer begins inside a piece of data. */
  function InitialMarks(s: State): Marks {
    match Expected(s)
    case Always(k) => map[k := 0]
    case _ => map[]
  }

  lemma BeginAt(cfg: Config, m: Machine, data: seq<Byte>, c: Cursor)
    requires m.halt.Running? && Inv(cfg, m.p, 0) && m.trace == Glue(c.log)
    requires c.s == m.p && c.i == 0 && c.marks == InitialMarks(m.p.state)
    ensures At(cfg, m, data, c)
  {
    hide Inv, Glue, Step, Emit;
    assert data[..0] == [] && data[0..0] == [];
    assert !Expected(m.p.state).Always? || !Expected(m.p.state).kind.Body?;
    assert forall k :: k in c.marks ==> c.marks == map[k := 0];
  }

  /** The callbacks for a mark left over at the end of the buffer; at most one is set. */
  method Leftovers(data: seq<Byte>, marks: Marks, log0: seq<Event>, ghost tr: Trace) returns (log: seq<Event>)
    requires |data| > 0 && Tells(log0, marks, data, |data|, tr) && Started(marks, |data|)
    ensures Glue(log) == tr
  {
    hide Glue, Span;
    assert forall k, k' :: k in marks && k' in marks ==> k == k';
    log := log0;
    if Field in marks {
      log := CallbackData(data, |data|, marks[Field], log, Field, tr);
    }
    if Value in marks {
      log := CallbackData(data, |data|, marks[Value], log, Value, tr);
    }
    if Url in marks {
      log := CallbackData(data, |data|, marks[Url], log, Url, tr);
    }
    if Body in marks {
      log := CallbackData(data, |data|, marks[Body], log, Body, tr);
    }
    if Status in marks {
      log := CallbackData(data, |data|, marks[Status], log, Status, tr);
    }
    if marks != map[] {
      ghost var k :| k in marks;
      assert k == Field || k == Value || k == Url || k == Body || k == Status;
    }
  }
}
