/**
 The two JSON parsers are one: the table-driven parser with its explicit stack simulates the
 recursive-descent parser, on every text, every handler and every combination of the flags they share.
 */
module JsonEquivalence {
  import opened JsonTypes
  import opened JsonRecursive
  import opened JsonIterative

  // ---- When two errors are the same -------------------------------------------------------------

  predicate Rejected(cfg: Config, events: seq<Event>) {
    events != [] && !cfg.accepts(events)
  }

  predicate Opening(e: Event) {
    e.StartObject? || e.StartArray?
  }

  predicate Closing(e: Event) {
    e.EndObject? || e.EndArray?
  }

  // ---- The state in which the table-driven parser stops ------------------------------------------

  /** The state the loop is in when it ends: what it was to do with the token it stopped at. */
  function LoopLast(cfg: Config, t: Text, m: Machine): State
    requires GoodLexers(cfg) && m.pos <= |t| && Valid(m)
    decreases |t| - m.pos, 0
  {
    if Peek(t, m.pos) == '\0' then m.state
    else
      TransitValid(cfg, t, m);
      match Transit(cfg, t, m)
      case Refused => m.state
      case Failed(_) => m.state
      case To(m') => ResumeLast(cfg, t, m')
  }

  function ResumeLast(cfg: Config, t: Text, m: Machine): State
    requires GoodLexers(cfg) && m.pos <= |t| && Valid(m)
    decreases |t| - m.pos, 1
  {
    if cfg.stopWhenDone && m.state.Finish? then m.state
    else
      match Skip(cfg, t, m.pos, m.events)
      case Err(_, _, _) => m.state
      case Ok(p, _) => LoopLast(cfg, t, m.(pos := p))
  }

  /** How a run of the table-driven parser ends. */
  datatype Run = Run(r: Result, last: State)

  function RunLoop(cfg: Config, t: Text, m: Machine): Run
    requires GoodLexers(cfg) && m.pos <= |t| && Valid(m)
  {
    Run(Loop(cfg, t, m), LoopLast(cfg, t, m))
  }

  function RunResume(cfg: Config, t: Text, m: Machine): Run
    requires GoodLexers(cfg) && m.pos <= |t| && Valid(m)
  {
    Run(Resume(cfg, t, m), ResumeLast(cfg, t, m))
  }

  function RunDocument(cfg: Config, t: Text): Run
    requires GoodLexers(cfg)
  {
    match Skip(cfg, t, 0, [])
    case Err(c, o, e) => Run(Err(c, o, e), Start)
    case Ok(p, e) => RunLoop(cfg, t, Machine(Start, [], p, e))
  }

  /** The token before was a comma. */
  predicate BehindComma(s: State) {
    s.MemberDelimiter? || s.ElementDelimiter?
  }

  /** Such a state is reached exactly by taking a comma. */
  lemma CommaTaken(cfg: Config, t: Text, m: Machine)
    requires GoodLexers(cfg) && m.pos < |t| && Valid(m) && Transit(cfg, t, m).To?
    ensures BehindComma(Transit(cfg, t, m).m.state) <==> t[m.pos] == ','
  {
    hide GoodLexers, ParseScalar, ParseText;
  }

  /**
   The offsets of one error in both parsers. They are equal, except when the handler rejects a bracket:
   the iterative parser asks the handler before taking the bracket and the recursive one after, unless the
   bracket closes behind a trailing comma.
   */
  predicate OffsetsAgree(cfg: Config, r: Result, i: Run)
    requires r.Err? && i.r.Err?
  {
    if Rejected(cfg, r.events) && Opening(r.events[|r.events| - 1]) then r.offset == i.r.offset + 1
    else if Rejected(cfg, r.events) && Closing(r.events[|r.events| - 1]) && !BehindComma(i.last)
        then r.offset == i.r.offset + 1
    else r.offset == i.r.offset
  }

  predicate SameError(cfg: Config, r: Result, i: Run) {
    r.Err? && i.r.Err? && r.code == i.r.code && r.events == i.r.events && OffsetsAgree(cfg, r, i)
  }

  // ---- Simulation -------------------------------------------------------------------------------

  /** The states in which a value is expected, and the state that follows the value. */
  predicate BeforeValue(s: State) {
    s.Start? || s.KeyValueDelimiter? || s.ArrayInitial? || s.ElementDelimiter?
  }

  function AfterValue(s: State): State {
    if s.Start? then Finish else if s.KeyValueDelimiter? then MemberValue else Element
  }

  function Restored(s: State): State {
    if s.Start? then Finish else s
  }

  /** At `m` the recursive parser is about to call ParseValue. */
  predicate ValueExpected(cfg: Config, t: Text, m: Machine) {
    && m.pos <= |t| && Valid(m) && BeforeValue(m.state) && !Rejected(cfg, m.events)
    && (m.state.Start? ==> Peek(t, m.pos) !in "]},:\0")
    && (Peek(t, m.pos) == ']' ==> !m.state.ArrayInitial? && !(m.state.ElementDelimiter? && cfg.trailingCommas))
  }

  /** The iterative parser goes on where the recursive one returns, or fails as it does. */
  predicate Follows(cfg: Config, t: Text, r: Result, i: Run, s: State, stack: seq<Frame>)
    requires GoodLexers(cfg)
  {
    match r
    case Ok(p, e) =>
      var m := Machine(s, stack, p, e);
      p <= |t| && Valid(m) && !Rejected(cfg, e) && i == RunResume(cfg, t, m)
    case Err(_, _, _) => SameError(cfg, r, i)
  }

  lemma ScalarFollows(cfg: Config, t: Text, m: Machine)
    requires GoodLexers(cfg) && ValueExpected(cfg, t, m) && Peek(t, m.pos) != '{' && Peek(t, m.pos) != '['
    ensures Follows(cfg, t, ParseValue(cfg, t, m.pos, m.events), RunLoop(cfg, t, m), AfterValue(m.state), m.stack)
  {
    hide ParseWord;
    if Peek(t, m.pos) in "]},:\0" {
      assert cfg.parseNumber(t, m.pos) == BadLexeme(ValueInvalid, m.pos);
    } else {
      TransitValid(cfg, t, m);
      ScalarAccepted(cfg, t, m.pos, m.events);
    }
  }

  lemma ScalarAccepted(cfg: Config, t: Text, pos: nat, events: seq<Event>)
    requires GoodLexers(cfg) && pos <= |t| && !Rejected(cfg, events)
    ensures var r := ParseScalar(cfg, t, pos, events);
            if r.Ok? then !Rejected(cfg, r.events)
            else Rejected(cfg, r.events) ==> !Opening(r.events[|r.events| - 1]) && !Closing(r.events[|r.events| - 1])
  {
    hide Matched;
  }

  /** The frame the iterative parser pushes on entering a bracket in state `s`. */
  function Pushed(s: State): Frame {
    Frame(if s.Start? then Start else AfterValue(s), 0)
  }

  predicate TopFrame(m: Machine, count: nat) {
    m.stack != [] && m.stack[|m.stack| - 1].count == count
  }

  /** The state and the stack after the innermost bracket closes. */
  function Outer(m: Machine): State
    requires m.stack != []
  {
    Restored(m.stack[|m.stack| - 1].state)
  }

  function Rest(m: Machine): seq<Frame>
    requires m.stack != []
  {
    m.stack[..|m.stack| - 1]
  }

  /** An opening bracket: both report it and skip white space, or both fail. */
  lemma EnterFollows(cfg: Config, t: Text, m: Machine)
    requires GoodLexers(cfg) && ValueExpected(cfg, t, m) && (Peek(t, m.pos) == '{' || Peek(t, m.pos) == '[')
    ensures var obj := Peek(t, m.pos) == '{';
            Follows(cfg, t, Report(cfg, m.events, if obj then StartObject else StartArray, m.pos + 1, m.pos + 1),
                    RunLoop(cfg, t, m), if obj then ObjectInitial else ArrayInitial, m.stack + [Pushed(m.state)])
  {
    TransitValid(cfg, t, m);
  }

  /** A closing bracket: both report it with the same count, and the outer value has been read. */
  lemma LeaveFollows(cfg: Config, t: Text, m: Machine, count: nat, obj: bool, offset: nat)
    requires GoodLexers(cfg) && m.pos < |t| && Valid(m) && m.stack != [] && !Rejected(cfg, m.events)
    requires Predict(m.state, Tokenize(t[m.pos])) == (if obj then ObjectFinish else ArrayFinish) && t[m.pos] != '\0'
    requires BehindComma(m.state) ==> cfg.trailingCommas
    requires offset == if BehindComma(m.state) then m.pos else m.pos + 1
    requires count == if m.state.MemberValue? || m.state.Element? then Increment(m.stack[|m.stack| - 1].count)
                      else m.stack[|m.stack| - 1].count
    ensures Follows(cfg, t, Report(cfg, m.events, if obj then EndObject(count) else EndArray(count), m.pos + 1, offset),
                    RunLoop(cfg, t, m), Outer(m), Rest(m))
  {
    TransitValid(cfg, t, m);
    assert LeaveMove(cfg, m, obj) == Transit(cfg, t, m);
  }

  predicate Skipping(cfg: Config, t: Text, m: Machine, r: Result)
    requires GoodLexers(cfg) && m.pos <= |t| && Valid(m)
  {
    match r
    case Ok(p, e) => e == m.events && p <= |t| && RunResume(cfg, t, m) == RunLoop(cfg, t, m.(pos := p))
    case Err(_, _, _) => SameError(cfg, r, RunResume(cfg, t, m))
  }

  /** Skipping white space between tokens. */
  lemma SkipFollows(cfg: Config, t: Text, m: Machine)
    requires GoodLexers(cfg) && m.pos <= |t| && Valid(m) && !m.state.Finish? && !Rejected(cfg, m.events)
    ensures Skipping(cfg, t, m, Skip(cfg, t, m.pos, m.events))
  {
    hide SkipComments, SkipSpace, Loop, LoopLast, GoodLexers;
  }

  /** A colon or a comma: taken by both without telling the handler. */
  lemma DelimiterFollows(cfg: Config, t: Text, m: Machine)
    requires GoodLexers(cfg) && m.pos < |t| && Valid(m)
    requires (m.state.MemberKey? && t[m.pos] == ':') || ((m.state.MemberValue? || m.state.Element?) && t[m.pos] == ',')
    ensures var top := m.stack[|m.stack| - 1];
            var m1 := Machine(if m.state.MemberKey? then KeyValueDelimiter
                              else if m.state.MemberValue? then MemberDelimiter else ElementDelimiter,
                              if m.state.MemberKey? then m.stack else Rest(m) + [top.(count := Increment(top.count))],
                              m.pos + 1, m.events);
            m.stack != [] && Valid(m1) && RunLoop(cfg, t, m) == RunResume(cfg, t, m1)
  {
    hide GoodLexers, ParseText, ScalarMove, EnterMove, LeaveMove, Skip;
    TransitValid(cfg, t, m);
  }

  /** A token the table does not allow: the iterative parser stops where it is. */
  lemma RefusedFollows(cfg: Config, t: Text, m: Machine)
    requires GoodLexers(cfg) && m.pos <= |t| && Valid(m) && !m.state.Finish? && !Rejected(cfg, m.events)
    requires Peek(t, m.pos) == '\0' || Predict(m.state, Tokenize(Peek(t, m.pos))).Error?
    ensures SameError(cfg, Err(HandleError(m.state), m.pos, m.events), RunLoop(cfg, t, m))
  {
  }

  /** The name of a member. */
  lemma NameFollows(cfg: Config, t: Text, m: Machine)
    requires GoodLexers(cfg) && m.pos < |t| && Valid(m) && !Rejected(cfg, m.events)
    requires (m.state.ObjectInitial? || m.state.MemberDelimiter?) && t[m.pos] == '"'
    ensures Follows(cfg, t, ParseText(cfg, t, m.pos, m.events, true), RunLoop(cfg, t, m), MemberKey, m.stack)
  {
    TransitValid(cfg, t, m);
    hide GoodLexers;
  }

  // ---- The induction ----------------------------------------------------------------------------

  /** From a position where a value is expected, the iterative parser does what ParseValue does. */
  lemma {:induction false} SimulateValue(cfg: Config, t: Text, m: Machine)
    requires GoodLexers(cfg) && ValueExpected(cfg, t, m)
    ensures Follows(cfg, t, ParseValue(cfg, t, m.pos, m.events), RunLoop(cfg, t, m), AfterValue(m.state), m.stack)
    decreases |t| - m.pos, 3
  {
    hide GoodLexers, RunLoop, RunResume, ParseScalar, Skip, Rejected, OffsetsAgree, Members, Elements;
    if Peek(t, m.pos) == '{' {
      SimulateObject(cfg, t, m);
    } else if Peek(t, m.pos) == '[' {
      SimulateArray(cfg, t, m);
    } else {
      ScalarFollows(cfg, t, m);
    }
  }

  lemma Closes()
    ensures Predict(ObjectInitial, Tokenize('}')) == ObjectFinish && Predict(ArrayInitial, Tokenize(']')) == ArrayFinish
  {
  }

  lemma {:induction false} SimulateObject(cfg: Config, t: Text, m: Machine)
    requires GoodLexers(cfg) && ValueExpected(cfg, t, m) && Peek(t, m.pos) == '{'
    ensures Follows(cfg, t, ParseObject(cfg, t, m.pos, m.events), RunLoop(cfg, t, m), AfterValue(m.state), m.stack)
    decreases |t| - m.pos, 2
  {
    hide GoodLexers, RunLoop, RunResume, Skip, Rejected, OffsetsAgree, Members, Elements, Predict, Tokenize;
    Closes();
    EnterFollows(cfg, t, m);
    var r := Report(cfg, m.events, StartObject, m.pos + 1, m.pos + 1);
    if r.Ok? {
      var m1 := Machine(ObjectInitial, m.stack + [Pushed(m.state)], r.pos, r.events);
      assert Rest(m1) == m.stack && Outer(m1) == AfterValue(m.state);
      SkipFollows(cfg, t, m1);
      var s := Skip(cfg, t, m1.pos, m1.events);
      if s.Ok? {
        var m2 := m1.(pos := s.pos);
        if Peek(t, s.pos) == '}' {
          LeaveFollows(cfg, t, m2, 0, true, s.pos + 1);
        } else {
          SimulateMembers(cfg, t, m2, 0);
        }
      }
    }
  }

  predicate MembersExpected(cfg: Config, t: Text, m: Machine, count: nat) {
    && m.pos <= |t| && Valid(m) && !Rejected(cfg, m.events) && TopFrame(m, count)
    && (m.state.ObjectInitial? || m.state.MemberDelimiter?)
    && (Peek(t, m.pos) == '}' ==> m.state.MemberDelimiter? && !cfg.trailingCommas)
  }

  lemma {:induction false} SimulateMembers(cfg: Config, t: Text, m: Machine, count: nat)
    requires GoodLexers(cfg) && MembersExpected(cfg, t, m, count)
    ensures Follows(cfg, t, Members(cfg, t, m.pos, m.events, count), RunLoop(cfg, t, m), Outer(m), Rest(m))
    decreases |t| - m.pos, 1
  {
    hide GoodLexers, RunLoop, RunResume, Skip, Rejected, OffsetsAgree, ParseText, AfterMember;
    if Peek(t, m.pos) != '"' {
      NameMissing(cfg, t, m);
    } else {
      NameFollows(cfg, t, m);
      var r := ParseText(cfg, t, m.pos, m.events, true);
      if r.Ok? {
        var m1 := Machine(MemberKey, m.stack, r.pos, r.events);
        SkipFollows(cfg, t, m1);
        var s := Skip(cfg, t, m1.pos, m1.events);
        if s.Ok? {
          SimulateColon(cfg, t, m1.(pos := s.pos), count);
        }
      }
    }
  }

  /** Where the name of a member is missing. */
  lemma NameMissing(cfg: Config, t: Text, m: Machine)
    requires GoodLexers(cfg) && m.pos <= |t| && Valid(m) && m.stack != [] && !Rejected(cfg, m.events)
    requires m.state.ObjectInitial? || m.state.MemberDelimiter?
    requires Peek(t, m.pos) != '"'
    requires Peek(t, m.pos) == '}' ==> m.state.MemberDelimiter? && !cfg.trailingCommas
    ensures SameError(cfg, Err(ObjectMissName, m.pos, m.events), RunLoop(cfg, t, m))
  {
    hide GoodLexers;
    if Peek(t, m.pos) != '}' {
      RefusedFollows(cfg, t, m);
    }
  }

  /** What ParseObject does behind the name of a member. */
  function AfterName(cfg: Config, t: Text, pos: nat, events: seq<Event>, count: nat): Result
    requires GoodLexers(cfg) && pos <= |t|
  {
    if Peek(t, pos) != ':' then Err(ObjectMissColon, pos, events)
    else
      match Skip(cfg, t, pos + 1, events)
      case Err(c, o, e) => Err(c, o, e)
      case Ok(p3, e3) =>
        match ParseValue(cfg, t, p3, e3)
        case Err(c, o, e) => Err(c, o, e)
        case Ok(p4, e4) =>
          match Skip(cfg, t, p4, e4)
          case Err(c, o, e) => Err(c, o, e)
          case Ok(p5, e5) => AfterMember(cfg, t, p5, e5, Increment(count))
  }

  lemma {:induction false} SimulateColon(cfg: Config, t: Text, m: Machine, count: nat)
    requires GoodLexers(cfg) && m.pos <= |t| && Valid(m) && m.state.MemberKey? && !Rejected(cfg, m.events) &&
             TopFrame(m, count)
    ensures Follows(cfg, t, AfterName(cfg, t, m.pos, m.events, count), RunLoop(cfg, t, m), Outer(m), Rest(m))
    decreases |t| - m.pos, 4
  {
    hide GoodLexers, RunLoop, RunResume, Skip, Rejected, OffsetsAgree, ParseValue, AfterMember, Tokenize;
    if Peek(t, m.pos) != ':' {
      ColonMissing(t, m.pos);
      RefusedFollows(cfg, t, m);
    } else {
      DelimiterFollows(cfg, t, m);
      var m1 := Machine(KeyValueDelimiter, m.stack, m.pos + 1, m.events);
      SkipFollows(cfg, t, m1);
      var s := Skip(cfg, t, m1.pos, m1.events);
      if s.Ok? {
        SimulateMemberValue(cfg, t, m1.(pos := s.pos), count);
      }
    }
  }

  lemma ColonMissing(t: Text, pos: nat)
    requires Peek(t, pos) != ':'
    ensures Predict(MemberKey, Tokenize(Peek(t, pos))).Error?
  {
  }

  /** What ParseObject does behind the colon. */
  function AfterColon(cfg: Config, t: Text, pos: nat, events: seq<Event>, count: nat): Result
    requires GoodLexers(cfg) && pos <= |t|
  {
    match ParseValue(cfg, t, pos, events)
    case Err(c, o, e) => Err(c, o, e)
    case Ok(p4, e4) =>
      match Skip(cfg, t, p4, e4)
      case Err(c, o, e) => Err(c, o, e)
      case Ok(p5, e5) => AfterMember(cfg, t, p5, e5, Increment(count))
  }

  lemma {:induction false} SimulateMemberValue(cfg: Config, t: Text, m: Machine, count: nat)
    requires GoodLexers(cfg) && m.pos <= |t| && Valid(m) && m.state.KeyValueDelimiter? && !Rejected(cfg, m.events)
    requires TopFrame(m, count)
    ensures Follows(cfg, t, AfterColon(cfg, t, m.pos, m.events, count), RunLoop(cfg, t, m), Outer(m), Rest(m))
    decreases |t| - m.pos, 4
  {
    hide GoodLexers, RunLoop, RunResume, Skip, Rejected, OffsetsAgree, ParseValue, AfterMember;
    SimulateValue(cfg, t, m);
    var r := ParseValue(cfg, t, m.pos, m.events);
    if r.Ok? {
      var m1 := Machine(MemberValue, m.stack, r.pos, r.events);
      SkipFollows(cfg, t, m1);
      var s := Skip(cfg, t, m1.pos, m1.events);
      if s.Ok? {
        SimulateAfterMember(cfg, t, m1.(pos := s.pos), count);
      }
    }
  }

  lemma {:induction false} SimulateAfterMember(cfg: Config, t: Text, m: Machine, count: nat)
    requires GoodLexers(cfg) && m.pos <= |t| && Valid(m) && m.state.MemberValue? && !Rejected(cfg, m.events)
    requires TopFrame(m, count)
    ensures Follows(cfg, t, AfterMember(cfg, t, m.pos, m.events, Increment(count)), RunLoop(cfg, t, m), Outer(m),
                    Rest(m))
    decreases |t| - m.pos, 0
  {
    hide GoodLexers, RunLoop, RunResume, Skip, Rejected, OffsetsAgree, Members;
    if Peek(t, m.pos) == ',' {
      DelimiterFollows(cfg, t, m);
      var top := m.stack[|m.stack| - 1];
      var m1 := Machine(MemberDelimiter, Rest(m) + [top.(count := Increment(count))], m.pos + 1, m.events);
      assert Rest(m1) == Rest(m);
      SkipFollows(cfg, t, m1);
      var s := Skip(cfg, t, m1.pos, m1.events);
      if s.Ok? {
        var m2 := m1.(pos := s.pos);
        if cfg.trailingCommas && Peek(t, s.pos) == '}' {
          LeaveFollows(cfg, t, m2, Increment(count), true, s.pos);
        } else {
          SimulateMembers(cfg, t, m2, Increment(count));
        }
      }
    } else if Peek(t, m.pos) == '}' {
      LeaveFollows(cfg, t, m, Increment(count), true, m.pos + 1);
    } else {
      RefusedFollows(cfg, t, m);
    }
  }

  lemma {:induction false} SimulateArray(cfg: Config, t: Text, m: Machine)
    requires GoodLexers(cfg) && ValueExpected(cfg, t, m) && Peek(t, m.pos) == '['
    ensures Follows(cfg, t, ParseArray(cfg, t, m.pos, m.events), RunLoop(cfg, t, m), AfterValue(m.state), m.stack)
    decreases |t| - m.pos, 2
  {
    hide GoodLexers, RunLoop, RunResume, Skip, Rejected, OffsetsAgree, Members, Elements, Predict, Tokenize;
    Closes();
    EnterFollows(cfg, t, m);
    var r := Report(cfg, m.events, StartArray, m.pos + 1, m.pos + 1);
    if r.Ok? {
      var m1 := Machine(ArrayInitial, m.stack + [Pushed(m.state)], r.pos, r.events);
      assert Rest(m1) == m.stack && Outer(m1) == AfterValue(m.state);
      SkipFollows(cfg, t, m1);
      var s := Skip(cfg, t, m1.pos, m1.events);
      if s.Ok? {
        var m2 := m1.(pos := s.pos);
        if Peek(t, s.pos) == ']' {
          LeaveFollows(cfg, t, m2, 0, false, s.pos + 1);
        } else {
          SimulateElements(cfg, t, m2, 0);
        }
      }
    }
  }

  lemma {:induction false} SimulateElements(cfg: Config, t: Text, m: Machine, count: nat)
    requires GoodLexers(cfg) && ValueExpected(cfg, t, m) && TopFrame(m, count)
    requires m.state.ArrayInitial? || m.state.ElementDelimiter?
    ensures Follows(cfg, t, Elements(cfg, t, m.pos, m.events, count), RunLoop(cfg, t, m), Outer(m), Rest(m))
    decreases |t| - m.pos, 4
  {
    hide GoodLexers, RunLoop, RunResume, Skip, Rejected, OffsetsAgree, ParseValue, AfterElement;
    SimulateValue(cfg, t, m);
    var r := ParseValue(cfg, t, m.pos, m.events);
    if r.Ok? {
      var m1 := Machine(Element, m.stack, r.pos, r.events);
      SkipFollows(cfg, t, m1);
      var s := Skip(cfg, t, m1.pos, m1.events);
      if s.Ok? {
        SimulateAfterElement(cfg, t, m1.(pos := s.pos), count);
      }
    }
  }

  lemma {:induction false} SimulateAfterElement(cfg: Config, t: Text, m: Machine, count: nat)
    requires GoodLexers(cfg) && m.pos <= |t| && Valid(m) && m.state.Element? && !Rejected(cfg, m.events)
    requires TopFrame(m, count)
    ensures Follows(cfg, t, AfterElement(cfg, t, m.pos, m.events, Increment(count)), RunLoop(cfg, t, m), Outer(m),
                    Rest(m))
    decreases |t| - m.pos, 0
  {
    hide GoodLexers, RunLoop, RunResume, Skip, Rejected, OffsetsAgree, Elements;
    if Peek(t, m.pos) == ',' {
      DelimiterFollows(cfg, t, m);
      var top := m.stack[|m.stack| - 1];
      var m1 := Machine(ElementDelimiter, Rest(m) + [top.(count := Increment(count))], m.pos + 1, m.events);
      assert Rest(m1) == Rest(m);
      SkipFollows(cfg, t, m1);
      var s := Skip(cfg, t, m1.pos, m1.events);
      if s.Ok? {
        var m2 := m1.(pos := s.pos);
        if cfg.trailingCommas && Peek(t, s.pos) == ']' {
          LeaveFollows(cfg, t, m2, Increment(count), false, s.pos);
        } else {
          SimulateElements(cfg, t, m2, Increment(count));
        }
      }
    } else if Peek(t, m.pos) == ']' {
      LeaveFollows(cfg, t, m, Increment(count), false, m.pos + 1);
    } else {
      RefusedFollows(cfg, t, m);
    }
  }

  // ---- The theorem ------------------------------------------------------------------------------

  /** The first token of the document is a bracket or a delimiter no value can begin with. */
  predicate StrayFirst(cfg: Config, t: Text) {
    match Skip(cfg, t, 0, [])
    case Ok(p, _) => Peek(t, p) in "]},:"
    case Err(_, _, _) => false
  }

  /**
   The two parsers accept the same texts with the same events and counts and stop at the same place. They
   reject with the same error code, after the same events and at corresponding offsets, except for a
   document that begins with a stray bracket or delimiter, which one calls empty and the other invalid.
   */
  lemma ParsersAgree(cfg: Config, t: Text)
    requires GoodLexers(cfg)
    ensures var r, i := ParseDocument(cfg, t), IterativeParse(cfg, t);
            if r.Ok? then i == r
            else if StrayFirst(cfg, t) then
              i.Err? && i.events == r.events == [] && i.offset == r.offset && i.code == DocumentEmpty &&
                  r.code == ValueInvalid
            else SameError(cfg, r, RunDocument(cfg, t)) && RunDocument(cfg, t).r == i
  {
    hide GoodLexers, Loop, LoopLast, Resume, ResumeLast, ParseScalar, Skip, OffsetsAgree, ParseValue;
    var s := Skip(cfg, t, 0, []);
    if s.Err? {
      SkipErrorSame(cfg, t);
    } else {
      var m := Machine(Start, [], s.pos, s.events);
      if Peek(t, s.pos) == '\0' {
        RefusedFollows(cfg, t, m);
      } else if StrayFirst(cfg, t) {
        StrayDocument(cfg, t, m);
      } else {
        SimulateValue(cfg, t, m);
        var r := ParseValue(cfg, t, m.pos, m.events);
        if r.Ok? {
          FinishFollows(cfg, t, Machine(Finish, [], r.pos, r.events));
        }
      }
    }
  }

  lemma SkipErrorSame(cfg: Config, t: Text)
    requires Skip(cfg, t, 0, []).Err?
    ensures SameError(cfg, Skip(cfg, t, 0, []), Run(Skip(cfg, t, 0, []), Start))
  {
    hide SkipComments, SkipSpace;
  }

  lemma StrayDocument(cfg: Config, t: Text, m: Machine)
    requires GoodLexers(cfg) && m.pos <= |t| && m.state.Start? && m.stack == [] && Peek(t, m.pos) in "]},:"
    ensures RunLoop(cfg, t, m).r == Err(DocumentEmpty, m.pos, m.events)
    ensures ParseValue(cfg, t, m.pos, m.events) == Err(ValueInvalid, m.pos, m.events)
  {
    assert cfg.parseNumber(t, m.pos) == BadLexeme(ValueInvalid, m.pos);
  }

  /** After the root value both parsers want the end of the text. */
  lemma FinishFollows(cfg: Config, t: Text, m: Machine)
    requires GoodLexers(cfg) && m.pos <= |t| && m.state.Finish? && m.stack == [] && !Rejected(cfg, m.events)
    ensures var r := if cfg.stopWhenDone then Ok(m.pos, m.events) else Epilogue(cfg, t, m.pos, m.events);
            if r.Ok? then RunResume(cfg, t, m).r == r else SameError(cfg, r, RunResume(cfg, t, m))
  {
    hide SkipComments, SkipSpace, GoodLexers;
    var s := Skip(cfg, t, m.pos, m.events);
    if !cfg.stopWhenDone && s.Ok? {
      assert Loop(cfg, t, m.(pos := s.pos)) ==
             if Peek(t, s.pos) == '\0' then Ok(s.pos, m.events) else Err(DocumentRootNotSingular, s.pos, m.events);
    }
  }

  /** When the handler rejects nothing, every error has the same offset in both parsers. */
  lemma OffsetsEqual(cfg: Config, r: Result, i: Run)
    requires SameError(cfg, r, i) && forall e {:trigger cfg.accepts(e)} :: cfg.accepts(e)
    ensures r == i.r
  {
  }

  /**
   A bracket the handler rejects: the offsets of the two parsers are equal behind a trailing comma, as in
   `[[],]`, and one apart without it, as in `[[]]`.
   */
  lemma CommaDecides(cfg: Config)
    requires GoodLexers(cfg) && cfg.trailingCommas
    requires forall e {:trigger cfg.accepts(e)} :: cfg.accepts(e) <==> e == [] || e[|e| - 1] != EndArray(1)
    ensures var r, i := ParseDocument(cfg, "[[],]"), IterativeParse(cfg, "[[],]");
            r.Err? && i.Err? && r.code == i.code == Termination && r.offset == i.offset == 4
    ensures var r, i := ParseDocument(cfg, "[[]]"), IterativeParse(cfg, "[[]]");
            r.Err? && i.Err? && r.code == i.code == Termination && r.offset == 4 && i.offset == 3
  {
    hide GoodLexers, Loop, AfterElement, Skip, ParseDocument, IterativeParse;
    var t1, t2 := "[[],]", "[[]]";
    var inner := [StartArray, StartArray, EndArray(0)];
    RecursiveInside(cfg, t1);
    RecursiveInside(cfg, t2);
    IterativeInside(cfg, t1);
    IterativeInside(cfg, t2);
    assert inner + [EndArray(1)] == [StartArray, StartArray, EndArray(0), EndArray(1)];
    RejectedEnd(cfg, t1, 4, inner);
    RejectedEnd(cfg, t2, 3, inner);
    LoopStep(cfg, t1, Machine(Element, [Frame(Start, 0)], 3, inner),
             Machine(ElementDelimiter, [Frame(Start, 1)], 4, inner));
  }

  /** Where a closing bracket is rejected, with one element counted. */
  lemma RejectedEnd(cfg: Config, t: Text, pos: nat, events: seq<Event>)
    requires GoodLexers(cfg) && cfg.trailingCommas && !cfg.accepts(events + [EndArray(1)])
    requires 0 < pos < |t| && t[pos] == ']'
    ensures AfterElement(cfg, t, pos, events, 1) == Err(Termination, pos + 1, events + [EndArray(1)])
    ensures t[pos - 1] == ',' ==>
            AfterElement(cfg, t, pos - 1, events, 1) == Err(Termination, pos, events + [EndArray(1)])
    ensures Loop(cfg, t, Machine(Element, [Frame(Start, 0)], pos, events)) ==
            Err(Termination, pos, events + [EndArray(1)])
    ensures Loop(cfg, t, Machine(ElementDelimiter, [Frame(Start, 1)], pos, events)) ==
              Err(Termination, pos, events + [EndArray(1)])
  {
    hide GoodLexers, Elements, Skip, Resume;
    SkipNothing(cfg, t, pos, events);
  }

  /** A turn of the loop without white space behind the token. */
  lemma LoopStep(cfg: Config, t: Text, m: Machine, m': Machine)
    requires GoodLexers(cfg) && m.pos < |t| && Valid(m) && t[m.pos] != '\0'
    requires Transit(cfg, t, m) == To(m') && !m'.state.Finish?
    requires m'.pos < |t| && !IsSpace(t[m'.pos]) && t[m'.pos] != '/'
    ensures Valid(m') && Loop(cfg, t, m) == Loop(cfg, t, m')
  {
    hide GoodLexers, Transit, Skip, Valid;
    TransitValid(cfg, t, m);
    SkipNothing(cfg, t, m'.pos, m'.events);
  }

  /** The recursive parser behind `[[]`. */
  lemma RecursiveInside(cfg: Config, t: Text)
    requires GoodLexers(cfg) && |t| > 3 && t[0] == t[1] == '[' && t[2] == ']' && t[3] in ",]"
    requires forall e {:trigger cfg.accepts(e)} :: cfg.accepts(e) <==> e == [] || e[|e| - 1] != EndArray(1)
    ensures var r := AfterElement(cfg, t, 3, [StartArray, StartArray, EndArray(0)], 1);
            r.Err? ==> ParseDocument(cfg, t) == r
  {
    hide GoodLexers, Elements, AfterElement, Skip;
    SkipNothing(cfg, t, 0, []);
    SkipNothing(cfg, t, 1, [StartArray]);
    InnerElement(cfg, t);
    assert [] + [StartArray] == [StartArray];
    assert ParseValue(cfg, t, 0, []) == Elements(cfg, t, 1, [StartArray], 0);
  }

  lemma InnerElement(cfg: Config, t: Text)
    requires GoodLexers(cfg) && |t| > 3 && t[1] == '[' && t[2] == ']' && t[3] in ",]"
    requires cfg.accepts([StartArray, StartArray]) && cfg.accepts([StartArray, StartArray, EndArray(0)])
    ensures Elements(cfg, t, 1, [StartArray], 0) == AfterElement(cfg, t, 3, [StartArray, StartArray, EndArray(0)], 1)
  {
    hide GoodLexers, AfterElement, ParseValue, Skip;
    assert [StartArray] + [StartArray] == [StartArray, StartArray];
    assert [StartArray, StartArray] + [EndArray(0)] == [StartArray, StartArray, EndArray(0)];
    EmptyArrayParsed(cfg, t, 1, [StartArray]);
    SkipNothing(cfg, t, 3, [StartArray, StartArray, EndArray(0)]);
  }

  /** The table-driven parser behind `[[]`. */
  lemma IterativeInside(cfg: Config, t: Text)
    requires GoodLexers(cfg) && |t| > 3 && t[0] == t[1] == '[' && t[2] == ']' && t[3] in ",]"
    requires forall e {:trigger cfg.accepts(e)} :: cfg.accepts(e) <==> e == [] || e[|e| - 1] != EndArray(1)
    ensures IterativeParse(cfg, t) ==
              Loop(cfg, t, Machine(Element, [Frame(Start, 0)], 3, [StartArray, StartArray, EndArray(0)]))
  {
    hide GoodLexers, Loop, Skip, Transit;
    var m0 := Machine(Start, [], 0, []);
    var m1 := Machine(ArrayInitial, [Frame(Start, 0)], 1, [StartArray]);
    var m2 := Machine(ArrayInitial, [Frame(Start, 0), Frame(Element, 0)], 2, [StartArray, StartArray]);
    var m3 := Machine(Element, [Frame(Start, 0)], 3, [StartArray, StartArray, EndArray(0)]);
    SkipNothing(cfg, t, 0, []);
    FirstMoves(cfg, t, m0, m1, m2);
    LoopStep(cfg, t, m0, m1);
    LoopStep(cfg, t, m1, m2);
    InnerMove(cfg, t, m2, m3);
    LoopStep(cfg, t, m2, m3);
  }

  /** Two opening brackets. */
  lemma FirstMoves(cfg: Config, t: Text, m0: Machine, m1: Machine, m2: Machine)
    requires GoodLexers(cfg) && |t| > 3 && t[0] == t[1] == '['
    requires cfg.accepts([StartArray]) && cfg.accepts([StartArray, StartArray])
    requires m0 == Machine(Start, [], 0, []) && m1 == Machine(ArrayInitial, [Frame(Start, 0)], 1, [StartArray])
    requires m2 == Machine(ArrayInitial, [Frame(Start, 0), Frame(Element, 0)], 2, [StartArray, StartArray])
    ensures Valid(m0) && Valid(m1) && Transit(cfg, t, m0) == To(m1) && Transit(cfg, t, m1) == To(m2)
  {
    hide GoodLexers;
    assert [] + [StartArray] == [StartArray] && [StartArray] + [StartArray] == [StartArray, StartArray];
  }

  /** The closing bracket of an inner array. */
  lemma InnerMove(cfg: Config, t: Text, m2: Machine, m3: Machine)
    requires GoodLexers(cfg) && |t| > 3 && t[2] == ']' && cfg.accepts([StartArray, StartArray, EndArray(0)])
    requires m2 == Machine(ArrayInitial, [Frame(Start, 0), Frame(Element, 0)], 2, [StartArray, StartArray])
    requires m3 == Machine(Element, [Frame(Start, 0)], 3, [StartArray, StartArray, EndArray(0)])
    ensures Valid(m2) && Transit(cfg, t, m2) == To(m3)
  {
    hide GoodLexers;
    assert [StartArray, StartArray] + [EndArray(0)] == [StartArray, StartArray, EndArray(0)];
  }
}
