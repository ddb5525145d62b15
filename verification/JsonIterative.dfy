/**
 The table-driven parser of the reader, with its explicit stack of suspended states and counts.
 */
module JsonIterative {
  import opened JsonTypes

  datatype State =
    | Finish | Error
    | Start
    | ObjectInitial | MemberKey | MemberValue | ObjectFinish
    | ArrayInitial | Element | ArrayFinish
    | Value
    | ElementDelimiter | MemberDelimiter | KeyValueDelimiter

  datatype Token =
    | LeftBracket | RightBracket
    | LeftCurly | RightCurly
    | Comma | Colon
    | StringToken | FalseToken | TrueToken | NullToken | NumberToken

  function Tokenize(c: char): Token {
    if c == '[' then LeftBracket
    else if c == ']' then RightBracket
    else if c == '{' then LeftCurly
    else if c == '}' then RightCurly
    else if c == ',' then Comma
    else if c == ':' then Colon
    else if c == '"' then StringToken
    else if c == 'f' then FalseToken
    else if c == 't' then TrueToken
    else if c == 'n' then NullToken
    else NumberToken
  }

  predicate ScalarToken(k: Token) {
    k.StringToken? || k.FalseToken? || k.TrueToken? || k.NullToken? || k.NumberToken?
  }

  /** The table G, row by row. */
  function Predict(s: State, k: Token): State {
    match s
    case Start =>
      if k.LeftBracket? then ArrayInitial else if k.LeftCurly? then ObjectInitial
      else if ScalarToken(k) then Value else Error
    case ObjectInitial =>
      if k.RightCurly? then ObjectFinish else if k.StringToken? then MemberKey else Error
    case MemberKey => if k.Colon? then KeyValueDelimiter else Error
    case MemberValue =>
      if k.RightCurly? then ObjectFinish else if k.Comma? then MemberDelimiter else Error
    case ArrayInitial => ElementOf(k)
    case Element =>
      if k.RightBracket? then ArrayFinish else if k.Comma? then ElementDelimiter else Error
    case ElementDelimiter => ElementOf(k)
    case MemberDelimiter =>
      if k.RightCurly? then ObjectFinish else if k.StringToken? then MemberKey else Error
    case KeyValueDelimiter =>
      if k.LeftBracket? then ArrayInitial else if k.LeftCurly? then ObjectInitial
      else if ScalarToken(k) then MemberValue else Error
    case _ => Error
  }

  function ElementOf(k: Token): State {
    if k.LeftBracket? then ArrayInitial
    else if k.RightBracket? then ArrayFinish
    else if k.LeftCurly? then ObjectInitial
    else if ScalarToken(k) then Element
    else Error
  }

  /** A suspended state, to return to when the nested value ends, and the count kept on top of it. */
  datatype Frame = Frame(state: State, count: nat)

  /** The iterative parser between two tokens. */
  datatype Machine = Machine(state: State, stack: seq<Frame>, pos: nat, events: seq<Event>)

  /** What Transit may do: reach a state, end with an error of its own, or return the error state. */
  datatype Move = To(m: Machine) | Failed(r: Result) | Refused

  predicate Suspended(s: State) {
    s.Start? || s.Element? || s.MemberValue?
  }

  /** The states the parser can be in between tokens, with the stack that goes with each. */
  predicate Valid(m: Machine) {
    && (forall i :: 0 <= i < |m.stack| ==> Suspended(m.stack[i].state) && (m.stack[i].state.Start? <==> i == 0))
    && !m.state.Error? && !m.state.ObjectFinish? && !m.state.ArrayFinish? && !m.state.Value?
    && (m.state.Start? || m.state.Finish? <==> m.stack == [])
  }

  /** A scalar, or an error, and then the state `d`. */
  function ScalarMove(cfg: Config, t: Text, m: Machine, d: State): (r: Move)
    requires GoodLexers(cfg) && m.pos <= |t|
    ensures r.To? ==> m.pos < r.m.pos <= |t| && r.m.state == d && r.m.stack == m.stack
    ensures !r.Refused?
    ensures r.Failed? ==> r.r.Err?
  {
    var r := ParseScalar(cfg, t, m.pos, m.events);
    if r.Ok? then To(Machine(d, m.stack, r.pos, r.events)) else Failed(r)
  }

  /** Enter an object or an array; the handler is called before the bracket is taken. */
  function EnterMove(cfg: Config, m: Machine, d: State): (r: Move)
    requires d.ObjectInitial? || d.ArrayInitial?
    ensures !r.Refused?
    ensures r.Failed? ==> r.r.Err?
  {
    var n := if m.state.ArrayInitial? || m.state.ElementDelimiter? then Element
             else if m.state.KeyValueDelimiter? then MemberValue
             else m.state;
    match Report(cfg, m.events, if d.ObjectInitial? then StartObject else StartArray, m.pos + 1, m.pos)
    case Ok(p, e) => To(Machine(d, m.stack + [Frame(n, 0)], p, e))
    case Err(c, o, e) => Failed(Err(c, o, e))
  }

  /** Leave an object or an array and restore the suspended state. */
  function LeaveMove(cfg: Config, m: Machine, isObject: bool): (r: Move)
    requires m.stack != []
    ensures !r.Refused?
    ensures r.Failed? ==> r.r.Err?
  {
    var top := m.stack[|m.stack| - 1];
    if !cfg.trailingCommas && isObject && m.state.MemberDelimiter? then Failed(Err(ObjectMissName, m.pos, m.events))
    else if !cfg.trailingCommas && !isObject && m.state.ElementDelimiter?
        then Failed(Err(ValueInvalid, m.pos, m.events))
    else
      var c := if m.state.MemberValue? || m.state.Element? then Increment(top.count) else top.count;
      match Report(cfg, m.events, if isObject then EndObject(c) else EndArray(c), m.pos + 1, m.pos)
      case Ok(p, e) =>
        To(Machine(if top.state.Start? then Finish else top.state, m.stack[..|m.stack| - 1], p, e))
      case Err(c, o, e) => Failed(Err(c, o, e))
  }

  function DelimiterMove(m: Machine, d: State): Move
    requires m.stack != []
  {
    var top := m.stack[|m.stack| - 1];
    To(Machine(d, m.stack[..|m.stack| - 1] + [top.(count := Increment(top.count))], m.pos + 1, m.events))
  }

  /** Transit, given the predicted state. */
  function Transit(cfg: Config, t: Text, m: Machine): (r: Move)
    requires GoodLexers(cfg) && m.pos < |t| && Valid(m)
    ensures r.To? ==> m.pos < r.m.pos <= |t|
    ensures r.Failed? ==> r.r.Err?
  {
    var dst := Predict(m.state, Tokenize(Peek(t, m.pos)));
    match dst
    case Error => Refused
    case ObjectInitial => EnterMove(cfg, m, dst)
    case ArrayInitial => EnterMove(cfg, m, dst)
    case MemberKey =>
      (match ParseText(cfg, t, m.pos, m.events, true)
       case Ok(p, e) => To(Machine(MemberKey, m.stack, p, e))
       case Err(c, o, e) => Failed(Err(c, o, e)))
    case KeyValueDelimiter => To(m.(state := KeyValueDelimiter, pos := m.pos + 1))
    case MemberValue => ScalarMove(cfg, t, m, MemberValue)
    case Element => ScalarMove(cfg, t, m, Element)
    case MemberDelimiter => DelimiterMove(m, dst)
    case ElementDelimiter => DelimiterMove(m, dst)
    case ObjectFinish => LeaveMove(cfg, m, true)
    case ArrayFinish => LeaveMove(cfg, m, false)
    case _ => ScalarMove(cfg, t, m, Finish)
  }

  /** HandleError: the error for stopping in state `s`. */
  function HandleError(s: State): ErrorCode {
    match s
    case Start => DocumentEmpty
    case Finish => DocumentRootNotSingular
    case ObjectInitial => ObjectMissName
    case MemberDelimiter => ObjectMissName
    case MemberKey => ObjectMissColon
    case MemberValue => ObjectMissCommaOrCurlyBracket
    case KeyValueDelimiter => ValueInvalid
    case ArrayInitial => ValueInvalid
    case ElementDelimiter => ValueInvalid
    case _ => ArrayMissCommaOrSquareBracket
  }

  lemma TransitValid(cfg: Config, t: Text, m: Machine)
    requires GoodLexers(cfg) && m.pos < |t| && Valid(m)
    ensures Transit(cfg, t, m).To? ==> Valid(Transit(cfg, t, m).m)
  {
    hide GoodLexers, ParseScalar, ParseText;
  }

  /** The loop of IterativeParse, from a position that is not white space. */
  function Loop(cfg: Config, t: Text, m: Machine): Result
    requires GoodLexers(cfg) && m.pos <= |t| && Valid(m)
    decreases |t| - m.pos, 0
  {
    if Peek(t, m.pos) == '\0' then
      if m.state.Finish? then Ok(m.pos, m.events) else Err(HandleError(m.state), m.pos, m.events)
    else
      TransitValid(cfg, t, m);
      match Transit(cfg, t, m)
      case Refused => Err(HandleError(m.state), m.pos, m.events)
      case Failed(r) => r
      case To(m') => Resume(cfg, t, m')
  }

  /** The end of a turn of the loop: perhaps stop, otherwise skip white space and go round again. */
  function Resume(cfg: Config, t: Text, m: Machine): Result
    requires GoodLexers(cfg) && m.pos <= |t| && Valid(m)
    decreases |t| - m.pos, 1
  {
    if cfg.stopWhenDone && m.state.Finish? then Ok(m.pos, m.events)
    else
      match Skip(cfg, t, m.pos, m.events)
      case Err(c, o, e) => Err(c, o, e)
      case Ok(p, e) => Loop(cfg, t, m.(pos := p))
  }

  /** Parse with the iterative flag. */
  function IterativeParse(cfg: Config, t: Text): Result
    requires GoodLexers(cfg)
  {
    match Skip(cfg, t, 0, [])
    case Err(c, o, e) => Err(c, o, e)
    case Ok(p, e) => Loop(cfg, t, Machine(Start, [], p, e))
  }
}
