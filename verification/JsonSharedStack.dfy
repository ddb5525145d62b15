/**
 The one stack of the reader, in bytes: strings are collected on it, and the table-driven parser keeps its
 states and counts there as well. The length of a string is counted in 32 bits, so that a string of 4 GiB
 or more is handed over in part and the rest of it stays on the stack.
 */
module JsonSharedStack {
  import opened JsonTypes
  import opened JsonRecursive
  import opened JsonIterative
  import opened JsonEquivalence

  const SIZE_LIMIT: nat := 0x1_0000_0000

  type Byte = x: int | 0 <= x < 256

  function LowByte(n: nat): Byte {
    n % 256
  }

  function Higher(n: nat): nat {
    n / 256
  }

  /** A number of 32 bits in memory, its lowest byte first. */
  function Low(n: nat): (b: seq<Byte>)
    ensures |b| == 4
  {
    [LowByte(n), LowByte(Higher(n)), LowByte(Higher(Higher(n))), LowByte(Higher(Higher(Higher(n))))]
  }

  function WordOf(b: seq<Byte>): nat
    requires |b| == 4
  {
    b[0] as int + 256 * (b[1] as int) + 65536 * (b[2] as int) + 16777216 * (b[3] as int)
  }

  lemma WordOfLow(n: nat)
    requires n < SIZE_LIMIT
    ensures WordOf(Low(n)) == n
  {
    hide LowByte, Higher;
    ByteAndRest(n);
    ByteAndRest(Higher(n));
    ByteAndRest(Higher(Higher(n)));
    ByteAndRest(Higher(Higher(Higher(n))));
  }

  lemma ByteAndRest(n: nat)
    ensures n == LowByte(n) + 256 * Higher(n)
  {
  }

  /** The numbers of the states, by their order in the source. */
  function Code(s: State): (n: nat)
    ensures n < SIZE_LIMIT
  {
    match s
    case Finish => 0 case Error => 1 case Start => 2
    case ObjectInitial => 3 case MemberKey => 4 case MemberValue => 5 case ObjectFinish => 6
    case ArrayInitial => 7 case Element => 8 case ArrayFinish => 9 case Value => 10
    case ElementDelimiter => 11 case MemberDelimiter => 12 case KeyValueDelimiter => 13
  }

  datatype Decoded = IsState(s: State) | NoState

  function StateOf(n: nat): Decoded {
    match n
    case 0 => IsState(Finish) case 1 => IsState(Error) case 2 => IsState(Start)
    case 3 => IsState(ObjectInitial) case 4 => IsState(MemberKey) case 5 => IsState(MemberValue)
    case 6 => IsState(ObjectFinish) case 7 => IsState(ArrayInitial) case 8 => IsState(Element)
    case 9 => IsState(ArrayFinish) case 10 => IsState(Value) case 11 => IsState(ElementDelimiter)
    case 12 => IsState(MemberDelimiter) case 13 => IsState(KeyValueDelimiter)
    case _ => NoState
  }

  lemma StateOfCode(s: State)
    ensures StateOf(Code(s)) == IsState(s)
  {
  }

  // ---- Strings ----------------------------------------------------------------------------------

  /** The length of a string with its NUL, as StackStream counts it. */
  function Counted(s: string): nat {
    (|s| + 1) % SIZE_LIMIT
  }

  /** What ParseString hands over: what lies in memory behind the string if it pops nothing, or a last part of it. */
  function HandedOver(s: string, behind: string): string {
    if Counted(s) == 0 then behind else s[|s| + 1 - Counted(s)..]
  }

  function Bytes(s: string): seq<Byte> {
    seq(|s|, i requires 0 <= i < |s| => s[i] as int % 256)
  }

  /** What ParseString leaves on the stack. */
  function LeftBehind(s: string): seq<Byte> {
    (Bytes(s) + [0])[..|s| + 1 - Counted(s)]
  }

  predicate StringFits(s: string) {
    |s| + 1 < SIZE_LIMIT
  }

  predicate EventFits(e: Event) {
    (e.String? || e.Key?) ==> StringFits(e.s)
  }

  predicate StringsFit(events: seq<Event>) {
    forall k :: 0 <= k < |events| ==> EventFits(events[k])
  }

  /** A string that fits is handed over, and nothing of it stays behind. */
  lemma FittingString(s: string, behind: string)
    requires StringFits(s)
    ensures HandedOver(s, behind) == s && LeftBehind(s) == []
  {
  }

  /** What is in memory behind a string, by the text and the position of its opening quote. */
  type Memory = (Text, nat) -> string

  /** The parser of strings, as the handler sees what it reads. */
  function Handing(cfg: Config, memory: Memory): Config {
    cfg.(parseString := (t: Text, i: nat) =>
           match cfg.parseString(t, i)
           case Lexeme(s, next) => Lexeme(HandedOver(s, memory(t, i)), next)
           case BadLexeme(code, offset) => BadLexeme(code, offset))
  }

  lemma HandingIsGood(cfg: Config, memory: Memory)
    requires GoodLexers(cfg)
    ensures GoodLexers(Handing(cfg, memory))
  {
    var w := Handing(cfg, memory);
    forall t, i: nat {:trigger w.parseString(t, i)} | i < |t| && w.parseString(t, i).Lexeme?
      ensures i < w.parseString(t, i).next <= |t|
    {
      assert cfg.parseString(t, i).Lexeme?;
    }
  }

  function LeftAt(cfg: Config, t: Text, pos: nat): seq<Byte> {
    match cfg.parseString(t, pos)
    case Lexeme(s, _) => LeftBehind(s)
    case BadLexeme(_, _) => []
  }

  // ---- The table-driven parser over bytes -------------------------------------------------------

  datatype SharedMachine = SharedMachine(state: State, stack: seq<Byte>, pos: nat, events: seq<Event>)

  /** As Move; a parser that pops what is no state goes astray. */
  datatype SharedMove = STo(m: SharedMachine) | SFailed(r: Result) | SRefused | SAstray(events: seq<Event>)

  function ScalarStep(cfg: Config, memory: Memory, t: Text, m: SharedMachine, d: State): (r: SharedMove)
    requires GoodLexers(cfg) && m.pos <= |t|
    ensures r.STo? ==> m.pos < r.m.pos <= |t|
  {
    HandingIsGood(cfg, memory);
    match ParseScalar(Handing(cfg, memory), t, m.pos, m.events)
    case Ok(p, e) => STo(SharedMachine(d, m.stack + if Peek(t, m.pos) == '"' then LeftAt(cfg, t, m.pos) else [], p, e))
    case Err(c, o, e) => SFailed(Err(c, o, e))
  }

  function KeyStep(cfg: Config, memory: Memory, t: Text, m: SharedMachine): (r: SharedMove)
    requires GoodLexers(cfg) && m.pos < |t|
    ensures r.STo? ==> m.pos < r.m.pos <= |t|
  {
    HandingIsGood(cfg, memory);
    match ParseText(Handing(cfg, memory), t, m.pos, m.events, true)
    case Ok(p, e) => STo(SharedMachine(MemberKey, m.stack + LeftAt(cfg, t, m.pos), p, e))
    case Err(c, o, e) => SFailed(Err(c, o, e))
  }

  function EnterStep(cfg: Config, m: SharedMachine, d: State): SharedMove {
    var n := if m.state.ArrayInitial? || m.state.ElementDelimiter? then Element
             else if m.state.KeyValueDelimiter? then MemberValue
             else m.state;
    match Report(cfg, m.events, if d.ObjectInitial? then StartObject else StartArray, m.pos + 1, m.pos)
    case Ok(p, e) => STo(SharedMachine(d, m.stack + Low(Code(n)) + Low(0), p, e))
    case Err(c, o, e) => SFailed(Err(c, o, e))
  }

  /** Where the topmost 32-bit number begins. */
  function Top(stack: seq<Byte>): nat
    requires |stack| >= 4
  {
    |stack| - 4
  }

  function DelimiterStep(m: SharedMachine, d: State): SharedMove {
    if |m.stack| < 4 then SAstray(m.events)
    else
      var i := Top(m.stack);
      STo(SharedMachine(d, m.stack[..i] + Low(Increment(WordOf(m.stack[i..]))), m.pos + 1, m.events))
  }

  function LeaveStep(cfg: Config, m: SharedMachine, isObject: bool): SharedMove {
    if !cfg.trailingCommas && isObject && m.state.MemberDelimiter? then SFailed(Err(ObjectMissName, m.pos, m.events))
    else if !cfg.trailingCommas && !isObject && m.state.ElementDelimiter? then
      SFailed(Err(ValueInvalid, m.pos, m.events))
    else if |m.stack| < 8 then SAstray(m.events)
    else
      var i := Top(m.stack);
      var count := WordOf(m.stack[i..]);
      var c := if m.state.MemberValue? || m.state.Element? then Increment(count) else count;
      var rest := m.stack[..i];
      match Report(cfg, m.events, if isObject then EndObject(c) else EndArray(c), m.pos + 1, m.pos)
      case Err(c, o, e) => SFailed(Err(c, o, e))
      case Ok(p, e) =>
        match StateOf(WordOf(rest[Top(rest)..]))
        case NoState => SAstray(e)
        case IsState(s) =>
          if s.Error? then SFailed(Err(HandleError(m.state), p, e))
          else STo(SharedMachine(if s.Start? then Finish else s, rest[..Top(rest)], p, e))
  }

  function SharedTransit(cfg: Config, memory: Memory, t: Text, m: SharedMachine): (r: SharedMove)
    requires GoodLexers(cfg) && m.pos < |t|
    ensures r.STo? ==> m.pos < r.m.pos <= |t|
  {
    var dst := Predict(m.state, Tokenize(Peek(t, m.pos)));
    match dst
    case Error => SRefused
    case ObjectInitial => EnterStep(cfg, m, dst)
    case ArrayInitial => EnterStep(cfg, m, dst)
    case MemberKey => KeyStep(cfg, memory, t, m)
    case KeyValueDelimiter => STo(m.(state := KeyValueDelimiter, pos := m.pos + 1))
    case MemberValue => ScalarStep(cfg, memory, t, m, MemberValue)
    case Element => ScalarStep(cfg, memory, t, m, Element)
    case MemberDelimiter => DelimiterStep(m, dst)
    case ElementDelimiter => DelimiterStep(m, dst)
    case ObjectFinish => LeaveStep(cfg, m, true)
    case ArrayFinish => LeaveStep(cfg, m, false)
    case _ => ScalarStep(cfg, memory, t, m, Finish)
  }

  datatype SharedResult = Done(r: Result) | Astray(events: seq<Event>)

  function SharedLoop(cfg: Config, memory: Memory, t: Text, m: SharedMachine): SharedResult
    requires GoodLexers(cfg) && m.pos <= |t|
    decreases |t| - m.pos, 0
  {
    if Peek(t, m.pos) == '\0' then
      Done(if m.state.Finish? then Ok(m.pos, m.events) else Err(HandleError(m.state), m.pos, m.events))
    else
      match SharedTransit(cfg, memory, t, m)
      case SRefused => Done(Err(HandleError(m.state), m.pos, m.events))
      case SFailed(r) => Done(r)
      case SAstray(e) => Astray(e)
      case STo(m') => SharedResume(cfg, memory, t, m')
  }

  function SharedResume(cfg: Config, memory: Memory, t: Text, m: SharedMachine): SharedResult
    requires GoodLexers(cfg) && m.pos <= |t|
    decreases |t| - m.pos, 1
  {
    if cfg.stopWhenDone && m.state.Finish? then Done(Ok(m.pos, m.events))
    else
      match Skip(cfg, t, m.pos, m.events)
      case Err(c, o, e) => Done(Err(c, o, e))
      case Ok(p, e) => SharedLoop(cfg, memory, t, m.(pos := p))
  }

  /** IterativeParse, over the bytes of the stack. */
  function SharedParse(cfg: Config, memory: Memory, t: Text): SharedResult
    requires GoodLexers(cfg)
  {
    match Skip(cfg, t, 0, [])
    case Err(c, o, e) => Done(Err(c, o, e))
    case Ok(p, e) => SharedLoop(cfg, memory, t, SharedMachine(Start, [], p, e))
  }

  // ---- Frames as bytes --------------------------------------------------------------------------

  function Saved(frames: seq<Frame>): seq<Byte> {
    if frames == [] then []
    else
      var f := frames[|frames| - 1];
      Saved(frames[..|frames| - 1]) + Low(Code(f.state)) + Low(f.count)
  }

  predicate CountsShort(frames: seq<Frame>) {
    forall i :: 0 <= i < |frames| ==> frames[i].count < SIZE_LIMIT
  }

  function InBytes(m: Machine): SharedMachine {
    SharedMachine(m.state, Saved(m.stack), m.pos, m.events)
  }

  function MoveInBytes(v: Move): SharedMove {
    match v
    case To(m) => STo(InBytes(m))
    case Failed(r) => SFailed(r)
    case Refused => SRefused
  }

  function EventsAfter(events: seq<Event>, v: Move): seq<Event> {
    match v
    case To(m) => m.events
    case Failed(r) => r.events
    case Refused => events
  }

  lemma SavedSnoc(frames: seq<Frame>, f: Frame)
    ensures Saved(frames + [f]) == Saved(frames) + Low(Code(f.state)) + Low(f.count)
  {
    hide Low, Code;
    assert (frames + [f])[..|frames|] == frames;
  }

  /** The topmost frame, in bytes. */
  lemma SavedTop(frames: seq<Frame>)
    requires frames != [] && CountsShort(frames)
    ensures var s, f, below := Saved(frames), frames[|frames| - 1], Saved(frames[..|frames| - 1]);
            && |s| == |below| + 8 && WordOf(s[|s| - 4..]) == f.count
            && s[..|s| - 4] == below + Low(Code(f.state)) && s[..|s| - 8] == below
            && WordOf(s[..|s| - 4][|s| - 8..]) == Code(f.state)
  {
    hide Low, Code, WordOf;
    var s, f, below := Saved(frames), frames[|frames| - 1], Saved(frames[..|frames| - 1]);
    WordOfLow(f.count);
    WordOfLow(Code(f.state));
    assert s == below + Low(Code(f.state)) + Low(f.count);
    assert s[|s| - 4..] == Low(f.count) && s[..|s| - 4] == below + Low(Code(f.state));
    assert s[..|s| - 4][|s| - 8..] == Low(Code(f.state));
  }

  // ---- Strings that fit -------------------------------------------------------------------------

  /** A string that fits is reported as it was read. */
  lemma TextSame(cfg: Config, memory: Memory, t: Text, pos: nat, events: seq<Event>, isKey: bool)
    requires GoodLexers(cfg) && pos < |t| && StringsFit(ParseText(cfg, t, pos, events, isKey).events)
    ensures GoodLexers(Handing(cfg, memory))
    ensures ParseText(Handing(cfg, memory), t, pos, events, isKey) == ParseText(cfg, t, pos, events, isKey)
    ensures LeftAt(cfg, t, pos) == []
  {
    hide HandedOver, LeftBehind, GoodLexers;
    HandingIsGood(cfg, memory);
    var r := cfg.parseString(t, pos);
    if r.Lexeme? {
      var e := if isKey then Key(r.value) else String(r.value);
      assert EventFits((events + [e])[|events|]);
      FittingString(r.value, memory(t, pos));
    }
  }

  lemma ScalarSame(cfg: Config, memory: Memory, t: Text, pos: nat, events: seq<Event>)
    requires GoodLexers(cfg) && pos <= |t| && StringsFit(ParseScalar(cfg, t, pos, events).events)
    ensures GoodLexers(Handing(cfg, memory))
    ensures ParseScalar(Handing(cfg, memory), t, pos, events) == ParseScalar(cfg, t, pos, events)
    ensures Peek(t, pos) == '"' ==> LeftAt(cfg, t, pos) == []
  {
    hide GoodLexers, ParseText, LeftAt, StringsFit;
    HandingIsGood(cfg, memory);
    if Peek(t, pos) == '"' {
      TextSame(cfg, memory, t, pos, events, false);
    }
  }

  /** Where the strings fit, a transition over bytes is the transition over frames. */
  lemma TransitInBytes(cfg: Config, memory: Memory, t: Text, m: Machine)
    requires GoodLexers(cfg) && m.pos < |t| && Valid(m) && CountsShort(m.stack)
    requires StringsFit(EventsAfter(m.events, Transit(cfg, t, m)))
    ensures SharedTransit(cfg, memory, t, InBytes(m)) == MoveInBytes(Transit(cfg, t, m))
    ensures Transit(cfg, t, m).To? ==> CountsShort(Transit(cfg, t, m).m.stack)
  {
    hide GoodLexers, ParseScalar, ParseText, Saved, Low, WordOf, Code, StateOf, StringsFit, Predict, Tokenize, LeftAt;
    var dst := Predict(m.state, Tokenize(Peek(t, m.pos)));
    PredictStack(m, Tokenize(Peek(t, m.pos)));
    match dst
    case Error =>
    case ObjectInitial => EnterInBytes(cfg, m, dst);
    case ArrayInitial => EnterInBytes(cfg, m, dst);
    case MemberKey => TextSame(cfg, memory, t, m.pos, m.events, true);
    case KeyValueDelimiter =>
    case MemberDelimiter => DelimiterInBytes(m, dst);
    case ElementDelimiter => DelimiterInBytes(m, dst);
    case ObjectFinish => LeaveInBytes(cfg, m, true);
    case ArrayFinish => LeaveInBytes(cfg, m, false);
    case _ => ScalarSame(cfg, memory, t, m.pos, m.events);
  }

  lemma PredictStack(m: Machine, k: Token)
    requires Valid(m)
    ensures var d := Predict(m.state, k);
            d.MemberDelimiter? || d.ElementDelimiter? || d.ObjectFinish? || d.ArrayFinish? ==> m.stack != []
  {
  }

  lemma EnterInBytes(cfg: Config, m: Machine, d: State)
    requires (d.ObjectInitial? || d.ArrayInitial?) && CountsShort(m.stack)
    ensures EnterStep(cfg, InBytes(m), d) == MoveInBytes(EnterMove(cfg, m, d))
    ensures EnterMove(cfg, m, d).To? ==> CountsShort(EnterMove(cfg, m, d).m.stack)
  {
    hide Saved, Low, Code;
    var n := if m.state.ArrayInitial? || m.state.ElementDelimiter? then Element
             else if m.state.KeyValueDelimiter? then MemberValue
             else m.state;
    SavedSnoc(m.stack, Frame(n, 0));
  }

  lemma DelimiterInBytes(m: Machine, d: State)
    requires m.stack != [] && CountsShort(m.stack)
    ensures DelimiterStep(InBytes(m), d) == MoveInBytes(DelimiterMove(m, d))
    ensures CountsShort(DelimiterMove(m, d).m.stack)
  {
    hide Saved, Low, Code, WordOf;
    var top := m.stack[|m.stack| - 1];
    SavedTop(m.stack);
    SavedSnoc(m.stack[..|m.stack| - 1], top.(count := Increment(top.count)));
  }

  lemma LeaveInBytes(cfg: Config, m: Machine, isObject: bool)
    requires m.stack != [] && CountsShort(m.stack) && Valid(m)
    ensures LeaveStep(cfg, InBytes(m), isObject) == MoveInBytes(LeaveMove(cfg, m, isObject))
    ensures LeaveMove(cfg, m, isObject).To? ==> CountsShort(LeaveMove(cfg, m, isObject).m.stack)
  {
    hide Saved, Low, Code, WordOf, StateOf;
    SavedTop(m.stack);
    StateOfCode(m.stack[|m.stack| - 1].state);
  }

  /** A transition only adds events. */
  lemma TransitGrows(cfg: Config, t: Text, m: Machine)
    requires GoodLexers(cfg) && m.pos < |t| && Valid(m)
    ensures m.events <= EventsAfter(m.events, Transit(cfg, t, m))
  {
    hide GoodLexers, ParseScalar, ParseText, Predict, Tokenize;
    ScalarGrows(cfg, t, m.pos, m.events);
    TextGrows(cfg, t, m.pos, m.events, true);
  }

  lemma ScalarGrows(cfg: Config, t: Text, pos: nat, events: seq<Event>)
    requires GoodLexers(cfg) && pos <= |t|
    ensures events <= ParseScalar(cfg, t, pos, events).events
  {
    hide GoodLexers, Matched;
  }

  lemma TextGrows(cfg: Config, t: Text, pos: nat, events: seq<Event>, isKey: bool)
    requires GoodLexers(cfg) && pos < |t|
    ensures events <= ParseText(cfg, t, pos, events, isKey).events
  {
    hide GoodLexers;
  }

  lemma {:induction false} LoopGrows(cfg: Config, t: Text, m: Machine)
    requires GoodLexers(cfg) && m.pos <= |t| && Valid(m)
    ensures m.events <= Loop(cfg, t, m).events
    decreases |t| - m.pos
  {
    hide GoodLexers, Transit, Skip;
    if Peek(t, m.pos) != '\0' {
      TransitValid(cfg, t, m);
      TransitGrows(cfg, t, m);
      var v := Transit(cfg, t, m);
      if v.To? {
        ResumeGrows(cfg, t, v.m);
        var s := Skip(cfg, t, v.m.pos, v.m.events);
        if !(cfg.stopWhenDone && v.m.state.Finish?) && s.Ok? {
          LoopGrows(cfg, t, v.m.(pos := s.pos));
        }
      }
    }
  }

  lemma ResumeGrows(cfg: Config, t: Text, m: Machine)
    requires m.pos <= |t|
    ensures Skip(cfg, t, m.pos, m.events).events == m.events
  {
    hide SkipComments, SkipSpace;
  }

  lemma FitsBefore(events: seq<Event>, more: seq<Event>)
    requires events <= more && StringsFit(more)
    ensures StringsFit(events)
  {
  }

  /** What a run needs of its next turn, when the strings of all of it fit. */
  lemma TurnFits(cfg: Config, t: Text, m: Machine)
    requires GoodLexers(cfg) && m.pos <= |t| && Valid(m) && StringsFit(Loop(cfg, t, m).events) && Peek(t, m.pos) != '\0'
    ensures StringsFit(EventsAfter(m.events, Transit(cfg, t, m)))
  {
    hide GoodLexers, Transit, Skip, StringsFit;
    TransitValid(cfg, t, m);
    var v := Transit(cfg, t, m);
    if v.To? {
      ResumeGrows(cfg, t, v.m);
      var s := Skip(cfg, t, v.m.pos, v.m.events);
      if !(cfg.stopWhenDone && v.m.state.Finish?) && s.Ok? {
        LoopGrows(cfg, t, v.m.(pos := s.pos));
        FitsBefore(v.m.events, Loop(cfg, t, m).events);
      }
    } else if v.Refused? {
      assert Loop(cfg, t, m).events == m.events;
    }
  }

  /** Where the strings of a run fit, the parser over bytes does what the parser over frames does. */
  lemma {:induction false} LoopInBytes(cfg: Config, memory: Memory, t: Text, m: Machine)
    requires GoodLexers(cfg) && m.pos <= |t| && Valid(m) && CountsShort(m.stack) && StringsFit(Loop(cfg, t, m).events)
    ensures SharedLoop(cfg, memory, t, InBytes(m)) == Done(Loop(cfg, t, m))
    decreases |t| - m.pos
  {
    hide GoodLexers, Transit, SharedTransit, Skip, StringsFit, Saved, CountsShort;
    if Peek(t, m.pos) != '\0' {
      TransitValid(cfg, t, m);
      TurnFits(cfg, t, m);
      TransitInBytes(cfg, memory, t, m);
      var v := Transit(cfg, t, m);
      if v.To? {
        var s := Skip(cfg, t, v.m.pos, v.m.events);
        if !(cfg.stopWhenDone && v.m.state.Finish?) && s.Ok? {
          LoopInBytes(cfg, memory, t, v.m.(pos := s.pos));
        }
      }
    }
  }

  lemma ParseInBytes(cfg: Config, memory: Memory, t: Text)
    requires GoodLexers(cfg) && StringsFit(IterativeParse(cfg, t).events)
    ensures SharedParse(cfg, memory, t) == Done(IterativeParse(cfg, t))
  {
    hide GoodLexers, Loop, SharedLoop, Skip, StringsFit;
    var s := Skip(cfg, t, 0, []);
    if s.Ok? {
      LoopInBytes(cfg, memory, t, Machine(Start, [], s.pos, s.events));
    }
  }

  // ---- The recursive parser ---------------------------------------------------------------------

  lemma TransitHanding(cfg: Config, memory: Memory, t: Text, m: Machine)
    requires GoodLexers(cfg) && GoodLexers(Handing(cfg, memory)) && m.pos < |t| && Valid(m)
    requires StringsFit(EventsAfter(m.events, Transit(cfg, t, m)))
    ensures Transit(Handing(cfg, memory), t, m) == Transit(cfg, t, m)
  {
    hide GoodLexers, ParseScalar, ParseText, StringsFit, Predict, Tokenize;
    var dst := Predict(m.state, Tokenize(Peek(t, m.pos)));
    PredictStack(m, Tokenize(Peek(t, m.pos)));
    match dst
    case MemberKey => TextSame(cfg, memory, t, m.pos, m.events, true);
    case MemberValue => ScalarSame(cfg, memory, t, m.pos, m.events);
    case Element => ScalarSame(cfg, memory, t, m.pos, m.events);
    case Value => ScalarSame(cfg, memory, t, m.pos, m.events);
    case Finish => ScalarSame(cfg, memory, t, m.pos, m.events);
    case Start => ScalarSame(cfg, memory, t, m.pos, m.events);
    case _ =>
  }

  lemma {:induction false} LoopHanding(cfg: Config, memory: Memory, t: Text, m: Machine)
    requires GoodLexers(cfg) && GoodLexers(Handing(cfg, memory)) && m.pos <= |t| && Valid(m)
    requires StringsFit(Loop(cfg, t, m).events)
    ensures RunLoop(Handing(cfg, memory), t, m) == RunLoop(cfg, t, m)
    decreases |t| - m.pos
  {
    hide GoodLexers, Transit, Skip, StringsFit;
    if Peek(t, m.pos) != '\0' {
      TransitValid(cfg, t, m);
      TurnFits(cfg, t, m);
      TransitHanding(cfg, memory, t, m);
      var v := Transit(cfg, t, m);
      if v.To? {
        SkipHanding(cfg, memory, t, v.m.pos, v.m.events);
        var s := Skip(cfg, t, v.m.pos, v.m.events);
        if !(cfg.stopWhenDone && v.m.state.Finish?) && s.Ok? {
          LoopHanding(cfg, memory, t, v.m.(pos := s.pos));
        }
        assert RunResume(Handing(cfg, memory), t, v.m) == RunResume(cfg, t, v.m);
      }
    }
  }

  lemma SkipHanding(cfg: Config, memory: Memory, t: Text, pos: nat, events: seq<Event>)
    requires pos <= |t|
    ensures Skip(Handing(cfg, memory), t, pos, events) == Skip(cfg, t, pos, events)
  {
    hide SkipComments, SkipSpace;
  }

  lemma DocumentHanding(cfg: Config, memory: Memory, t: Text)
    requires GoodLexers(cfg) && GoodLexers(Handing(cfg, memory)) && StringsFit(IterativeParse(cfg, t).events)
    ensures RunDocument(Handing(cfg, memory), t) == RunDocument(cfg, t)
    ensures IterativeParse(Handing(cfg, memory), t) == IterativeParse(cfg, t)
    ensures StrayFirst(Handing(cfg, memory), t) <==> StrayFirst(cfg, t)
  {
    hide GoodLexers, Loop, LoopLast, Skip, StringsFit;
    SkipHanding(cfg, memory, t, 0, []);
    var s := Skip(cfg, t, 0, []);
    if s.Ok? {
      LoopHanding(cfg, memory, t, Machine(Start, [], s.pos, s.events));
    }
  }

  /** A failed run of the table-driven parser leaves one error to the recursive one. */
  lemma OneError(cfg: Config, w: Config, r: Result, r': Result, i: Run)
    requires SameError(cfg, r, i) && SameError(w, r', i) && w.accepts == cfg.accepts
    ensures r == r'
  {
  }

  /** Where the strings of a run fit, the recursive parser hands over just what it reads. */
  lemma RecursiveHanding(cfg: Config, memory: Memory, t: Text)
    requires GoodLexers(cfg) && StringsFit(ParseDocument(cfg, t).events)
    ensures GoodLexers(Handing(cfg, memory)) && ParseDocument(Handing(cfg, memory), t) == ParseDocument(cfg, t)
    ensures IterativeParse(cfg, t).events == ParseDocument(cfg, t).events
  {
    hide GoodLexers, ParseDocument, IterativeParse, RunDocument, StrayFirst, SameError, StringsFit;
    HandingIsGood(cfg, memory);
    var w := Handing(cfg, memory);
    ParsersAgree(cfg, t);
    ParsersAgree(w, t);
    SameEvents(cfg, t);
    DocumentHanding(cfg, memory, t);
    var r, r' := ParseDocument(cfg, t), ParseDocument(w, t);
    if r.Err? && r'.Err? && !StrayFirst(cfg, t) {
      OneError(cfg, w, r, r', RunDocument(cfg, t));
    }
    if r.Err? && !StrayFirst(cfg, t) {
      ErrIsErr(cfg, r, RunDocument(cfg, t));
    }
    if r'.Err? && !StrayFirst(cfg, t) {
      ErrIsErr(w, r', RunDocument(cfg, t));
    }
  }

  lemma SameEvents(cfg: Config, t: Text)
    requires GoodLexers(cfg)
    ensures IterativeParse(cfg, t).events == ParseDocument(cfg, t).events
  {
    hide GoodLexers, ParseDocument, IterativeParse, RunDocument, StrayFirst, OffsetsAgree;
    ParsersAgree(cfg, t);
  }

  lemma ErrIsErr(cfg: Config, r: Result, i: Run)
    requires SameError(cfg, r, i)
    ensures i.r.Err?
  {
  }

  // ---- Short texts ------------------------------------------------------------------------------

  /** No string in the text is longer than the stack can count. */
  ghost predicate ShortStrings(cfg: Config, t: Text) {
    forall i: nat {:trigger cfg.parseString(t, i)} :: i < |t| && cfg.parseString(t, i).Lexeme? ==>
      StringFits(cfg.parseString(t, i).value)
  }

  lemma TextFits(cfg: Config, t: Text, pos: nat, events: seq<Event>, isKey: bool)
    requires GoodLexers(cfg) && ShortStrings(cfg, t) && pos < |t| && StringsFit(events)
    ensures StringsFit(ParseText(cfg, t, pos, events, isKey).events)
  {
    hide GoodLexers, StringFits;
  }

  lemma ScalarFits(cfg: Config, t: Text, pos: nat, events: seq<Event>)
    requires GoodLexers(cfg) && ShortStrings(cfg, t) && pos <= |t| && StringsFit(events)
    ensures StringsFit(ParseScalar(cfg, t, pos, events).events)
  {
    hide GoodLexers, ShortStrings, StringFits, Matched, ParseText;
    if Peek(t, pos) == '"' {
      TextFits(cfg, t, pos, events, false);
    }
  }

  lemma TransitFits(cfg: Config, t: Text, m: Machine)
    requires GoodLexers(cfg) && ShortStrings(cfg, t) && m.pos < |t| && Valid(m) && StringsFit(m.events)
    ensures StringsFit(EventsAfter(m.events, Transit(cfg, t, m)))
  {
    hide GoodLexers, ShortStrings, StringFits, ParseScalar, ParseText;
    ScalarFits(cfg, t, m.pos, m.events);
    TextFits(cfg, t, m.pos, m.events, true);
  }

  lemma {:induction false} LoopFits(cfg: Config, t: Text, m: Machine)
    requires GoodLexers(cfg) && ShortStrings(cfg, t) && m.pos <= |t| && Valid(m) && StringsFit(m.events)
    ensures StringsFit(Loop(cfg, t, m).events)
    decreases |t| - m.pos
  {
    hide GoodLexers, ShortStrings, StringsFit, Transit, Skip;
    if Peek(t, m.pos) != '\0' {
      TransitValid(cfg, t, m);
      TransitFits(cfg, t, m);
      var v := Transit(cfg, t, m);
      if v.To? {
        ResumeGrows(cfg, t, v.m);
        var s := Skip(cfg, t, v.m.pos, v.m.events);
        if !(cfg.stopWhenDone && v.m.state.Finish?) && s.Ok? {
          LoopFits(cfg, t, v.m.(pos := s.pos));
        }
      }
    }
  }

  lemma DocumentFits(cfg: Config, t: Text)
    requires GoodLexers(cfg) && ShortStrings(cfg, t)
    ensures StringsFit(ParseDocument(cfg, t).events)
  {
    hide GoodLexers, ShortStrings, Loop, Skip, ParseDocument;
    SameEvents(cfg, t);
    NoEventsSkip(cfg, t);
    var s := Skip(cfg, t, 0, []);
    if s.Ok? {
      LoopFits(cfg, t, Machine(Start, [], s.pos, s.events));
    }
  }

  lemma NoEventsSkip(cfg: Config, t: Text)
    ensures Skip(cfg, t, 0, []).events == []
  {
    hide SkipComments, SkipSpace;
  }

  // ---- A string too long ------------------------------------------------------------------------

  /** An array with one string of 2^32 letters and nothing else. */
  predicate OneLongString(cfg: Config, t: Text) {
    && |t| > 3 && t[0] == '[' && t[1] == '"' && t[|t| - 1] == ']'
    && var r := cfg.parseString(t, 1);
    && r.Lexeme? && r.next == |t| - 1 && |r.value| == SIZE_LIMIT && forall i :: 0 <= i < |r.value| ==> r.value[i] == 'a'
  }

  const FOUR_LETTERS: nat := 0x61616161

  lemma LettersLeft(s: string, behind: string, below: seq<Byte>)
    requires |s| == SIZE_LIMIT && forall i :: 0 <= i < |s| ==> s[i] == 'a'
    ensures HandedOver(s, behind) == ""
    ensures var stack := below + LeftBehind(s);
            && |stack| >= 8 && WordOf(stack[|stack| - 4..]) == FOUR_LETTERS
            && WordOf(stack[..|stack| - 4][|stack| - 8..]) == FOUR_LETTERS
  {
    hide WordOf;
    var left := LeftBehind(s);
    assert Counted(s) == 1 && |left| == SIZE_LIMIT;
    assert forall i :: 0 <= i < |left| ==> left[i] == 0x61;
    var four: seq<Byte> := [0x61, 0x61, 0x61, 0x61];
    var stack := below + left;
    assert stack[|stack| - 4..] == four && stack[..|stack| - 4][|stack| - 8..] == four;
    FourLetters();
  }

  lemma FourLetters()
    ensures WordOf([0x61, 0x61, 0x61, 0x61]) == FOUR_LETTERS && StateOf(FOUR_LETTERS) == NoState
    ensures Increment(FOUR_LETTERS) == FOUR_LETTERS + 1
  {
  }

  /** The recursive parser hands over an empty string, the letters being left, and reports one element. */
  lemma LongStringRecursive(cfg: Config, memory: Memory, t: Text)
    requires GoodLexers(cfg) && OneLongString(cfg, t) && (forall e {:trigger cfg.accepts(e)} :: cfg.accepts(e))
    ensures GoodLexers(Handing(cfg, memory))
    ensures ParseDocument(Handing(cfg, memory), t) == Ok(|t|, [StartArray, String(""), EndArray(1)])
  {
    hide GoodLexers, Skip, HandedOver, Elements, AfterElement;
    HandingIsGood(cfg, memory);
    var w, n := Handing(cfg, memory), |t| - 1;
    LettersLeft(cfg.parseString(t, 1).value, memory(t, 1), []);
    SkipNothing(w, t, 0, []);
    SkipNothing(w, t, 1, [StartArray]);
    SkipNothing(w, t, n, [StartArray, String("")]);
    assert [] + [StartArray] == [StartArray];
    assert [StartArray] + [String("")] == [StartArray, String("")];
    assert [StartArray, String("")] + [EndArray(1)] == [StartArray, String(""), EndArray(1)];
    assert ParseValue(w, t, 1, [StartArray]) == Ok(n, [StartArray, String("")]);
    OneElement(w, t, n);
    assert ParseValue(w, t, 0, []) == Elements(w, t, 1, [StartArray], 0);
    EndOfText(w, t, [StartArray, String(""), EndArray(1)]);
  }

  lemma OneElement(w: Config, t: Text, n: nat)
    requires GoodLexers(w) && (forall e {:trigger w.accepts(e)} :: w.accepts(e)) && 1 < n == |t| - 1 && t[n] == ']'
    requires ParseValue(w, t, 1, [StartArray]) == Ok(n, [StartArray, String("")])
    ensures Elements(w, t, 1, [StartArray], 0) == Ok(|t|, [StartArray, String("")] + [EndArray(1)])
  {
    hide GoodLexers, Skip, ParseValue;
    SkipNothing(w, t, n, [StartArray, String("")]);
  }

  lemma EndOfText(cfg: Config, t: Text, events: seq<Event>)
    ensures Epilogue(cfg, t, |t|, events) == Ok(|t|, events)
  {
  }

  /** The table-driven parser takes four letters for its count of elements, and four for its state. */
  lemma LongStringShared(cfg: Config, memory: Memory, t: Text)
    requires GoodLexers(cfg) && OneLongString(cfg, t) && (forall e {:trigger cfg.accepts(e)} :: cfg.accepts(e))
    ensures SharedParse(cfg, memory, t) == Astray([StartArray, String(""), EndArray(FOUR_LETTERS + 1)])
  {
    hide GoodLexers, Skip, HandedOver, LeftBehind, SharedTransit, SharedLoop, Low, Code;
    var n, s := |t| - 1, cfg.parseString(t, 1).value;
    var below := Low(Code(Start)) + Low(0);
    SkipNothing(cfg, t, 0, []);
    var m0 := SharedMachine(Start, [], 0, []);
    var m1 := SharedMachine(ArrayInitial, below, 1, [StartArray]);
    var m2 := SharedMachine(Element, below + LeftBehind(s), n, [StartArray, String("")]);
    FirstBracket(cfg, memory, t);
    SharedStep(cfg, memory, t, m0, m1);
    LongStringTaken(cfg, memory, t);
    SharedStep(cfg, memory, t, m1, m2);
    LastBracket(cfg, memory, t, m2);
    SharedEnd(cfg, memory, t, m2);
  }

  /** A turn of the loop without white space behind the token. */
  lemma SharedStep(cfg: Config, memory: Memory, t: Text, m: SharedMachine, m': SharedMachine)
    requires GoodLexers(cfg) && m.pos < |t| && t[m.pos] != '\0'
    requires SharedTransit(cfg, memory, t, m) == STo(m') && !m'.state.Finish?
    requires m'.pos < |t| && !IsSpace(t[m'.pos]) && t[m'.pos] != '/'
    ensures SharedLoop(cfg, memory, t, m) == SharedLoop(cfg, memory, t, m')
  {
    hide GoodLexers, SharedTransit, Skip;
    SkipNothing(cfg, t, m'.pos, m'.events);
  }

  lemma SharedEnd(cfg: Config, memory: Memory, t: Text, m: SharedMachine)
    requires GoodLexers(cfg) && m.pos < |t| && t[m.pos] != '\0' && SharedTransit(cfg, memory, t, m).SAstray?
    ensures SharedLoop(cfg, memory, t, m) == Astray(SharedTransit(cfg, memory, t, m).events)
  {
    hide GoodLexers, SharedTransit;
  }

  lemma FirstBracket(cfg: Config, memory: Memory, t: Text)
    requires GoodLexers(cfg) && t != [] && t[0] == '[' && cfg.accepts([StartArray])
    ensures SharedTransit(cfg, memory, t, SharedMachine(Start, [], 0, [])) ==
              STo(SharedMachine(ArrayInitial, Low(Code(Start)) + Low(0), 1, [StartArray]))
  {
    hide GoodLexers, Low, Code;
    assert [] + [StartArray] == [StartArray] && [] + Low(Code(Start)) == Low(Code(Start));
  }

  lemma LongStringTaken(cfg: Config, memory: Memory, t: Text)
    requires GoodLexers(cfg) && OneLongString(cfg, t) && cfg.accepts([StartArray, String("")])
    ensures var below := Low(Code(Start)) + Low(0);
            var stack := below + LeftBehind(cfg.parseString(t, 1).value);
            SharedTransit(cfg, memory, t, SharedMachine(ArrayInitial, below, 1, [StartArray])) ==
              STo(SharedMachine(Element, stack, |t| - 1, [StartArray, String("")]))
  {
    hide GoodLexers, Low, Code, HandedOver, LeftBehind;
    HandingIsGood(cfg, memory);
    LettersLeft(cfg.parseString(t, 1).value, memory(t, 1), []);
    assert [StartArray] + [String("")] == [StartArray, String("")];
  }

  lemma LastBracket(cfg: Config, memory: Memory, t: Text, m: SharedMachine)
    requires GoodLexers(cfg) && OneLongString(cfg, t) && (forall e {:trigger cfg.accepts(e)} :: cfg.accepts(e))
    requires exists below: seq<Byte> :: m.stack == below + LeftBehind(cfg.parseString(t, 1).value)
    requires m.state.Element? && m.pos == |t| - 1 && m.events == [StartArray, String("")]
    ensures SharedTransit(cfg, memory, t, m) == SAstray([StartArray, String(""), EndArray(FOUR_LETTERS + 1)])
  {
    hide GoodLexers, LeftBehind, HandedOver, WordOf, StateOf;
    var s := cfg.parseString(t, 1).value;
    var below: seq<Byte> :| m.stack == below + LeftBehind(s);
    LettersLeft(s, "", below);
    FourLetters();
    var rest := m.stack[..|m.stack| - 4];
    assert WordOf(m.stack[Top(m.stack)..]) == FOUR_LETTERS && WordOf(rest[Top(rest)..]) == FOUR_LETTERS;
    assert Peek(t, m.pos) == ']' && Predict(Element, Tokenize(']')) == ArrayFinish;
    var last := EndArray(FOUR_LETTERS + 1);
    assert [StartArray, String("")] + [last] == [StartArray, String(""), last];
  }
}
