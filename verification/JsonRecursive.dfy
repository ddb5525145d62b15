/**
 The recursive-descent parser of the reader, as functions of the position and the events so far.
 */
module JsonRecursive {
  import opened JsonTypes

  /** ParseValue. */
  function ParseValue(cfg: Config, t: Text, pos: nat, events: seq<Event>): (r: Result)
    requires GoodLexers(cfg) && pos <= |t|
    ensures r.Ok? ==> pos < r.pos <= |t|
    decreases |t| - pos, 3
  {
    var c := Peek(t, pos);
    if c == '{' then ParseObject(cfg, t, pos, events)
    else if c == '[' then ParseArray(cfg, t, pos, events)
    else ParseScalar(cfg, t, pos, events)
  }

  /** ParseObject, at its opening bracket. */
  function ParseObject(cfg: Config, t: Text, pos: nat, events: seq<Event>): (r: Result)
    requires GoodLexers(cfg) && pos < |t|
    ensures r.Ok? ==> pos < r.pos <= |t|
    decreases |t| - pos, 2
  {
    match Report(cfg, events, StartObject, pos + 1, pos + 1)
    case Err(c, o, e) => Err(c, o, e)
    case Ok(p1, e1) =>
      match Skip(cfg, t, p1, e1)
      case Err(c, o, e) => Err(c, o, e)
      case Ok(p2, e2) =>
        if Peek(t, p2) == '}' then Report(cfg, e2, EndObject(0), p2 + 1, p2 + 1)
        else Members(cfg, t, p2, e2, 0)
  }

  /** The loop of ParseObject, before the name of a member; `count` members have been read. */
  function Members(cfg: Config, t: Text, pos: nat, events: seq<Event>, count: nat): (r: Result)
    requires GoodLexers(cfg) && pos <= |t|
    ensures r.Ok? ==> pos < r.pos <= |t|
    decreases |t| - pos, 1
  {
    if Peek(t, pos) != '"' then Err(ObjectMissName, pos, events)
    else
      match ParseText(cfg, t, pos, events, true)
      case Err(c, o, e) => Err(c, o, e)
      case Ok(p1, e1) =>
        match Skip(cfg, t, p1, e1)
        case Err(c, o, e) => Err(c, o, e)
        case Ok(p2, e2) =>
          if Peek(t, p2) != ':' then Err(ObjectMissColon, p2, e2)
          else
            match Skip(cfg, t, p2 + 1, e2)
            case Err(c, o, e) => Err(c, o, e)
            case Ok(p3, e3) =>
              match ParseValue(cfg, t, p3, e3)
              case Err(c, o, e) => Err(c, o, e)
              case Ok(p4, e4) =>
                match Skip(cfg, t, p4, e4)
                case Err(c, o, e) => Err(c, o, e)
                case Ok(p5, e5) => AfterMember(cfg, t, p5, e5, Increment(count))
  }

  /** The loop of ParseObject, behind a member. */
  function AfterMember(cfg: Config, t: Text, pos: nat, events: seq<Event>, count: nat): (r: Result)
    requires GoodLexers(cfg) && pos <= |t|
    ensures r.Ok? ==> pos < r.pos <= |t|
    decreases |t| - pos, 0
  {
    if Peek(t, pos) == ',' then
      match Skip(cfg, t, pos + 1, events)
      case Err(c, o, e) => Err(c, o, e)
      case Ok(p, e) =>
        if cfg.trailingCommas && Peek(t, p) == '}' then Report(cfg, e, EndObject(count), p + 1, p)
        else Members(cfg, t, p, e, count)
    else if Peek(t, pos) == '}' then Report(cfg, events, EndObject(count), pos + 1, pos + 1)
    else Err(ObjectMissCommaOrCurlyBracket, pos, events)
  }

  /** ParseArray, at its opening bracket. */
  function ParseArray(cfg: Config, t: Text, pos: nat, events: seq<Event>): (r: Result)
    requires GoodLexers(cfg) && pos < |t|
    ensures r.Ok? ==> pos < r.pos <= |t|
    decreases |t| - pos, 2
  {
    match Report(cfg, events, StartArray, pos + 1, pos + 1)
    case Err(c, o, e) => Err(c, o, e)
    case Ok(p1, e1) =>
      match Skip(cfg, t, p1, e1)
      case Err(c, o, e) => Err(c, o, e)
      case Ok(p2, e2) =>
        if Peek(t, p2) == ']' then Report(cfg, e2, EndArray(0), p2 + 1, p2 + 1)
        else Elements(cfg, t, p2, e2, 0)
  }

  /** The loop of ParseArray, before an element; `count` elements have been read. */
  function Elements(cfg: Config, t: Text, pos: nat, events: seq<Event>, count: nat): (r: Result)
    requires GoodLexers(cfg) && pos <= |t|
    ensures r.Ok? ==> pos < r.pos <= |t|
    decreases |t| - pos, 4
  {
    match ParseValue(cfg, t, pos, events)
    case Err(c, o, e) => Err(c, o, e)
    case Ok(p1, e1) =>
      match Skip(cfg, t, p1, e1)
      case Err(c, o, e) => Err(c, o, e)
      case Ok(p2, e2) => AfterElement(cfg, t, p2, e2, Increment(count))
  }

  /** The loop of ParseArray, behind an element. */
  function AfterElement(cfg: Config, t: Text, pos: nat, events: seq<Event>, count: nat): (r: Result)
    requires GoodLexers(cfg) && pos <= |t|
    ensures r.Ok? ==> pos < r.pos <= |t|
    decreases |t| - pos, 0
  {
    if Peek(t, pos) == ',' then
      match Skip(cfg, t, pos + 1, events)
      case Err(c, o, e) => Err(c, o, e)
      case Ok(p, e) =>
        if cfg.trailingCommas && Peek(t, p) == ']' then Report(cfg, e, EndArray(count), p + 1, p)
        else Elements(cfg, t, p, e, count)
    else if Peek(t, pos) == ']' then Report(cfg, events, EndArray(count), pos + 1, pos + 1)
    else Err(ArrayMissCommaOrSquareBracket, pos, events)
  }

  /** Parse without the iterative flag. */
  function ParseDocument(cfg: Config, t: Text): Result
    requires GoodLexers(cfg)
  {
    match Skip(cfg, t, 0, [])
    case Err(c, o, e) => Err(c, o, e)
    case Ok(p1, e1) =>
      if Peek(t, p1) == '\0' then Err(DocumentEmpty, p1, e1)
      else
        match ParseValue(cfg, t, p1, e1)
        case Err(c, o, e) => Err(c, o, e)
        case Ok(p2, e2) => if cfg.stopWhenDone then Ok(p2, e2) else Epilogue(cfg, t, p2, e2)
  }

  /** What may follow the root value. */
  function Epilogue(cfg: Config, t: Text, pos: nat, events: seq<Event>): Result
    requires pos <= |t|
  {
    match Skip(cfg, t, pos, events)
    case Err(c, o, e) => Err(c, o, e)
    case Ok(p, e) => if Peek(t, p) != '\0' then Err(DocumentRootNotSingular, p, e) else Ok(p, e)
  }

  // ---- Texts without white space ----------------------------------------------------------------

  lemma SkipNothing(cfg: Config, t: Text, pos: nat, events: seq<Event>)
    requires pos < |t| && !IsSpace(t[pos]) && t[pos] != '/'
    ensures Skip(cfg, t, pos, events) == Ok(pos, events)
  {
  }

  /** One empty array. */
  lemma EmptyArrayParsed(cfg: Config, t: Text, pos: nat, events: seq<Event>)
    requires GoodLexers(cfg) && pos + 1 < |t| && t[pos] == '[' && t[pos + 1] == ']'
    requires cfg.accepts(events + [StartArray]) && cfg.accepts(events + [StartArray] + [EndArray(0)])
    ensures ParseValue(cfg, t, pos, events) == Ok(pos + 2, events + [StartArray] + [EndArray(0)])
  {
    hide GoodLexers, Skip, Elements;
    SkipNothing(cfg, t, pos + 1, events + [StartArray]);
  }
}
