/**
 What the two JSON parsers of the reader share: the text as a null-terminated stream, events and the
 handler that receives them, error codes, white space and comments, and the scalar values.
 */
module JsonTypes {

  type Text = seq<char>

  /** Peek: the character at a position, or NUL at the end of the text. */
  function Peek(t: Text, pos: nat): char {
    if pos < |t| then t[pos] else '\0'
  }

  /** SizeType is a 32-bit count. */
  function Increment(count: nat): nat {
    (count + 1) % 0x1_0000_0000
  }

  datatype Number = Int(n: int) | Double(digits: string)

  datatype Event =
    | Null
    | Bool(b: bool)
    | Num(number: Number)
    | String(s: string)
    | StartObject
    | Key(s: string)
    | EndObject(memberCount: nat)
    | StartArray
    | EndArray(elementCount: nat)

  datatype ErrorCode =
    | DocumentEmpty
    | DocumentRootNotSingular
    | ValueInvalid
    | ObjectMissName
    | ObjectMissColon
    | ObjectMissCommaOrCurlyBracket
    | ArrayMissCommaOrSquareBracket
    | StringError(number: nat)
    | NumberError(number: nat)
    | Termination
    | UnspecificSyntaxError

  /** A lexeme read from the text: its value and the position behind it, or an error and its offset. */
  datatype Lexeme<T> = Lexeme(value: T, next: nat) | BadLexeme(code: ErrorCode, offset: nat)

  /**
   The parse flags, the string and number parsers both JSON parsers call, and the handler, which accepts
   or rejects each event knowing all that came before it.
   */
  datatype Config = Config(
    comments: bool,
    trailingCommas: bool,
    stopWhenDone: bool,
    parseString: (Text, nat) -> Lexeme<string>,
    parseNumber: (Text, nat) -> Lexeme<Number>,
    accepts: seq<Event> -> bool)

  predicate NumberStart(c: char) {
    c == '-' || '0' <= c <= '9' || c == 'I' || c == 'N'
  }

  /**
   What is assumed of ParseString and ParseNumber: they make progress and stay inside the text, and
   ParseNumber reports ValueInvalid at once where no number can begin.
   */
  ghost predicate GoodLexers(cfg: Config) {
    && (forall t, i: nat {:trigger cfg.parseString(t, i)} :: i < |t| && cfg.parseString(t, i).Lexeme? ==>
          i < cfg.parseString(t, i).next <= |t|)
    && (forall t, i: nat {:trigger cfg.parseNumber(t, i)} :: i <= |t| && cfg.parseNumber(t, i).Lexeme? ==>
          i < cfg.parseNumber(t, i).next <= |t|)
    && (forall t, i: nat {:trigger cfg.parseNumber(t, i)} :: i <= |t| && !NumberStart(Peek(t, i)) ==>
          cfg.parseNumber(t, i) == BadLexeme(ValueInvalid, i))
  }

  /** The stream position and the events reported so far, or the error that ended the parse. */
  datatype Result =
    | Ok(pos: nat, events: seq<Event>)
    | Err(code: ErrorCode, offset: nat, events: seq<Event>)

  /** Report an event; if the handler rejects it the parse ends with an error at `offset`. */
  function Report(cfg: Config, events: seq<Event>, e: Event, pos: nat, offset: nat): Result {
    if cfg.accepts(events + [e]) then Ok(pos, events + [e]) else Err(Termination, offset, events + [e])
  }

  // ---- White space and comments -----------------------------------------------------------------

  predicate IsSpace(c: char) {
    c == ' ' || c == '\n' || c == '\r' || c == '\t'
  }

  function SkipSpace(t: Text, i: nat): (j: nat)
    requires i <= |t|
    ensures i <= j <= |t|
    decreases |t| - i
  {
    if i < |t| && IsSpace(t[i]) then SkipSpace(t, i + 1) else i
  }

  datatype Skipped = At(pos: nat) | SkipError(offset: nat)

  /** The end of a block comment whose inside begins at `i`; unterminated at NUL. */
  function BlockComment(t: Text, i: nat): (r: Skipped)
    requires i <= |t|
    ensures r.At? ==> i < r.pos <= |t|
    decreases |t| - i
  {
    if Peek(t, i) == '\0' then SkipError(i)
    else if t[i] == '*' then
      if Peek(t, i + 1) == '/' then At(i + 2) else BlockComment(t, i + 1)
    else BlockComment(t, i + 1)
  }

  function LineComment(t: Text, i: nat): (j: nat)
    requires i <= |t|
    ensures i <= j <= |t|
    decreases |t| - i
  {
    if Peek(t, i) == '\0' then i else if t[i] == '\n' then i + 1 else LineComment(t, i + 1)
  }

  /** The comments, and the white space between them, from a position that is not white space. */
  function SkipComments(t: Text, i: nat): (r: Skipped)
    requires i <= |t|
    ensures r.At? ==> i <= r.pos <= |t|
    decreases |t| - i
  {
    if Peek(t, i) != '/' then At(i)
    else if Peek(t, i + 1) == '*' then
      match BlockComment(t, i + 2)
      case At(j) => SkipComments(t, SkipSpace(t, j))
      case SkipError(e) => SkipError(e)
    else if Peek(t, i + 1) == '/' then SkipComments(t, SkipSpace(t, LineComment(t, i + 2)))
    else SkipError(i + 1)
  }

  /** SkipWhitespaceAndComments, as a step of the parse. */
  function Skip(cfg: Config, t: Text, pos: nat, events: seq<Event>): (r: Result)
    requires pos <= |t|
    ensures r.Ok? ==> pos <= r.pos <= |t| && r.events == events
  {
    var i := SkipSpace(t, pos);
    if !cfg.comments then Ok(i, events)
    else
      match SkipComments(t, i)
      case At(j) => Ok(j, events)
      case SkipError(offset) => Err(UnspecificSyntaxError, offset, events)
  }

  // ---- Scalars ----------------------------------------------------------------------------------

  /** How many characters of `word` the text has at `pos`. */
  function Matched(t: Text, pos: nat, word: string): (n: nat)
    ensures n <= |word|
    ensures n > 0 ==> pos + n <= |t|
    decreases |word|
  {
    if |word| > 0 && pos < |t| && t[pos] == word[0] then 1 + Matched(t, pos + 1, word[1..]) else 0
  }

  /** ParseNull, ParseTrue and ParseFalse. */
  function ParseWord(cfg: Config, t: Text, pos: nat, events: seq<Event>, word: string, e: Event): (r: Result)
    requires pos <= |t| && |word| > 0
    ensures r.Ok? ==> pos < r.pos <= |t|
  {
    var n := Matched(t, pos, word);
    if n == |word| then Report(cfg, events, e, pos + n, pos + n) else Err(ValueInvalid, pos + n, events)
  }

  /** ParseString, for a value or for the name of a member. */
  function ParseText(cfg: Config, t: Text, pos: nat, events: seq<Event>, isKey: bool): (r: Result)
    requires GoodLexers(cfg) && pos < |t|
    ensures r.Ok? ==> pos < r.pos <= |t|
  {
    match cfg.parseString(t, pos)
    case Lexeme(s, next) => Report(cfg, events, if isKey then Key(s) else String(s), next, next)
    case BadLexeme(code, offset) => Err(code, offset, events)
  }

  /** ParseNumber; a rejected number is reported at its start. */
  function ParseNumber(cfg: Config, t: Text, pos: nat, events: seq<Event>): (r: Result)
    requires GoodLexers(cfg) && pos <= |t|
    ensures r.Ok? ==> pos < r.pos <= |t|
  {
    match cfg.parseNumber(t, pos)
    case Lexeme(n, next) => Report(cfg, events, Num(n), next, pos)
    case BadLexeme(code, offset) => Err(code, offset, events)
  }

  /** ParseValue on anything but an object or an array. */
  function ParseScalar(cfg: Config, t: Text, pos: nat, events: seq<Event>): (r: Result)
    requires GoodLexers(cfg) && pos <= |t|
    ensures r.Ok? ==> pos < r.pos <= |t|
  {
    var c := Peek(t, pos);
    if c == 'n' then ParseWord(cfg, t, pos, events, "null", Null)
    else if c == 't' then ParseWord(cfg, t, pos, events, "true", Bool(true))
    else if c == 'f' then ParseWord(cfg, t, pos, events, "false", Bool(false))
    else if c == '"' then ParseText(cfg, t, pos, events, false)
    else ParseNumber(cfg, t, pos, events)
  }
}
