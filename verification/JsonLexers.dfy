/**
 The string and number parsers as the lexers of the JSON parsers: they meet what those assume of them.
 */
module JsonLexers {
  import opened JsonTypes
  import JsonRecursive
  import JsonIterative
  import JsonEquivalence
  import JsonSharedStack
  import JsonString
  import JsonNumber
  import opened Ascii

  // ---- The lexers -------------------------------------------------------------------------------

  function StringErrorOf(code: JsonString.ErrorCode): ErrorCode {
    match code
    case MissQuotationMark => StringError(0)
    case EscapeInvalid => StringError(1)
    case UnicodeEscapeInvalidHex => StringError(2)
    case UnicodeSurrogateInvalid => StringError(3)
    case InvalidEncoding => StringError(4)
  }

  function NumberErrorOf(code: JsonNumber.ErrorCode): ErrorCode {
    match code
    case NoNumber => ValueInvalid
    case MissFraction => NumberError(0)
    case MissExponent => NumberError(1)
    case TooBig => NumberError(2)
  }

  /** ParseString at an opening quote. */
  function StringAt(flags: JsonString.Flags, t: Text, i: nat): Lexeme<string> {
    if i >= |t| then BadLexeme(StringError(0), i)
    else
      match JsonString.Parsed(ToBytes(t[i + 1..]), flags)
      case Str(bytes, n) => Lexeme(ToChars(bytes), i + 1 + n)
      case BadString(code, offset) => BadLexeme(StringErrorOf(code), i + 1 + offset)
  }

  /** ParseNumber; `tooBig` says which numbers exceed the doubles. */
  function NumberAt(tooBig: string -> bool, t: Text, i: nat): Lexeme<Number> {
    match JsonNumber.ShapeOf(t, i)
    case Malformed(code, offset) => BadLexeme(NumberErrorOf(code), offset)
    case Integer(next) =>
      var a := JsonNumber.IntBegin(t, i);
      var digits := Cut(t, i, next);
      if JsonNumber.IntegerEvent(Peek(t, i) == '-', JsonNumber.Value(t, a, JsonNumber.IntEnd(t, a)),
                                 next).DoubleEvent? then
        if tooBig(digits) then BadLexeme(NumberErrorOf(JsonNumber.TooBig), i) else Lexeme(Double(digits), next)
      else
        var v: int := JsonNumber.Value(t, a, JsonNumber.IntEnd(t, a));
        Lexeme(Int(if Peek(t, i) == '-' then -v else v), next)
    case Decimal(next) =>
      var digits := Cut(t, i, next);
      if tooBig(digits) then BadLexeme(NumberErrorOf(JsonNumber.TooBig), i) else Lexeme(Double(digits), next)
  }

  function Cut(t: Text, i: nat, j: nat): string {
    if i <= j <= |t| then t[i..j] else []
  }

  function ConfigOf(comments: bool, trailingCommas: bool, stopWhenDone: bool, flags: JsonString.Flags,
                    tooBig: string -> bool, accepts: seq<Event> -> bool): Config {
    Config(comments, trailingCommas, stopWhenDone, (t: Text, i: nat) => StringAt(flags, t, i),
           (t: Text, i: nat) => NumberAt(tooBig, t, i), accepts)
  }

  /** What ParseNumber sends for a number, and the lexeme the parsers see. */
  predicate SameNumber(r: JsonNumber.Outcome, lexeme: Lexeme<Number>, t: Text, i: nat) {
    match r
    case Failed(code, offset) => lexeme == BadLexeme(NumberErrorOf(code), offset)
    case IntEvent(v, next) => lexeme == Lexeme(Int(v), next)
    case UintEvent(v, next) => lexeme == Lexeme(Int(v), next)
    case Int64Event(v, next) => lexeme == Lexeme(Int(v), next)
    case Uint64Event(v, next) => lexeme == Lexeme(Int(v), next)
    case DoubleEvent(_, _, _, next) => lexeme == Lexeme(Double(Cut(t, i, next)), next)
  }

  /**
   ParseNumber sends what the lexer of the parsers gives, if both have one opinion on whether the literal
   exceeds the doubles.
   */
  method NumberIsParsed(tooBig: string -> bool, exceeds: (real, int) -> bool, t: Text, i: nat)
    returns (r: JsonNumber.Outcome)
    requires i <= |t| && JsonNumber.ZerosFit(t, i)
    ensures (tooBig(Literal(t, i)) <==> r == JsonNumber.Failed(JsonNumber.TooBig, i)) ==>
              SameNumber(r, NumberAt(tooBig, t, i), t, i)
  {
    hide JsonNumber.Value, JsonNumber.ZerosFit, JsonNumber.SignificandIs, JsonNumber.ExponentIs,
      JsonNumber.ExponentTooBig, JsonNumber.FractionEnd;
    ghost var d, p, expFrac, used;
    r, d, p, expFrac, used := JsonNumber.ParseNumber(t, i, exceeds);
  }

  /** The characters of a number. */
  function Literal(t: Text, i: nat): string {
    match JsonNumber.ShapeOf(t, i)
    case Malformed(_, _) => []
    case Integer(next) => Cut(t, i, next)
    case Decimal(next) => Cut(t, i, next)
  }

  // ---- They are good ----------------------------------------------------------------------------

  lemma {:induction false} StringEnds(t: JsonString.Text, flags: JsonString.Flags)
    requires JsonString.Parsed(t, flags).Str?
    ensures 0 < JsonString.Parsed(t, flags).length <= |t|
    decreases |t|
  {
    hide JsonString.UnicodeUnit;
    var u := JsonString.NextUnit(t, flags);
    if u.Unit? {
      StringEnds(t[u.length..], flags);
    }
  }

  lemma NumberEnds(t: Text, i: nat)
    requires i <= |t|
    ensures match JsonNumber.ShapeOf(t, i)
            case Malformed(_, _) => true
            case Integer(next) => i < next <= |t|
            case Decimal(next) => i < next <= |t|
    ensures !NumberStart(Peek(t, i)) ==> JsonNumber.ShapeOf(t, i) == JsonNumber.Malformed(JsonNumber.NoNumber, i)
  {
    hide JsonNumber.Value;
    var a := JsonNumber.IntBegin(t, i);
    if JsonNumber.IsDigit(Peek(t, a)) {
      var b := JsonNumber.IntEnd(t, a);
      DigitsAhead(t, a);
      var c := JsonNumber.FractionEnd(t, b);
    }
  }

  lemma DigitsAhead(t: Text, a: nat)
    requires a <= |t| && JsonNumber.IsDigit(Peek(t, a))
    ensures a < JsonNumber.IntEnd(t, a) <= |t|
  {
  }

  /** The parsers' own lexers make progress, stay inside the text, and refuse at once what is no number. */
  lemma LexersAreGood(comments: bool, trailingCommas: bool, stopWhenDone: bool, flags: JsonString.Flags,
                      tooBig: string -> bool, accepts: seq<Event> -> bool)
    ensures GoodLexers(ConfigOf(comments, trailingCommas, stopWhenDone, flags, tooBig, accepts))
  {
    hide JsonNumber.ShapeOf, JsonString.Parsed, JsonNumber.IntegerEvent, JsonNumber.Value;
    var cfg := ConfigOf(comments, trailingCommas, stopWhenDone, flags, tooBig, accepts);
    forall t, i: nat {:trigger cfg.parseString(t, i)} | i < |t| && cfg.parseString(t, i).Lexeme?
      ensures i < cfg.parseString(t, i).next <= |t|
    {
      StringEnds(ToBytes(t[i + 1..]), flags);
    }
    forall t, i: nat {:trigger cfg.parseNumber(t, i)} | i <= |t|
      ensures cfg.parseNumber(t, i).Lexeme? ==> i < cfg.parseNumber(t, i).next <= |t|
      ensures !NumberStart(Peek(t, i)) ==> cfg.parseNumber(t, i) == BadLexeme(ValueInvalid, i)
    {
      NumberEnds(t, i);
    }
  }

  /**
   So the two parsers agree with nothing assumed of their lexers. Their one stack does not come between
   them, whatever is in memory behind it, where each string of the document is, with its NUL, shorter than
   2^32 bytes; in a text below 4 GiB they all are.
   */
  lemma WholeParsersAgree(comments: bool, trailingCommas: bool, stopWhenDone: bool, flags: JsonString.Flags,
                          tooBig: string -> bool, accepts: seq<Event> -> bool, memory: JsonSharedStack.Memory, t: Text)
    ensures GoodLexers(ConfigOf(comments, trailingCommas, stopWhenDone, flags, tooBig, accepts))
    ensures var cfg := ConfigOf(comments, trailingCommas, stopWhenDone, flags, tooBig, accepts);
            var r, i := JsonRecursive.ParseDocument(cfg, t), JsonIterative.IterativeParse(cfg, t);
            var run := JsonEquivalence.RunDocument(cfg, t);
            if r.Ok? then i == r
            else if JsonEquivalence.StrayFirst(cfg, t) then
              i.Err? && i.events == r.events && i.offset == r.offset && i.code != r.code
            else JsonEquivalence.SameError(cfg, r, run) && run.r == i
    ensures var cfg := ConfigOf(comments, trailingCommas, stopWhenDone, flags, tooBig, accepts);
            var r, i := JsonRecursive.ParseDocument(cfg, t), JsonIterative.IterativeParse(cfg, t);
            var w := JsonSharedStack.Handing(cfg, memory);
            JsonSharedStack.StringsFit(r.events) ==>
              && GoodLexers(w) && JsonRecursive.ParseDocument(w, t) == r
              && JsonSharedStack.SharedParse(cfg, memory, t) == JsonSharedStack.Done(i)
    ensures var cfg := ConfigOf(comments, trailingCommas, stopWhenDone, flags, tooBig, accepts);
            |t| < JsonSharedStack.SIZE_LIMIT ==>
              JsonSharedStack.StringsFit(JsonRecursive.ParseDocument(cfg, t).events)
  {
    hide GoodLexers, JsonRecursive.ParseDocument, JsonIterative.IterativeParse, JsonEquivalence.StrayFirst,
      JsonEquivalence.SameError, JsonEquivalence.RunDocument, JsonSharedStack.StringsFit, JsonSharedStack.SharedParse;
    LexersAreGood(comments, trailingCommas, stopWhenDone, flags, tooBig, accepts);
    var cfg := ConfigOf(comments, trailingCommas, stopWhenDone, flags, tooBig, accepts);
    JsonEquivalence.ParsersAgree(cfg, t);
    if JsonSharedStack.StringsFit(JsonRecursive.ParseDocument(cfg, t).events) {
      JsonSharedStack.RecursiveHanding(cfg, memory, t);
      JsonSharedStack.ParseInBytes(cfg, memory, t);
    }
    if |t| < JsonSharedStack.SIZE_LIMIT {
      StringsAreShort(comments, trailingCommas, stopWhenDone, flags, tooBig, accepts, t);
      JsonSharedStack.DocumentFits(cfg, t);
    }
  }

  lemma {:induction false} StringIsShorter(t: JsonString.Text, flags: JsonString.Flags)
    requires JsonString.Parsed(t, flags).Str?
    ensures |JsonString.Parsed(t, flags).bytes| < JsonString.Parsed(t, flags).length
    decreases |t|
  {
    hide JsonString.NextUnit;
    var u := JsonString.NextUnit(t, flags);
    if u.Unit? {
      JsonString.UnitIsShorter(t, flags);
      StringIsShorter(t[u.length..], flags);
    }
  }

  lemma StringsAreShort(comments: bool, trailingCommas: bool, stopWhenDone: bool, flags: JsonString.Flags,
                        tooBig: string -> bool, accepts: seq<Event> -> bool, t: Text)
    requires |t| < JsonSharedStack.SIZE_LIMIT
    ensures JsonSharedStack.ShortStrings(ConfigOf(comments, trailingCommas, stopWhenDone, flags, tooBig, accepts), t)
  {
    hide JsonString.Parsed;
    var cfg := ConfigOf(comments, trailingCommas, stopWhenDone, flags, tooBig, accepts);
    forall i: nat {:trigger cfg.parseString(t, i)} | i < |t| && cfg.parseString(t, i).Lexeme?
      ensures JsonSharedStack.StringFits(cfg.parseString(t, i).value)
    {
      StringEnds(ToBytes(t[i + 1..]), flags);
      StringIsShorter(ToBytes(t[i + 1..]), flags);
    }
  }

  /** An array of one string of `n` letters. */
  function LettersText(n: nat): Text {
    ['[', '"'] + seq(n, _ => 'a') + ['"', ']']
  }

  /**
   With one string of 2^32 letters in an array, the recursive parser reports an empty string and one
   element, and the table-driven one takes letters for its count and its state.
   */
  lemma LongStringDisagrees(comments: bool, trailingCommas: bool, stopWhenDone: bool, flags: JsonString.Flags,
                            tooBig: string -> bool, memory: JsonSharedStack.Memory)
    ensures var cfg := ConfigOf(comments, trailingCommas, stopWhenDone, flags, tooBig, _ => true);
            var w, t := JsonSharedStack.Handing(cfg, memory), LettersText(JsonSharedStack.SIZE_LIMIT);
            && GoodLexers(cfg) && GoodLexers(w)
            && JsonRecursive.ParseDocument(w, t) == Ok(|t|, [StartArray, String(""), EndArray(1)])
            && JsonSharedStack.SharedParse(cfg, memory, t) ==
                 JsonSharedStack.Astray([StartArray, String(""), EndArray(JsonSharedStack.FOUR_LETTERS + 1)])
  {
    hide GoodLexers, JsonRecursive.ParseDocument, JsonSharedStack.SharedParse, JsonSharedStack.Handing, LettersText;
    LexersAreGood(comments, trailingCommas, stopWhenDone, flags, tooBig, _ => true);
    var cfg := ConfigOf(comments, trailingCommas, stopWhenDone, flags, tooBig, _ => true);
    var t := LettersText(JsonSharedStack.SIZE_LIMIT);
    LettersLexed(cfg, flags, JsonSharedStack.SIZE_LIMIT);
    JsonSharedStack.LongStringRecursive(cfg, memory, t);
    JsonSharedStack.LongStringShared(cfg, memory, t);
  }

  lemma LettersLexed(cfg: Config, flags: JsonString.Flags, n: nat)
    requires forall t, i {:trigger cfg.parseString(t, i)} :: cfg.parseString(t, i) == StringAt(flags, t, i)
    ensures n == JsonSharedStack.SIZE_LIMIT ==> JsonSharedStack.OneLongString(cfg, LettersText(n))
    ensures var t := LettersText(n); t[1] == '"' && cfg.parseString(t, 1) == Lexeme(seq(n, _ => 'a'), |t| - 1)
  {
    hide JsonString.Parsed;
    var t := LettersText(n);
    var rest: seq<Byte> := [']' as int as Byte];
    assert ToBytes(t[2..]) == JsonString.Letters(n) + [JsonString.QUOTE] + rest;
    JsonString.LettersParsed(n, rest, flags);
    assert ToChars(JsonString.Letters(n)) == seq(n, _ => 'a');
  }
}
