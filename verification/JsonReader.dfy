/**
 The reader object: both parsers as loops over the stream, the handler and the stack they update. They are
 proved against the functions of JsonRecursive and JsonIterative, and so against each other.
 */
module JsonReader {
  import opened JsonTypes
  import Rec = JsonRecursive
  import Iter = JsonIterative
  import Same = JsonEquivalence

  /** parseResult_. */
  datatype ParseError = NoError | ParseError(code: ErrorCode, offset: nat)

  class Reader {
    const cfg: Config
    const t: Text
    var pos: nat
    var events: seq<Event>
    var stack: seq<Iter.Frame>
    var error: ParseError

    constructor (cfg: Config, t: Text)
      ensures this.cfg == cfg && this.t == t
      ensures pos == 0 && events == [] && stack == [] && error.NoError?
    {
      this.cfg, this.t := cfg, t;
      pos, events, stack, error := 0, [], [], NoError;
    }

    /** How far the parse has come, or how it failed. */
    function Now(): Result
      reads this
    {
      if error.NoError? then Ok(pos, events) else Err(error.code, error.offset, events)
    }

    predicate Ready()
      reads this
    {
      error.NoError? && pos <= |t|
    }

    method Fail(code: ErrorCode, offset: nat)
      modifies `error
      ensures error == ParseError(code, offset)
    {
      error := ParseError(code, offset);
    }

    /** Call the handler. */
    method Send(e: Event) returns (ok: bool)
      modifies `events
      ensures events == old(events) + [e] && ok == cfg.accepts(events)
    {
      events := events + [e];
      ok := cfg.accepts(events);
    }

    method Consume(c: char) returns (ok: bool)
      requires pos <= |t| && c != '\0'
      modifies `pos
      ensures ok == (Peek(t, old(pos)) == c) && pos == (if ok then old(pos) + 1 else old(pos)) <= |t|
    {
      ok := Peek(t, pos) == c;
      if ok {
        pos := pos + 1;
      }
    }

    // ---- White space and comments ---------------------------------------------------------------

    method SkipWhitespace()
      requires pos <= |t|
      modifies `pos
      ensures pos == SkipSpace(t, old(pos))
    {
      while pos < |t| && IsSpace(t[pos])
        invariant old(pos) <= pos <= |t| && SkipSpace(t, pos) == SkipSpace(t, old(pos))
      {
        pos := pos + 1;
      }
    }

    /** The inside of a block comment. */
    method SkipBlockComment()
      requires Ready()
      modifies `pos, `error
      ensures match BlockComment(t, old(pos))
              case At(j) => error.NoError? && pos == j
              case SkipError(offset) => error == ParseError(UnspecificSyntaxError, offset)
    {
      while true
        invariant old(pos) <= pos <= |t| && error.NoError? && BlockComment(t, pos) == BlockComment(t, old(pos))
        decreases |t| - pos
      {
        if Peek(t, pos) == '\0' {
          Fail(UnspecificSyntaxError, pos);
          return;
        }
        var star := Consume('*');
        if star {
          var close := Consume('/');
          if close {
            return;
          }
        } else {
          pos := pos + 1;
        }
      }
    }

    /** The inside of a line comment. */
    method SkipLineComment()
      requires pos <= |t|
      modifies `pos
      ensures pos == LineComment(t, old(pos))
    {
      while Peek(t, pos) != '\0'
        invariant old(pos) <= pos <= |t| && LineComment(t, pos) == LineComment(t, old(pos))
        decreases |t| - pos
      {
        pos := pos + 1;
        if t[pos - 1] == '\n' {
          return;
        }
      }
    }

    method SkipWhitespaceAndComments()
      requires Ready()
      modifies `pos, `error
      ensures Now() == Skip(cfg, t, old(pos), old(events))
      ensures error.NoError? ==> Ready() && pos >= old(pos)
    {
      SkipWhitespace();
      if !cfg.comments {
        return;
      }
      ghost var start := pos;
      while true
        invariant Ready() && start <= pos && SkipComments(t, pos) == SkipComments(t, start)
        decreases |t| - pos
      {
        var slash := Consume('/');
        if !slash {
          return;
        }
        var star := Consume('*');
        if star {
          SkipBlockComment();
          if !error.NoError? {
            return;
          }
        } else {
          var line := Consume('/');
          if !line {
            Fail(UnspecificSyntaxError, pos);
            return;
          }
          SkipLineComment();
        }
        SkipWhitespace();
      }
    }

    // ---- Scalars --------------------------------------------------------------------------------

    /** ParseNull, ParseTrue and ParseFalse: the letters of `word` one after another. */
    method ParseWord(word: string, e: Event)
      requires Ready() && |word| > 0 && forall k :: 0 <= k < |word| ==> word[k] != '\0'
      modifies `pos, `events, `error
      ensures Now() == JsonTypes.ParseWord(cfg, t, old(pos), old(events), word, e)
      ensures error.NoError? ==> pos <= |t|
    {
      var k := 0;
      while k < |word|
        invariant 0 <= k <= |word| && pos == old(pos) + k <= |t| && Ready() && events == old(events)
        invariant Matched(t, old(pos), word) == k + Matched(t, pos, word[k..])
      {
        var ok := Consume(word[k]);
        if !ok {
          Fail(ValueInvalid, pos);
          return;
        }
        k := k + 1;
      }
      var ok := Send(e);
      if !ok {
        Fail(Termination, pos);
      }
    }

    method ParseString(isKey: bool)
      requires GoodLexers(cfg) && Ready() && pos < |t|
      modifies `pos, `events, `error
      ensures Now() == ParseText(cfg, t, old(pos), old(events), isKey)
      ensures error.NoError? ==> old(pos) < pos <= |t|
    {
      match cfg.parseString(t, pos)
      case BadLexeme(code, offset) => Fail(code, offset);
      case Lexeme(s, next) =>
        pos := next;
        var ok := Send(if isKey then Key(s) else String(s));
        if !ok {
          Fail(Termination, pos);
        }
    }

    method ParseNumber()
      requires GoodLexers(cfg) && Ready()
      modifies `pos, `events, `error
      ensures Now() == JsonTypes.ParseNumber(cfg, t, old(pos), old(events))
      ensures error.NoError? ==> old(pos) < pos <= |t|
    {
      var start := pos;
      match cfg.parseNumber(t, pos)
      case BadLexeme(code, offset) => Fail(code, offset);
      case Lexeme(n, next) =>
        pos := next;
        var ok := Send(Num(n));
        if !ok {
          Fail(Termination, start);
        }
    }

    // ---- Recursive descent ----------------------------------------------------------------------

    method ParseValue()
      requires GoodLexers(cfg) && Ready()
      modifies `pos, `events, `error
      ensures Now() == Rec.ParseValue(cfg, t, old(pos), old(events))
      ensures error.NoError? ==> old(pos) < pos <= |t|
      decreases |t| - pos, 1
    {
      var c := Peek(t, pos);
      if c == 'n' {
        ParseWord("null", Null);
      } else if c == 't' {
        ParseWord("true", Bool(true));
      } else if c == 'f' {
        ParseWord("false", Bool(false));
      } else if c == '"' {
        ParseString(false);
      } else if c == '{' {
        ParseObject();
      } else if c == '[' {
        ParseArray();
      } else {
        ParseNumber();
      }
    }

    method ParseObject()
      requires GoodLexers(cfg) && Ready() && Peek(t, pos) == '{'
      modifies `pos, `events, `error
      ensures Now() == Rec.ParseObject(cfg, t, old(pos), old(events))
      ensures error.NoError? ==> old(pos) < pos <= |t|
      decreases |t| - pos, 0
    {
      hide GoodLexers, Skip, Rec.ParseValue, ParseText;
      pos := pos + 1;
      var ok := Send(StartObject);
      if !ok {
        Fail(Termination, pos);
        return;
      }
      SkipWhitespaceAndComments();
      if !error.NoError? {
        return;
      }
      var close := Consume('}');
      if close {
        ok := Send(EndObject(0));
        if !ok {
          Fail(Termination, pos);
        }
        return;
      }
      var memberCount := 0;
      while true
        invariant Ready() && old(pos) < pos
        invariant Rec.Members(cfg, t, pos, events, memberCount) == Rec.ParseObject(cfg, t, old(pos), old(events))
        decreases |t| - pos
      {
        var done := ParseMember(memberCount);
        if done || !error.NoError? {
          return;
        }
        memberCount := Increment(memberCount);
      }
    }

    /** One turn of the loop of ParseObject: a member, and the comma or the bracket behind it. */
    method ParseMember(memberCount: nat) returns (done: bool)
      requires GoodLexers(cfg) && Ready()
      modifies `pos, `events, `error
      ensures error.NoError? ==> old(pos) < pos <= |t|
      ensures var r := Rec.Members(cfg, t, old(pos), old(events), memberCount);
              if error.NoError? && !done then r == Rec.Members(cfg, t, pos, events, Increment(memberCount))
                  else r == Now()
      decreases |t| - pos, 2
    {
      hide GoodLexers, Skip, Rec.ParseValue, ParseText;
      done := false;
      if Peek(t, pos) != '"' {
        Fail(ObjectMissName, pos);
        return;
      }
      ParseString(true);
      if !error.NoError? {
        return;
      }
      SkipWhitespaceAndComments();
      if !error.NoError? {
        return;
      }
      var ok := Consume(':');
      if !ok {
        Fail(ObjectMissColon, pos);
        return;
      }
      SkipWhitespaceAndComments();
      if !error.NoError? {
        return;
      }
      ParseValue();
      if !error.NoError? {
        return;
      }
      SkipWhitespaceAndComments();
      if !error.NoError? {
        return;
      }
      done := EndMember(Increment(memberCount));
    }

    method EndMember(memberCount: nat) returns (done: bool)
      requires GoodLexers(cfg) && Ready()
      modifies `pos, `events, `error
      ensures error.NoError? ==> old(pos) < pos <= |t|
      ensures var r := Rec.AfterMember(cfg, t, old(pos), old(events), memberCount);
              if error.NoError? && !done then r == Rec.Members(cfg, t, pos, events, memberCount) else r == Now()
    {
      hide GoodLexers, Skip, Rec.Members;
      done := false;
      if Peek(t, pos) == ',' {
        pos := pos + 1;
        SkipWhitespaceAndComments();
        if !error.NoError? {
          return;
        }
        if cfg.trailingCommas && Peek(t, pos) == '}' {
          var ok := Send(EndObject(memberCount));
          if !ok {
            Fail(Termination, pos);
            return;
          }
          pos := pos + 1;
          done := true;
        }
      } else if Peek(t, pos) == '}' {
        pos := pos + 1;
        var ok := Send(EndObject(memberCount));
        if !ok {
          Fail(Termination, pos);
          return;
        }
        done := true;
      } else {
        Fail(ObjectMissCommaOrCurlyBracket, pos);
      }
    }

    method ParseArray()
      requires GoodLexers(cfg) && Ready() && Peek(t, pos) == '['
      modifies `pos, `events, `error
      ensures Now() == Rec.ParseArray(cfg, t, old(pos), old(events))
      ensures error.NoError? ==> old(pos) < pos <= |t|
      decreases |t| - pos, 0
    {
      hide GoodLexers, Skip, Rec.ParseValue;
      pos := pos + 1;
      var ok := Send(StartArray);
      if !ok {
        Fail(Termination, pos);
        return;
      }
      SkipWhitespaceAndComments();
      if !error.NoError? {
        return;
      }
      var close := Consume(']');
      if close {
        ok := Send(EndArray(0));
        if !ok {
          Fail(Termination, pos);
        }
        return;
      }
      var elementCount := 0;
      while true
        invariant Ready() && old(pos) < pos
        invariant Rec.Elements(cfg, t, pos, events, elementCount) == Rec.ParseArray(cfg, t, old(pos), old(events))
        decreases |t| - pos
      {
        var done := ParseElement(elementCount);
        if done || !error.NoError? {
          return;
        }
        elementCount := Increment(elementCount);
      }
    }

    /** One turn of the loop of ParseArray. */
    method ParseElement(elementCount: nat) returns (done: bool)
      requires GoodLexers(cfg) && Ready()
      modifies `pos, `events, `error
      ensures error.NoError? ==> old(pos) < pos <= |t|
      ensures var r := Rec.Elements(cfg, t, old(pos), old(events), elementCount);
              if error.NoError? && !done then r == Rec.Elements(cfg, t, pos, events, Increment(elementCount))
                  else r == Now()
      decreases |t| - pos, 2
    {
      hide GoodLexers, Skip, Rec.ParseValue;
      done := false;
      ParseValue();
      if !error.NoError? {
        return;
      }
      SkipWhitespaceAndComments();
      if !error.NoError? {
        return;
      }
      done := EndElement(Increment(elementCount));
    }

    method EndElement(elementCount: nat) returns (done: bool)
      requires GoodLexers(cfg) && Ready()
      modifies `pos, `events, `error
      ensures error.NoError? ==> old(pos) < pos <= |t|
      ensures var r := Rec.AfterElement(cfg, t, old(pos), old(events), elementCount);
              if error.NoError? && !done then r == Rec.Elements(cfg, t, pos, events, elementCount) else r == Now()
    {
      hide GoodLexers, Skip, Rec.Elements;
      done := false;
      var comma := Consume(',');
      if comma {
        SkipWhitespaceAndComments();
        if !error.NoError? {
          return;
        }
      } else {
        var close := Consume(']');
        if close {
          var ok := Send(EndArray(elementCount));
          if !ok {
            Fail(Termination, pos);
          }
          done := true;
        } else {
          Fail(ArrayMissCommaOrSquareBracket, pos);
        }
        return;
      }
      if cfg.trailingCommas && Peek(t, pos) == ']' {
        var ok := Send(EndArray(elementCount));
        if !ok {
          Fail(Termination, pos);
          return;
        }
        pos := pos + 1;
        done := true;
      }
    }

    /** Parse, without the iterative flag. */
    method Parse()
      requires GoodLexers(cfg) && error.NoError? && pos == 0 && events == []
      modifies `pos, `events, `error
      ensures Now() == Rec.ParseDocument(cfg, t)
    {
      hide GoodLexers, Skip, Rec.ParseValue;
      SkipWhitespaceAndComments();
      if !error.NoError? {
        return;
      }
      if Peek(t, pos) == '\0' {
        Fail(DocumentEmpty, pos);
        return;
      }
      ParseValue();
      if !error.NoError? || cfg.stopWhenDone {
        return;
      }
      SkipWhitespaceAndComments();
      if !error.NoError? {
        return;
      }
      if Peek(t, pos) != '\0' {
        Fail(DocumentRootNotSingular, pos);
      }
    }

    // ---- The table-driven parser ----------------------------------------------------------------

    function Machine(state: Iter.State): Iter.Machine
      reads this
    {
      Iter.Machine(state, stack, pos, events)
    }

    method Push(frame: Iter.Frame)
      modifies `stack
      ensures stack == old(stack) + [frame]
    {
      stack := stack + [frame];
    }

    method Pop() returns (frame: Iter.Frame)
      requires stack != []
      modifies `stack
      ensures old(stack) == stack + [frame]
    {
      frame := stack[|stack| - 1];
      stack := stack[..|stack| - 1];
    }

    /** What a call of Transit from the machine `m` did: it took the move `r`. */
    predicate Took(m: Iter.Machine, r: Iter.Move, d: Iter.State)
      reads this
    {
      match r
      case To(m') => error.NoError? && Machine(d) == m' && !d.Error?
      case Failed(e) => !error.NoError? && Now() == e && d.Error?
      case Refused => error.NoError? && Machine(m.state) == m && d.Error?
    }

    method Transit(src: Iter.State, dst: Iter.State) returns (d: Iter.State)
      requires GoodLexers(cfg) && Ready() && pos < |t| && Iter.Valid(Machine(src))
      requires dst == Iter.Predict(src, Iter.Tokenize(Peek(t, pos)))
      modifies `pos, `events, `error, `stack
      ensures Took(old(Machine(src)), Iter.Transit(cfg, t, old(Machine(src))), d)
    {
      match dst
      case Error => d := dst;
      case ObjectInitial => d := Enter(src, dst);
      case ArrayInitial => d := Enter(src, dst);
      case MemberKey =>
        ParseString(true);
        d := if error.NoError? then dst else Iter.Error;
      case KeyValueDelimiter =>
        pos := pos + 1;
        d := dst;
      case MemberDelimiter => d := Delimit(dst);
      case ElementDelimiter => d := Delimit(dst);
      case ObjectFinish => d := Leave(src, true);
      case ArrayFinish => d := Leave(src, false);
      case MemberValue => d := Scalar(src, dst);
      case Element => d := Scalar(src, dst);
      case Value => d := Scalar(src, Iter.Finish);
      case _ => assert false;
    }

    method Scalar(src: Iter.State, next: Iter.State) returns (d: Iter.State)
      requires GoodLexers(cfg) && Ready() && !next.Error?
      requires var d := Iter.Predict(src, Iter.Tokenize(Peek(t, pos))); d.MemberValue? || d.Element? || d.Value?
      modifies `pos, `events, `error
      ensures Took(old(Machine(src)), Iter.ScalarMove(cfg, t, old(Machine(src)), next), d)
    {
      ScalarToken(src);
      ParseValue();
      d := if error.NoError? then next else Iter.Error;
    }

    /** Where the table asks for a value that is no object or array, ParseValue parses a scalar. */
    lemma ScalarToken(src: Iter.State)
      requires GoodLexers(cfg) && pos <= |t|
      requires var d := Iter.Predict(src, Iter.Tokenize(Peek(t, pos))); d.MemberValue? || d.Element? || d.Value?
      ensures Rec.ParseValue(cfg, t, pos, events) == ParseScalar(cfg, t, pos, events)
    {
      hide GoodLexers;
    }

    method Enter(src: Iter.State, dst: Iter.State) returns (d: Iter.State)
      requires error.NoError? && (dst.ObjectInitial? || dst.ArrayInitial?)
      modifies `pos, `events, `error, `stack
      ensures Took(old(Machine(src)), Iter.EnterMove(cfg, old(Machine(src)), dst), d)
    {
      // Push the state to return to and a count of zero
      var n := src;
      if src.ArrayInitial? || src.ElementDelimiter? {
        n := Iter.Element;
      } else if src.KeyValueDelimiter? {
        n := Iter.MemberValue;
      }
      Push(Iter.Frame(n, 0));
      var hr := Send(if dst.ObjectInitial? then StartObject else StartArray);
      if !hr {
        Fail(Termination, pos);
        d := Iter.Error;
      } else {
        pos := pos + 1;
        d := dst;
      }
    }

    method Delimit(dst: Iter.State) returns (d: Iter.State)
      requires error.NoError? && stack != [] && !dst.Error?
      modifies `pos, `stack
      ensures forall src :: Took(old(Machine(src)), Iter.DelimiterMove(old(Machine(src)), dst), d)
    {
      pos := pos + 1;
      var top := Pop();
      Push(top.(count := Increment(top.count)));
      d := dst;
    }

    method Leave(src: Iter.State, isObject: bool) returns (d: Iter.State)
      requires error.NoError? && Iter.Valid(Machine(src)) && stack != []
      modifies `pos, `events, `error, `stack
      ensures Took(old(Machine(src)), Iter.LeaveMove(cfg, old(Machine(src)), isObject), d)
    {
      if !cfg.trailingCommas && isObject && src.MemberDelimiter? {
        Fail(ObjectMissName, pos);
        return Iter.Error;
      }
      if !cfg.trailingCommas && !isObject && src.ElementDelimiter? {
        Fail(ValueInvalid, pos);
        return Iter.Error;
      }
      var top := Pop();
      var c := top.count;
      if src.MemberValue? || src.Element? {
        c := Increment(c);
      }
      var n := if top.state.Start? then Iter.Finish else top.state;
      var hr := Send(if isObject then EndObject(c) else EndArray(c));
      if !hr {
        Fail(Termination, pos);
        d := Iter.Error;
      } else {
        pos := pos + 1;
        d := n;
      }
    }

    method HandleError(src: Iter.State)
      modifies `error
      ensures error == if old(error).NoError? then ParseError(Iter.HandleError(src), pos) else old(error)
    {
      if error.NoError? {
        Fail(Iter.HandleError(src), pos);
      }
    }

    /** IterativeParse. */
    method IterativeParse()
      requires GoodLexers(cfg) && error.NoError? && pos == 0 && events == [] && stack == []
      modifies `pos, `events, `error, `stack
      ensures Now() == Iter.IterativeParse(cfg, t)
    {
      hide GoodLexers, Skip, Iter.Transit, Iter.Valid, Iter.Predict;
      var state := Iter.Start;
      StartValid();
      SkipWhitespaceAndComments();
      if !error.NoError? {
        return;
      }
      while Peek(t, pos) != '\0'
        invariant Ready() && Iter.Valid(Machine(state))
        invariant Iter.Loop(cfg, t, Machine(state)) == Iter.IterativeParse(cfg, t)
        decreases |t| - pos
      {
        ghost var m := Machine(state);
        Iter.TransitValid(cfg, t, m);
        var d := Transit(state, Iter.Predict(state, Iter.Tokenize(Peek(t, pos))));
        if d.Error? {
          HandleError(state);
          return;
        }
        state := d;
        if cfg.stopWhenDone && state.Finish? {
          break;
        }
        ghost var m' := Machine(state);
        SkipWhitespaceAndComments();
        if !error.NoError? {
          return;
        }
        ValidAnywhere(m', pos);
      }
      if !state.Finish? {
        HandleError(state);
      }
    }

    lemma ValidAnywhere(m: Iter.Machine, p: nat)
      requires Iter.Valid(m)
      ensures Iter.Valid(m.(pos := p))
    {
    }

    lemma StartValid()
      requires stack == []
      ensures forall p, e :: Iter.Valid(Iter.Machine(Iter.Start, stack, p, e))
    {
    }
  }

  /** Both parsers on one text: one object for each. */
  method ParseBoth(cfg: Config, t: Text) returns (rec: Reader, iter: Reader)
    requires GoodLexers(cfg)
    ensures rec.error.NoError? <==> iter.error.NoError?
    ensures rec.error.NoError? ==> rec.events == iter.events && rec.pos == iter.pos
    ensures !rec.error.NoError? && !Same.StrayFirst(cfg, t) ==>
            rec.error.code == iter.error.code && rec.events == iter.events
  {
    rec := new Reader(cfg, t);
    iter := new Reader(cfg, t);
    rec.Parse();
    iter.IterativeParse();
    Same.ParsersAgree(cfg, t);
  }
}
