/**
 The head of a message, line by line: which header names and values the parser recognizes, and what it takes them to
 mean.
 */
module HttpHead {
  import opened HttpTypes
  import opened HttpStep
  import opened HttpRun
  import opened HttpInvariant
  import opened HttpMarks
  import opened HttpBulk

  // ---- Characters -------------------------------------------------------------------------------

  /** The characters of a token, section 3.2.6 of RFC 7230: no delimiters, no controls, no spaces. */
  predicate TokenChar(ch: Byte) {
    || '0' as int <= ch <= '9' as int
    || 'A' as int <= ch <= 'Z' as int
    || 'a' as int <= ch <= 'z' as int
    || ch == '!' as int || ch == '#' as int || ch == '$' as int || ch == '%' as int || ch == '&' as int
    || ch == '\'' as int || ch == '*' as int || ch == '+' as int || ch == '-' as int || ch == '.' as int
    || ch == '^' as int || ch == '_' as int || ch == '`' as int || ch == '|' as int || ch == '~' as int
  }

  /** A capital letter as a small one. */
  function Small(ch: Byte): Byte {
    if 'A' as int <= ch <= 'Z' as int then ch + 32 else ch
  }

  predicate AllTokenChars(bytes: seq<Byte>) {
    forall k :: 0 <= k < |bytes| ==> TokenChar(bytes[k])
  }

  /** The bytes are the word, in capital or small letters. */
  predicate Reads(bytes: seq<Byte>, word: string) {
    Begins(bytes, word) && |bytes| == |word|
  }

  /** The bytes are the beginning of the word. */
  predicate Begins(bytes: seq<Byte>, word: string) {
    |bytes| <= |word| && forall k :: 0 <= k < |bytes| ==> Small(bytes[k]) == word[k] as int
  }

  lemma TokenIs(strict: bool, ch: Byte)
    ensures StrictToken(ch) != 0 <==> TokenChar(ch)
    ensures TokenChar(ch) ==> Token(strict, ch) == Small(ch) != 0 && ch != SP
  {
  }

  lemma BeginsNext(bytes: seq<Byte>, ch: Byte, word: string)
    ensures Begins(bytes + [ch], word) <==>
            Begins(bytes, word) && |bytes| < |word| && Small(ch) == word[|bytes|] as int
  {
    var more := bytes + [ch];
    if Begins(more, word) {
      assert more[|bytes|] == ch;
      forall k | 0 <= k < |bytes|
        ensures Small(bytes[k]) == word[k] as int
      {
        assert more[k] == bytes[k];
      }
    }
  }

  // ---- Names ------------------------------------------------------------------------------------

  /** What the parser has made of a name so far. */
  function StateFor(name: seq<Byte>): HeaderState {
    if Begins(name, "connection") then
      if |name| == 1 then HC
      else if |name| == 2 then HCO
      else if |name| == 3 then HCON
      else if |name| == 10 then Connection
      else MatchingConnection
    else if Begins(name, "content-length") then if |name| == 14 then ContentLength else MatchingContentLength
    else if Begins(name, "proxy-connection") then if |name| == 16 then Connection else MatchingProxyConnection
    else if Begins(name, "transfer-encoding") then if |name| == 17 then TransferEncoding else MatchingTransferEncoding
    else if Begins(name, "upgrade") then if |name| == 7 then Upgrade else MatchingUpgrade
    else General
  }

  lemma BeginsOne(ch: Byte, word: string)
    requires word != ""
    ensures Begins([ch], word) <==> Small(ch) == word[0] as int
  {
    assert [ch] == [] + [ch];
    BeginsNext([], ch, word);
  }

  lemma FirstState(ch: Byte)
    ensures StateFor([ch]) == FieldStartState(Small(ch))
  {
    hide Begins, Small;
    BeginsOne(ch, "connection");
    BeginsOne(ch, "content-length");
    BeginsOne(ch, "proxy-connection");
    BeginsOne(ch, "transfer-encoding");
    BeginsOne(ch, "upgrade");
  }

  lemma BeginsLength(name: seq<Byte>, word: string)
    requires Begins(name, word)
    ensures |name| <= |word|
  {
  }

  lemma BeginsAt(name: seq<Byte>, word: string, k: nat)
    requires Begins(name, word) && k < |name|
    ensures Small(name[k]) == word[k] as int
  {
  }

  /** A short name begins a word if it begins the word's beginning. */
  lemma BeginsShort(name: seq<Byte>, word: string, start: string)
    requires |name| <= |start| <= |word| && word[..|start|] == start
    ensures Begins(name, word) <==> Begins(name, start)
  {
    assert forall k :: 0 <= k < |start| ==> word[k] == word[..|start|][k];
  }

  lemma FirstLetter(name: seq<Byte>, word: string)
    requires name != [] && word != ""
    ensures Begins(name, word) ==> Small(name[0]) == word[0] as int
  {
  }

  /** No two of the words begin alike but for connection and content-length, up to `con`. */
  lemma OneWord(name: seq<Byte>)
    requires name != []
    ensures Begins(name, "connection") && Begins(name, "content-length") ==> |name| <= 3
    ensures Begins(name, "connection") || Begins(name, "content-length") ==>
              !Begins(name, "proxy-connection") && !Begins(name, "transfer-encoding") && !Begins(name, "upgrade")
    ensures Begins(name, "proxy-connection") ==> !Begins(name, "transfer-encoding") && !Begins(name, "upgrade")
    ensures Begins(name, "transfer-encoding") ==> !Begins(name, "upgrade")
    ensures |name| <= 3 ==> (Begins(name, "connection") <==> Begins(name, "content-length"))
  {
    hide Begins, Small;
    FirstLetter(name, "connection");
    FirstLetter(name, "content-length");
    FirstLetter(name, "proxy-connection");
    FirstLetter(name, "transfer-encoding");
    FirstLetter(name, "upgrade");
    if |name| <= 3 {
      BeginsShort(name, "connection", "con");
      BeginsShort(name, "content-length", "con");
    } else if Begins(name, "connection") && Begins(name, "content-length") {
      BeginsAt(name, "connection", 3);
      BeginsAt(name, "content-length", 3);
    }
  }

  /** How a keyword goes on. */
  lemma MatchNext(name: seq<Byte>, ch: Byte, word: string)
    requires Begins(name, word) && 0 < |name| < |word|
    ensures Begins(name + [ch], word) <==> !MatchKeyword(word, |name|, Small(ch)).Mismatch?
    ensures MatchKeyword(word, |name|, Small(ch)).Complete? ==> |name| + 1 == |word|
    ensures MatchKeyword(word, |name|, Small(ch)).Partial? ==> |name| + 1 < |word|
  {
    hide Begins, Small;
    BeginsNext(name, ch, word);
  }

  /** The name read so far, and how the parser stands. */
  predicate Stands(q: Parser, name: seq<Byte>) {
    name != [] && q.headerState == StateFor(name) && (!StateFor(name).General? ==> q.index == |name| - 1)
  }

  /** What one more character makes of the parser, but for the header state. */
  predicate Further(q: Parser, name: seq<Byte>, r: Parser) {
    && r == q.(index := r.index, headerState := r.headerState, usesTransferEncoding := r.usesTransferEncoding)
    && (!r.headerState.General? ==> r.index == |name|)
    && (r.usesTransferEncoding <==> q.usesTransferEncoding || r.headerState.TransferEncoding?)
  }

  /** While a keyword is matched. */
  lemma NextOfWord(q: Parser, name: seq<Byte>, ch: Byte, word: string, done: HeaderState)
    requires Stands(q, name) && Matching(q.headerState) && Keyword(q.headerState) == word
    requires Begins(name, word) && |name| < |word| && !done.General?
    ensures var r := FieldMatch(q, Small(ch), done);
            && Further(q, name, r)
            && r.headerState == (if !Begins(name + [ch], word) then General
                                 else if |name| + 1 == |word| then done
                                 else q.headerState)
  {
    hide Begins, Small, Keyword, StateFor, MatchKeyword;
    MatchNext(name, ch, word);
  }

  /** Every word with one more character. */
  lemma AllBeginNext(name: seq<Byte>, ch: Byte)
    ensures Begins(name + [ch], "connection") <==>
            Begins(name, "connection") && |name| < 10 && Small(ch) == "connection"[|name|] as int
    ensures Begins(name + [ch], "content-length") <==>
            Begins(name, "content-length") && |name| < 14 && Small(ch) == "content-length"[|name|] as int
    ensures Begins(name + [ch], "proxy-connection") ==> Begins(name, "proxy-connection") && |name| < 16
    ensures Begins(name + [ch], "transfer-encoding") ==> Begins(name, "transfer-encoding") && |name| < 17
    ensures Begins(name + [ch], "upgrade") ==> Begins(name, "upgrade") && |name| < 7
  {
    hide Begins, Small;
    BeginsNext(name, ch, "connection");
    BeginsNext(name, ch, "content-length");
    BeginsNext(name, ch, "proxy-connection");
    BeginsNext(name, ch, "transfer-encoding");
    BeginsNext(name, ch, "upgrade");
  }

  /** Before a keyword is settled on, and behind the end of one. */
  lemma NextOutside(cfg: Config, q: Parser, name: seq<Byte>, ch: Byte)
    requires Stands(q, name) && TokenChar(ch) && !Matching(q.headerState)
    ensures var r := FieldChar(cfg, q, ch);
            Further(q, name, r) && r.headerState == StateFor(name + [ch])
  {
    hide Begins, Small, TokenChar, Token, StrictToken, FieldMatch, Keyword;
    TokenIs(cfg.strict, ch);
    OneWord(name);
    OneWord(name + [ch]);
    AllBeginNext(name, ch);
  }

  /** The keyword that is being matched, and what it becomes. */
  lemma NextMatching(cfg: Config, q: Parser, name: seq<Byte>, ch: Byte)
    requires Stands(q, name) && TokenChar(ch) && Matching(q.headerState)
    ensures var r := FieldChar(cfg, q, ch);
            Further(q, name, r) && r.headerState == StateFor(name + [ch])
  {
    hide Begins, Small, TokenChar, Token, StrictToken, FieldMatch, Further;
    TokenIs(cfg.strict, ch);
    OneWord(name);
    OneWord(name + [ch]);
    match q.headerState
    case MatchingConnection =>
      BeginsLength(name, "connection");
      NextOfWord(q, name, ch, "connection", Connection);
      AllBeginNext(name, ch);
    case MatchingContentLength =>
      BeginsLength(name, "content-length");
      NextOfWord(q, name, ch, "content-length", ContentLength);
      AllBeginNext(name, ch);
    case MatchingProxyConnection =>
      BeginsLength(name, "proxy-connection");
      NextOfWord(q, name, ch, "proxy-connection", Connection);
      AllBeginNext(name, ch);
    case MatchingTransferEncoding =>
      BeginsLength(name, "transfer-encoding");
      NextOfWord(q, name, ch, "transfer-encoding", TransferEncoding);
      AllBeginNext(name, ch);
    case MatchingUpgrade =>
      BeginsLength(name, "upgrade");
      NextOfWord(q, name, ch, "upgrade", Upgrade);
      AllBeginNext(name, ch);
  }

  /** What has been made of a name when it ends; a longer name that begins as Transfer-Encoding counts as one. */
  predicate Named(p: Parser, name: seq<Byte>, q: Parser) {
    && q == p.(state := HeaderField, index := q.index, headerState := StateFor(name),
               usesTransferEncoding := q.usesTransferEncoding)
    && (q.usesTransferEncoding <==>
          p.usesTransferEncoding || (|name| >= 17 && Reads(name[..17], "transfer-encoding")))
  }

  lemma PrefixReads(name: seq<Byte>, ch: Byte)
    ensures |name + [ch]| >= 17 && Reads((name + [ch])[..17], "transfer-encoding") <==>
            (|name| >= 17 && Reads(name[..17], "transfer-encoding")) || Reads(name + [ch], "transfer-encoding")
  {
    var more := name + [ch];
    if |name| >= 17 {
      assert more[..17] == name[..17];
    } else if |name| == 16 {
      assert more[..17] == more;
    }
  }

  lemma StateIsTransfer(name: seq<Byte>)
    requires name != []
    ensures StateFor(name).TransferEncoding? <==> Reads(name, "transfer-encoding")
  {
    hide Begins;
    OneWord(name);
  }

  lemma NextCharacter(cfg: Config, p: Parser, name: seq<Byte>, ch: Byte, q: Parser)
    requires Named(p, name, q) && Stands(q, name) && TokenChar(ch)
    ensures var r := FieldChar(cfg, q, ch); Named(p, name + [ch], r) && Stands(r, name + [ch])
  {
    hide Begins, Reads, StateFor, FieldChar, TokenChar, Matching;
    if Matching(q.headerState) {
      NextMatching(cfg, q, name, ch);
    } else {
      NextOutside(cfg, q, name, ch);
    }
    StateIsTransfer(name + [ch]);
    PrefixReads(name, ch);
  }

  /** The parser behind a name: the first character, then the run of the others. */
  function BehindName(cfg: Config, p: Parser, name: seq<Byte>): Parser
    requires name != []
  {
    FieldChars(cfg, p.(index := 0, state := HeaderField, headerState := FieldStartState(Token(cfg.strict, name[0]))),
               name[1..])
  }

  lemma {:induction false} NameIsSeen(cfg: Config, p: Parser, name: seq<Byte>)
    requires name != [] && AllTokenChars(name)
    ensures var q := BehindName(cfg, p, name); Named(p, name, q) && Stands(q, name)
    decreases |name|
  {
    hide StateFor, FieldChar, TokenChar, Token, FieldStartState, Reads;
    var last := |name| - 1;
    if last == 0 {
      NameOfOne(cfg, p, name);
    } else {
      var front := name[..last];
      NameIsSeen(cfg, p, front);
      assert name[1..][..last - 1] == front[1..] && front + [name[last]] == name;
      NextCharacter(cfg, p, front, name[last], BehindName(cfg, p, front));
    }
  }

  lemma NameOfOne(cfg: Config, p: Parser, name: seq<Byte>)
    requires |name| == 1 && TokenChar(name[0])
    ensures var q := BehindName(cfg, p, name); Named(p, name, q) && Stands(q, name)
  {
    hide StateFor, TokenChar, Token, FieldStartState;
    TokenIs(cfg.strict, name[0]);
    FirstState(name[0]);
    assert name == [name[0]] && name[1..] == [];
  }

  // ---- A line -----------------------------------------------------------------------------------

  /** One more byte that is consumed, behind a run. */
  lemma Onward(cfg: Config, m0: Machine, bytes: seq<Byte>, m: Machine, ch: Byte, mv: Move)
    requires Run(cfg, m0, bytes) == m && m.halt.Running? && ParsingHeader(m.p.state) && m.p.nread < cfg.maxHeaderSize
    requires mv == Transition(cfg, m.p.(nread := m.p.nread + 1), ch) && mv.next.Consumed?
    ensures Run(cfg, m0, bytes + [ch]) == Machine(mv.p, Effect(mv.action, ch, m.trace), Running, m.consumed + 1)
  {
    hide Run, Transition, Effect, Drive, ParsingHeader;
    RunSnoc(cfg, m0, bytes, ch);
    DriveOnce(cfg, Count(m.p), m.trace, ch, mv);
  }

  /** One more byte that is handed on once and then consumed, behind a run. */
  lemma OnwardTwice(cfg: Config, m0: Machine, bytes: seq<Byte>, m: Machine, ch: Byte, mv: Move, mv': Move)
    requires Run(cfg, m0, bytes) == m && m.halt.Running? && ParsingHeader(m.p.state) && m.p.nread < cfg.maxHeaderSize
    requires mv == Transition(cfg, m.p.(nread := m.p.nread + 1), ch) && mv.next.Again?
    requires mv' == Transition(cfg, mv.p, ch) && mv'.next.Consumed?
    ensures Run(cfg, m0, bytes + [ch]) ==
            Machine(mv'.p, Effect(mv'.action, ch, Effect(mv.action, ch, m.trace)), Running, m.consumed + 1)
  {
    hide Run, Transition, Effect, ParsingHeader;
    RunSnoc(cfg, m0, bytes, ch);
    RankDecreases(cfg, Count(m.p), ch);
    DriveOnce(cfg, mv.p, Effect(mv.action, ch, m.trace), ch, mv');
  }

  lemma NothingRun(cfg: Config, m: Machine)
    ensures Run(cfg, m, []) == m
  {
  }

  /** No data of this kind is at the end of the trace. */
  predicate NotAtEnd(tr: Trace, k: DataKind) {
    tr == [] || !tr[|tr| - 1].Data? || tr[|tr| - 1].kind != k
  }

  lemma EmittedAtEnd(tr: Trace, k: DataKind, bytes: seq<Byte>)
    requires NotAtEnd(tr, k)
    ensures Emit(tr, Data(k, bytes)) == tr + [Data(k, bytes)]
  {
  }

  lemma SpanAtEnd(tr: Trace, k: DataKind, bytes: seq<Byte>)
    requires NotAtEnd(tr, k) && bytes != []
    ensures Span(tr, k, bytes) == tr + [Data(k, bytes)] == Emit(Span(tr, k, bytes), Data(k, []))
    ensures Effect(Put(k), bytes[0], tr) == Span(tr, k, [bytes[0]])
  {
    hide Emit;
    EmittedAtEnd(tr, k, bytes);
    EmitTwice(tr, k, bytes, []);
    assert bytes + [] == bytes;
  }

  lemma StartOfName(cfg: Config, p: Parser, ch: Byte)
    requires p.state.HeaderFieldStart? && TokenChar(ch)
    ensures Transition(cfg, p, ch) ==
            Move(p.(index := 0, state := HeaderField, headerState := FieldStartState(Token(cfg.strict, ch))),
                 Put(Field), Consumed)
  {
    hide FieldStartState, Token;
    TokenIs(cfg.strict, ch);
  }

  lemma StartFits(ch: Byte)
    ensures FieldHeaderState(FieldStartState(ch))
  {
  }

  lemma NameStarts(cfg: Config, m: Machine, ch: Byte)
    requires m.halt.Running? && m.p.state.HeaderFieldStart? && NotAtEnd(m.trace, Field)
    requires TokenChar(ch) && m.p.nread < cfg.maxHeaderSize
    ensures Run(cfg, m, [ch]) ==
            Machine(m.p.(nread := m.p.nread + 1).(index := 0, state := HeaderField,
                                                  headerState := FieldStartState(Token(cfg.strict, ch))),
                    Span(m.trace, Field, [ch]), Running, m.consumed + 1)
  {
    hide Run, Transition, FieldStartState, Token, TokenChar, Effect, Span;
    var p := m.p.(nread := m.p.nread + 1);
    StartOfName(cfg, p, ch);
    NothingRun(cfg, m);
    Onward(cfg, m, [], m, ch, Transition(cfg, p, ch));
    SpanAtEnd(m.trace, Field, [ch]);
    assert [] + [ch] == [ch];
  }

  lemma NameRead(cfg: Config, m: Machine, name: seq<Byte>)
    requires m.halt.Running? && m.p.state.HeaderFieldStart? && NotAtEnd(m.trace, Field)
    requires name != [] && AllTokenChars(name) && m.p.nread + |name| <= cfg.maxHeaderSize
    ensures Run(cfg, m, name) ==
            Machine(BehindName(cfg, m.p.(nread := m.p.nread + 1), name).(nread := m.p.nread + |name|),
                    Span(m.trace, Field, name), Running, m.consumed + |name|)
  {
    hide Run, FieldStartState, FieldChars, Token, TokenChar, FieldHeaderState, Span, NotAtEnd;
    var first, rest := [name[0]], name[1..];
    NameStarts(cfg, m, name[0]);
    assert first + rest == name;
    StartFits(Token(cfg.strict, name[0]));
    AreTokens(cfg, rest);
    FieldBytes(cfg, Run(cfg, m, first), rest);
    RunConcat(cfg, m, first, rest);
    SpanSpan(m.trace, Field, first, rest);
  }

  /** A longer name that begins as Transfer-Encoding counts as that, although no keyword is matched. */
  lemma LongerNameCounts(cfg: Config, p: Parser, name: seq<Byte>)
    requires |name| > 17 && AllTokenChars(name) && Reads(name[..17], "transfer-encoding")
    ensures var q := BehindName(cfg, p, name); q.usesTransferEncoding && q.headerState.General?
  {
    hide StateFor, Reads;
    NameIsSeen(cfg, p, name);
    LongerIsGeneral(name);
  }

  lemma LongerIsGeneral(name: seq<Byte>)
    requires |name| > 17
    ensures StateFor(name).General?
  {
  }

  lemma AreTokens(cfg: Config, bytes: seq<Byte>)
    requires AllTokenChars(bytes)
    ensures AllTokens(cfg, bytes)
  {
    forall k | 0 <= k < |bytes|
      ensures Token(cfg.strict, bytes[k]) != 0
    {
      TokenIs(cfg.strict, bytes[k]);
    }
  }

  predicate Blank(ws: seq<Byte>) {
    forall k :: 0 <= k < |ws| ==> ws[k] == SP || ws[k] == HTAB
  }

  lemma ColonMove(cfg: Config, p: Parser)
    requires p.state.HeaderField?
    ensures Transition(cfg, p, ':' as int) == Move(p.(state := HeaderValueDiscardWs), Flush(Field), Consumed)
  {
  }

  lemma BlankMove(cfg: Config, p: Parser, ch: Byte)
    requires p.state.HeaderValueDiscardWs? && (ch == SP || ch == HTAB)
    ensures Transition(cfg, p, ch) == Take(p)
  {
  }

  lemma {:induction false} BlanksRead(cfg: Config, m: Machine, ws: seq<Byte>)
    requires m.halt.Running? && m.p.state.HeaderValueDiscardWs? && Blank(ws) && m.p.nread + |ws| <= cfg.maxHeaderSize
    ensures Run(cfg, m, ws) ==
            Machine(m.p.(nread := m.p.nread + |ws|), m.trace, Running, m.consumed + |ws|)
    decreases |ws|
  {
    hide Step, Run, Transition;
    if ws == [] {
      NothingRun(cfg, m);
    } else {
      var front, ch := ws[..|ws| - 1], ws[|ws| - 1];
      assert front + [ch] == ws;
      BlanksRead(cfg, m, front);
      BlankMove(cfg, m.p.(nread := m.p.nread + |ws|), ch);
      Onward(cfg, m, front, Run(cfg, m, front), ch, Take(m.p.(nread := m.p.nread + |ws|)));
    }
  }

  /** A name, its colon and the white space behind that. */
  function NamePart(name: seq<Byte>, ws: seq<Byte>): seq<Byte> {
    name + [':' as int] + ws
  }

  lemma NamePartRead(cfg: Config, m: Machine, name: seq<Byte>, ws: seq<Byte>)
    requires m.halt.Running? && m.p.state.HeaderFieldStart? && NotAtEnd(m.trace, Field)
    requires name != [] && AllTokenChars(name) && Blank(ws)
    requires m.p.nread + |NamePart(name, ws)| <= cfg.maxHeaderSize
    ensures var r := Run(cfg, m, NamePart(name, ws));
            && r == Machine(r.p, m.trace + [Data(Field, name)], Running, m.consumed + |NamePart(name, ws)|)
            && r.p == m.p.(state := HeaderValueDiscardWs, nread := m.p.nread + |NamePart(name, ws)|,
                           index := r.p.index, headerState := StateFor(name),
                           usesTransferEncoding := r.p.usesTransferEncoding)
            && (r.p.usesTransferEncoding <==>
                  m.p.usesTransferEncoding || (|name| >= 17 && Reads(name[..17], "transfer-encoding")))
  {
    hide Step, Run, Transition, StateFor, Span, Emit, BehindName, Reads;
    NameRead(cfg, m, name);
    NameIsSeen(cfg, m.p.(nread := m.p.nread + 1), name);
    SpanAtEnd(m.trace, Field, name);
    var m1 := Run(cfg, m, name);
    ColonMove(cfg, m1.p.(nread := m1.p.nread + 1));
    Onward(cfg, m, name, m1, ':' as int, Transition(cfg, m1.p.(nread := m1.p.nread + 1), ':' as int));
    var m2 := Run(cfg, m, name + [':' as int]);
    BlanksRead(cfg, m2, ws);
    RunConcat(cfg, m, name + [':' as int], ws);
  }

  // ---- Values -----------------------------------------------------------------------------------

  lemma ValueStarts(cfg: Config, p: Parser, ch: Byte)
    requires p.state.HeaderValueDiscardWs? && ch != SP && ch != HTAB && ch != CR && ch != LF
    ensures Transition(cfg, p, ch) == ValueStartMove(p, ch)
  {
    hide ValueStartMove;
  }

  lemma ValueEnds(cfg: Config, p: Parser)
    ensures p.state.HeaderValue? ==>
              Transition(cfg, p, CR) == Move(p.(state := HeaderAlmostDone), Flush(Value), Consumed)
    ensures p.state.HeaderAlmostDone? ==> Transition(cfg, p, LF) == Take(p.(state := HeaderValueLws))
  {
    hide ValueChar;
  }

  /** A value from its first character on, given what the parser makes of its characters. */
  lemma ValueRun(cfg: Config, m: Machine, v: seq<Byte>, q0: Parser)
    requires m.halt.Running? && m.p.state.HeaderValueDiscardWs? && NotAtEnd(m.trace, Value)
    requires v != [] && NoLineEnd(v) && v[0] != SP && v[0] != HTAB && m.p.nread + |v| <= cfg.maxHeaderSize
    requires ValueStartMove(m.p.(nread := m.p.nread + 1), v[0]) == Move(q0, Put(Value), Consumed)
    requires q0.state.HeaderValue? && q0.nread == m.p.nread + 1
    ensures Run(cfg, m, [v[0]]) == Machine(q0, Span(m.trace, Value, [v[0]]), Running, m.consumed + 1)
    ensures match ValueChars(cfg, q0, v[1..])
            case Ok(q) =>
              && q.state.HeaderValue?
              && Run(cfg, m, v) == Machine(q.(nread := m.p.nread + |v|), Span(m.trace, Value, v), Running,
                                           m.consumed + |v|)
            case _ => true
  {
    hide Step, Run, Transition, ValueStartMove, ValueChars, Effect, Span, Emit;
    var p := m.p.(nread := m.p.nread + 1);
    var first, rest := [v[0]], v[1..];
    ValueStarts(cfg, p, v[0]);
    NothingRun(cfg, m);
    Onward(cfg, m, [], m, v[0], Move(q0, Put(Value), Consumed));
    assert [] + first == first && first + rest == v;
    SpanAtEnd(m.trace, Value, v);
    SpanAtEnd(m.trace, Value, first);
    if ValueChars(cfg, q0, rest).Ok? {
      ValueBytes(cfg, Run(cfg, m, first), rest);
      RunConcat(cfg, m, first, rest);
      SpanSpan(m.trace, Value, first, rest);
    }
  }

  lemma ValueRead(cfg: Config, m: Machine, v: seq<Byte>, q0: Parser, q: Parser)
    requires m.halt.Running? && m.p.state.HeaderValueDiscardWs? && NotAtEnd(m.trace, Value)
    requires v != [] && NoLineEnd(v) && v[0] != SP && v[0] != HTAB && m.p.nread + |v| + 2 <= cfg.maxHeaderSize
    requires ValueStartMove(m.p.(nread := m.p.nread + 1), v[0]) == Move(q0, Put(Value), Consumed)
    requires q0.state.HeaderValue? && q0.nread == m.p.nread + 1 && ValueChars(cfg, q0, v[1..]) == Ok(q)
    ensures Run(cfg, m, v + [CR] + [LF]) ==
            Machine(q.(state := HeaderValueLws, nread := m.p.nread + |v| + 2), m.trace + [Data(Value, v)], Running,
                    m.consumed + |v| + 2)
  {
    hide Step, Run, Transition, ValueStartMove, ValueChars, Span, Emit;
    ValueRun(cfg, m, v, q0);
    SpanAtEnd(m.trace, Value, v);
    var m1 := Run(cfg, m, v);
    var p1 := m1.p.(nread := m1.p.nread + 1);
    ValueEnds(cfg, p1);
    Onward(cfg, m, v, m1, CR, Move(p1.(state := HeaderAlmostDone), Flush(Value), Consumed));
    var m2 := Run(cfg, m, v + [CR]);
    var p2 := m2.p.(nread := m2.p.nread + 1);
    ValueEnds(cfg, p2);
    Onward(cfg, m, v + [CR], m2, LF, Take(p2.(state := HeaderValueLws)));
  }

  // ---- Content-Length ---------------------------------------------------------------------------

  /** The first length the parser refuses: ten times the first number it will not multiply. */
  const LENGTH_LIMIT: nat := 18446744073709551610

  predicate AllDigits(bytes: seq<Byte>) {
    forall k :: 0 <= k < |bytes| ==> '0' as int <= bytes[k] <= '9' as int
  }

  /** A parser inside a Content-Length value that has come to `n`. */
  function LengthSoFar(p: Parser, n: nat): Parser {
    p.(state := HeaderValue, index := 0, flags := p.flags.(contentLength := true), contentLength := n,
       headerState := ContentLengthNum)
  }

  lemma LengthStarts(p: Parser, ch: Byte)
    requires p.headerState.ContentLength? && '0' as int <= ch <= '9' as int && !p.flags.contentLength
    ensures ValueStartMove(p, ch) == Move(LengthSoFar(p, Number([ch])), Put(Value), Consumed)
  {
    assert [ch][..0] == [] && Number([]) == 0;
  }

  lemma LengthGoesOn(cfg: Config, p: Parser, n: nat, ch: Byte)
    requires '0' as int <= ch <= '9' as int
    ensures ValueChar(cfg, LengthSoFar(p, n), ch) ==
            if n * 10 < LENGTH_LIMIT then Ok(LengthSoFar(p, n * 10 + (ch - '0' as int))) else Bad(InvalidContentLength)
  {
  }

  /** Within a length nothing but digits goes on, and behind a space nothing but spaces. */
  lemma LengthIsDigits(cfg: Config, p: Parser, n: nat, ch: Byte)
    requires ch != CR && ch != LF && !('0' as int <= ch <= '9' as int)
    ensures ValueChar(cfg, LengthSoFar(p, n), ch).Ok? <==> ch == SP
    ensures ch == SP ==> ValueChar(cfg, LengthSoFar(p, n), ch) == Ok(LengthSoFar(p, n).(headerState := ContentLengthWs))
  {
  }

  lemma LengthStaysEnded(cfg: Config, q: Parser, ch: Byte)
    requires q.headerState.ContentLengthWs? && ch != CR && ch != LF
    ensures ValueChar(cfg, q, ch).Ok? <==> ch == SP
    ensures ch == SP ==> ValueChar(cfg, q, ch) == Ok(q)
  {
  }

  lemma NumberGoesOn(d: seq<Byte>, ch: Byte)
    requires '0' as int <= ch <= '9' as int
    ensures Number(d + [ch]) == Number(d) * 10 + (ch - '0' as int)
  {
    assert (d + [ch])[..|d|] == d;
  }

  /** A number below the limit has no more than a tenth of it in front of its last digit. */
  lemma LimitIsTenfold(n: nat, digit: nat)
    requires digit <= 9
    ensures n * 10 < LENGTH_LIMIT <==> n * 10 + digit < LENGTH_LIMIT
  {
  }

  lemma {:induction false} LengthChars(cfg: Config, p: Parser, d: seq<Byte>)
    requires d != [] && AllDigits(d)
    ensures ValueChars(cfg, LengthSoFar(p, Number([d[0]])), d[1..]) ==
            if |d| == 1 || Number(d) < LENGTH_LIMIT then Ok(LengthSoFar(p, Number(d))) else Bad(InvalidContentLength)
    decreases |d|
  {
    hide ValueChar, LengthSoFar, Number;
    var last := |d| - 1;
    var front := d[..last];
    if last == 0 {
      assert d[1..] == [] && [d[0]] == d;
    } else {
      LengthChars(cfg, p, front);
      assert d[1..][..last - 1] == front[1..] && d[1..][last - 1] == d[last] && front + [d[last]] == d;
      NumberGoesOn(front, d[last]);
      LimitIsTenfold(Number(front), d[last] - '0' as int);
      LengthGoesOn(cfg, p, Number(front), d[last]);
      if last == 1 {
        OneDigitFits(front);
      }
    }
  }

  lemma OneDigitFits(d: seq<Byte>)
    requires AllDigits(d) && |d| == 1
    ensures Number(d) <= 9
  {
    assert Number(d[..0]) == 0;
  }

  /** A character the parser refuses within a value ends the run. */
  lemma {:induction false} ValueFails(cfg: Config, m: Machine, bytes: seq<Byte>)
    requires m.halt.Running? && m.p.state.HeaderValue? && NoLineEnd(bytes) && ValueChars(cfg, m.p, bytes).Bad?
    requires m.p.nread + |bytes| <= cfg.maxHeaderSize
    ensures Run(cfg, m, bytes).halt.Failed? && Run(cfg, m, bytes).p.errno == ValueChars(cfg, m.p, bytes).e
    decreases |bytes|
  {
    hide Step, ValueChar, Took;
    var front, ch := bytes[..|bytes| - 1], bytes[|bytes| - 1];
    assert front + [ch] == bytes;
    RunSnoc(cfg, m, front, ch);
    if ValueChars(cfg, m.p, front).Bad? {
      ValueFails(cfg, m, front);
      HaltedStays(cfg, Run(cfg, m, front), [ch]);
      RunSnoc(cfg, Run(cfg, m, front), [], ch);
      assert [] + [ch] == [ch];
    } else {
      ValueBytes(cfg, m, front);
      TookParts(m, ValueChars(cfg, m.p, front).p, Value, front);
      ValueCharCount(cfg, ValueChars(cfg, m.p, front).p, ch, m.p.nread + |front|);
      ValueStep(cfg, Run(cfg, m, front), ch);
    }
  }

  lemma TookParts(m: Machine, q: Parser, k: DataKind, bytes: seq<Byte>)
    ensures var r := TookHeader(m, q, k, bytes);
            r.p == q.(nread := m.p.nread + |bytes|) && r.halt.Running?
  {
  }

  // ---- Whole lines ------------------------------------------------------------------------------

  /** A header line: a name, white space, and a value. */
  datatype Line = Line(name: seq<Byte>, ws: seq<Byte>, value: seq<Byte>)

  function Bytes(l: Line): seq<Byte> {
    NamePart(l.name, l.ws) + (l.value + [CR] + [LF])
  }

  function LineEvents(l: Line): Trace {
    [Data(Field, l.name), Data(Value, l.value)]
  }

  /** A name, and a value without line ends that does not begin with white space. */
  predicate WellFormed(l: Line) {
    && l.name != [] && AllTokenChars(l.name) && Blank(l.ws)
    && l.value != [] && NoLineEnd(l.value) && l.value[0] != SP && l.value[0] != HTAB
  }

  /** The machine behind a line, with the record `p` but for what only matters inside lines. */
  predicate BehindLine(m: Machine, l: Line, p: Parser, r: Machine) {
    && r == Machine(r.p, m.trace + LineEvents(l), Running, m.consumed + |Bytes(l)|)
    && r.p == p.(state := HeaderValueLws, nread := m.p.nread + |Bytes(l)|, index := r.p.index,
                 headerState := r.p.headerState)
  }

  /** Room for a line in front of the header limit, and nothing at the end of the trace it would add to. */
  predicate LineMayCome(cfg: Config, m: Machine, l: Line) {
    && m.halt.Running? && m.p.state.HeaderFieldStart? && NotAtEnd(m.trace, Field) && WellFormed(l)
    && m.p.nread + |Bytes(l)| <= cfg.maxHeaderSize
  }

  /** From what the parser makes of the value to what it makes of the line. */
  lemma LineRead(cfg: Config, m: Machine, l: Line, q0: Parser, q: Parser)
    requires LineMayCome(cfg, m, l)
    requires var m1 := Run(cfg, m, NamePart(l.name, l.ws));
             && ValueStartMove(m1.p.(nread := m1.p.nread + 1), l.value[0]) == Move(q0, Put(Value), Consumed)
             && q0.state.HeaderValue? && q0.nread == m1.p.nread + 1 && ValueChars(cfg, q0, l.value[1..]) == Ok(q)
    ensures var r := Run(cfg, m, Bytes(l));
            && r == Machine(r.p, m.trace + LineEvents(l), Running, m.consumed + |Bytes(l)|)
            && r.p == q.(state := HeaderValueLws, nread := m.p.nread + |Bytes(l)|)
  {
    hide Run, ValueStartMove, ValueChars, StateFor, Reads;
    NamePartRead(cfg, m, l.name, l.ws);
    var m1 := Run(cfg, m, NamePart(l.name, l.ws));
    ValueRead(cfg, m1, l.value, q0, q);
    RunConcat(cfg, m, NamePart(l.name, l.ws), l.value + [CR] + [LF]);
    assert m.trace + [Data(Field, l.name)] + [Data(Value, l.value)] == m.trace + LineEvents(l);
  }

  /**
   A Content-Length line leaves the number its digits stand for, if that is below the limit, and otherwise is an error.
   */
  lemma LengthLine(cfg: Config, m: Machine, l: Line)
    requires LineMayCome(cfg, m, l) && Reads(l.name, "content-length") && AllDigits(l.value)
    requires !m.p.flags.contentLength
    ensures var r := Run(cfg, m, Bytes(l));
            if Number(l.value) < LENGTH_LIMIT then
              && BehindLine(m, l, m.p.(flags := m.p.flags.(contentLength := true), contentLength := Number(l.value)), r)
              && r.p.headerState.ContentLengthNum?
            else r.halt.Failed? && r.p.errno == InvalidContentLength
  {
    hide Run, ValueStartMove, ValueChars, Number;
    NamePartRead(cfg, m, l.name, l.ws);
    NotTransfer(l.name);
    var m1 := Run(cfg, m, NamePart(l.name, l.ws));
    var p1 := m1.p.(nread := m1.p.nread + 1);
    LengthStarts(p1, l.value[0]);
    LengthChars(cfg, p1, l.value);
    var q0 := LengthSoFar(p1, Number([l.value[0]]));
    if |l.value| == 1 {
      OneDigitFits(l.value);
    }
    if Number(l.value) < LENGTH_LIMIT {
      LineRead(cfg, m, l, q0, LengthSoFar(p1, Number(l.value)));
    } else {
      ValueRun(cfg, m1, l.value, q0);
      LengthRefused(cfg, m, l, q0);
    }
  }

  lemma NotTransfer(name: seq<Byte>)
    requires Reads(name, "content-length") || Reads(name, "connection") || Reads(name, "proxy-connection")
    ensures |name| < 17
    ensures Reads(name, "content-length") ==> StateFor(name).ContentLength?
    ensures Reads(name, "connection") || Reads(name, "proxy-connection") ==> StateFor(name).Connection?
  {
    hide Begins;
    OneWord(name);
  }

  lemma LengthRefused(cfg: Config, m: Machine, l: Line, q0: Parser)
    requires LineMayCome(cfg, m, l)
    requires var m1 := Run(cfg, m, NamePart(l.name, l.ws));
             && m1.p.nread == m.p.nread + |NamePart(l.name, l.ws)|
             && Run(cfg, m1, [l.value[0]]) ==
                  Machine(q0, Span(m1.trace, Value, [l.value[0]]), Running, m1.consumed + 1)
             && q0.state.HeaderValue? && q0.nread == m1.p.nread + 1
             && ValueChars(cfg, q0, l.value[1..]) == Bad(InvalidContentLength)
    ensures var r := Run(cfg, m, Bytes(l)); r.halt.Failed? && r.p.errno == InvalidContentLength
  {
    hide Run, ValueChars, Span;
    var part, first, rest := NamePart(l.name, l.ws), [l.value[0]], l.value[1..];
    var m1 := Run(cfg, m, part);
    var m2 := Run(cfg, m1, first);
    ValueFails(cfg, m2, rest);
    RunConcat(cfg, m, part, first);
    RunConcat(cfg, m, part + first, rest);
    RunConcat(cfg, m, part + first + rest, [CR] + [LF]);
    HaltedStays(cfg, Run(cfg, m, part + first + rest), [CR] + [LF]);
    assert part + first + rest + ([CR] + [LF]) == Bytes(l);
  }

  // ---- Other headers ----------------------------------------------------------------------------

  /** No controls but tabs. */
  predicate Visible(bytes: seq<Byte>) {
    forall k :: 0 <= k < |bytes| ==> (bytes[k] >= 32 && bytes[k] != 127) || bytes[k] == HTAB
  }

  /** A name that means nothing to the parser. */
  predicate Unrelated(name: seq<Byte>) {
    && !Reads(name, "connection") && !Reads(name, "proxy-connection") && !Reads(name, "content-length")
    && !Reads(name, "upgrade") && !(|name| >= 17 && Reads(name[..17], "transfer-encoding"))
  }

  lemma UnrelatedState(name: seq<Byte>)
    requires name != [] && Unrelated(name)
    ensures var h := StateFor(name);
            !h.Connection? && !h.ContentLength? && !h.TransferEncoding? && !h.Upgrade? && FieldHeaderState(h)
  {
    hide Begins;
    OneWord(name);
    assert |name| == 17 ==> name[..17] == name;
  }

  lemma UnrelatedStarts(p: Parser, ch: Byte)
    requires var h := p.headerState;
             !h.Connection? && !h.ContentLength? && !h.TransferEncoding? && !h.Upgrade? && FieldHeaderState(h)
    ensures ValueStartMove(p, ch) ==
            Move(p.(state := HeaderValue, index := 0, headerState := General), Put(Value), Consumed)
  {
  }

  /** Exactly these characters go on within a value nobody looks into, unless the parser is lenient. */
  lemma VisibleAre(cfg: Config, q: Parser, ch: Byte)
    requires q.headerState.General? && !cfg.lenient && ch != CR && ch != LF
    ensures ValueChar(cfg, q, ch) == if Visible([ch]) then Ok(q) else Bad(InvalidHeaderToken)
  {
    assert [ch][0] == ch;
  }

  lemma {:induction false} UnrelatedChars(cfg: Config, q: Parser, bytes: seq<Byte>)
    requires q.headerState.General? && Visible(bytes)
    ensures ValueChars(cfg, q, bytes) == Ok(q)
    decreases |bytes|
  {
    if bytes != [] {
      UnrelatedChars(cfg, q, bytes[..|bytes| - 1]);
    }
  }

  lemma UnrelatedLine(cfg: Config, m: Machine, l: Line)
    requires LineMayCome(cfg, m, l) && Unrelated(l.name) && Visible(l.value)
    ensures BehindLine(m, l, m.p, Run(cfg, m, Bytes(l)))
    ensures Run(cfg, m, Bytes(l)).p.headerState.General?
  {
    hide Run, ValueStartMove, ValueChars, StateFor, Reads;
    NamePartRead(cfg, m, l.name, l.ws);
    UnrelatedState(l.name);
    var m1 := Run(cfg, m, NamePart(l.name, l.ws));
    var p1 := m1.p.(nread := m1.p.nread + 1);
    UnrelatedStarts(p1, l.value[0]);
    var q0 := p1.(state := HeaderValue, index := 0, headerState := General);
    UnrelatedChars(cfg, q0, l.value[1..]);
    LineRead(cfg, m, l, q0, q0);
  }

  // ---- Keywords in values -----------------------------------------------------------------------

  /** The header state that matches a word of a value, and what it becomes when the word is complete. */
  predicate MatchesWord(h: HeaderState, word: string, done: HeaderState) {
    || (h.MatchingTeChunked? && word == "chunked" && done.TeChunked?)
    || (h.MatchingConnKeepAlive? && word == "keep-alive" && done.ConnKeepAlive?)
    || (h.MatchingConnClose? && word == "close" && done.ConnClose?)
  }

  lemma LowerIsSmall(ch: Byte, c: char)
    requires Small(ch) == c as int && ('a' <= c <= 'z' || c == '-')
    ensures Lower(ch) == c as int && IsHeaderChar(ch) && ch != CR && ch != LF
  {
  }

  predicate Letters(word: string) {
    forall k :: 0 <= k < |word| ==> 'a' <= word[k] <= 'z' || word[k] == '-'
  }

  lemma WordGoesOn(cfg: Config, q: Parser, ch: Byte, word: string, done: HeaderState)
    requires MatchesWord(q.headerState, word, done) && q.index + 1 < |word|
    requires Small(ch) == word[q.index + 1] as int && Letters(word)
    ensures ValueChar(cfg, q, ch) ==
            Ok(q.(index := q.index + 1, headerState := if q.index + 2 == |word| then done else q.headerState))
  {
    hide IsHeaderChar, Lower, Small, Letters;
    LowerIsSmall(ch, word[q.index + 1]);
  }

  /** The first `k` characters of a word of a value have been read. */
  function WordSoFar(q: Parser, word: string, done: HeaderState, k: nat): Parser
    requires k > 0
  {
    q.(index := k - 1, headerState := if k == |word| then done else q.headerState)
  }

  lemma {:induction false} WordChars(cfg: Config, q: Parser, v: seq<Byte>, word: string, done: HeaderState, k: nat)
    requires MatchesWord(q.headerState, word, done) && q.index == 0 && Reads(v, word) && Letters(word) && |word| > 1
    requires 1 <= k <= |v|
    ensures ValueChars(cfg, q, v[1..k]) == Ok(WordSoFar(q, word, done, k))
    decreases k
  {
    hide ValueChar, MatchesWord, Letters;
    if k == 1 {
      assert v[1..1] == [];
    } else {
      WordChars(cfg, q, v, word, done, k - 1);
      assert v[1..k][..k - 2] == v[1..k - 1] && v[1..k][k - 2] == v[k - 1];
      SameWord(q.headerState, word, done);
      WordGoesOn(cfg, WordSoFar(q, word, done, k - 1), v[k - 1], word, done);
    }
  }

  lemma SameWord(h: HeaderState, word: string, done: HeaderState)
    requires MatchesWord(h, word, done)
    ensures h != done
  {
  }

  lemma WordStarts(p: Parser, ch: Byte)
    ensures p.headerState.TransferEncoding? && Small(ch) == 'c' as int ==>
              ValueStartMove(p, ch) ==
                Move(p.(state := HeaderValue, index := 0, headerState := MatchingTeChunked), Put(Value), Consumed)
    ensures p.headerState.Connection? && Small(ch) == 'k' as int ==>
              ValueStartMove(p, ch) ==
                Move(p.(state := HeaderValue, index := 0, headerState := MatchingConnKeepAlive), Put(Value), Consumed)
    ensures p.headerState.Connection? && Small(ch) == 'c' as int ==>
              ValueStartMove(p, ch) ==
                Move(p.(state := HeaderValue, index := 0, headerState := MatchingConnClose), Put(Value), Consumed)
  {
  }

  /** A line whose value is one word the parser looks for under that name. */
  lemma WordLine(cfg: Config, m: Machine, l: Line, h: HeaderState, word: string, done: HeaderState)
    requires LineMayCome(cfg, m, l) && Reads(l.value, word) && MatchesWord(h, word, done) && Letters(word) && |word| > 1
    requires if h.MatchingTeChunked? then Reads(l.name, "transfer-encoding")
             else Reads(l.name, "connection") || Reads(l.name, "proxy-connection")
    ensures var r := Run(cfg, m, Bytes(l));
            && BehindLine(m, l, m.p.(usesTransferEncoding := m.p.usesTransferEncoding || h.MatchingTeChunked?), r)
            && r.p.headerState == done
  {
    hide Run, ValueStartMove, ValueChars, Letters, StateFor;
    NamePartRead(cfg, m, l.name, l.ws);
    var m1 := Run(cfg, m, NamePart(l.name, l.ws));
    var p1 := m1.p.(nread := m1.p.nread + 1);
    WordStarts(p1, l.value[0]);
    var q0 := p1.(state := HeaderValue, index := 0, headerState := h);
    if h.MatchingTeChunked? {
      StateIsTransfer(l.name);
      assert l.name[..17] == l.name;
    } else {
      NotTransfer(l.name);
    }
    WordChars(cfg, q0, l.value, word, done, |l.value|);
    assert l.value[1..|l.value|] == l.value[1..];
    LineRead(cfg, m, l, q0, WordSoFar(q0, word, done, |word|));
  }
}
