/**
 The first line of a message: a request line with its method, target and version, or a status line.
 */
module HttpStartLine {
  import opened HttpTypes
  import opened HttpStep
  import opened HttpRun
  import opened HttpMarks
  import opened HttpBulk
  import opened HttpHead

  /** The bytes of a word. */
  function Spelled(word: string): (r: seq<Byte>)
    ensures |r| == |word|
  {
    seq(|word|, i requires 0 <= i < |word| => word[i] as int % 256)
  }

  // ---- Methods ----------------------------------------------------------------------------------

  /** The method the parser takes it for when the first `i` letters of a method have been read. */
  function Guess(m: Method, i: nat): Method {
    match m
    case CHECKOUT => if i <= 1 then CONNECT else m
    case COPY => if i <= 2 then CONNECT else m
    case MOVE => if i <= 1 then MKCOL else m
    case MERGE => if i <= 1 then MKCOL else m
    case MSEARCH => if i <= 1 then MKCOL else m
    case MKACTIVITY => if i <= 2 then MKCOL else m
    case MKCALENDAR => if i <= 3 then MKCOL else m
    case PUT => if i <= 1 then POST else m
    case PATCH => if i <= 1 then POST else m
    case PROPFIND => if i <= 1 then POST else m
    case PURGE => if i <= 1 then POST else if i == 2 then PUT else m
    case PROPPATCH => if i <= 1 then POST else if i <= 4 then PROPFIND else m
    case SEARCH => if i <= 1 then SUBSCRIBE else m
    case SOURCE => if i <= 1 then SUBSCRIBE else m
    case REBIND => if i <= 2 then REPORT else m
    case LINK => if i <= 1 then LOCK else m
    case UNSUBSCRIBE => if i <= 2 then UNLOCK else m
    case UNBIND => if i <= 2 then UNLOCK else m
    case UNLINK => if i <= 3 then UNLOCK else m
    case _ => m
  }

  lemma GuessBegins(m: Method)
    ensures |MethodString(m)| >= 3 && MethodString(m)[0] < 127 as char
    ensures MethodInitial(MethodString(m)[0] as int) && MethodFor(MethodString(m)[0] as int) == Guess(m, 1)
    ensures Guess(m, |MethodString(m)|) == m
  {
  }

  /** The next letter is the guess's own, or the one by which the parser changes its guess. */
  predicate GoesOn(m: Method, i: nat) {
    var name, guess := MethodString(m), MethodString(Guess(m, i));
    i < |name| ==>
      && ('A' <= name[i] <= 'Z' || name[i] == '-')
      && i <= |guess|
      && (if i < |guess| && name[i] == guess[i] then Guess(m, i + 1) == Guess(m, i)
          else Reconsider(Guess(m, i), i, name[i] as int) == (true, Guess(m, i + 1)))
  }

  lemma SureMethods(m: Method, i: nat)
    requires Guess(m, 1) == m
    ensures GoesOn(m, i)
  {
  }

  lemma FromConnect(m: Method, i: nat)
    requires i > 0 && (m.CHECKOUT? || m.COPY?)
    ensures GoesOn(m, i)
  {
  }

  lemma FromMkcol(m: Method, i: nat)
    requires i > 0 && (m.MOVE? || m.MERGE? || m.MSEARCH?)
    ensures GoesOn(m, i)
  {
  }

  lemma FromMkcolLater(m: Method, i: nat)
    requires i > 0 && (m.MKACTIVITY? || m.MKCALENDAR?)
    ensures GoesOn(m, i)
  {
  }

  lemma FromPost(m: Method, i: nat)
    requires i > 0 && (m.PUT? || m.PATCH? || m.PURGE?)
    ensures GoesOn(m, i)
  {
  }

  lemma FromPostLater(m: Method, i: nat)
    requires i > 0 && (m.PROPFIND? || m.PROPPATCH?)
    ensures GoesOn(m, i)
  {
  }

  lemma FromSubscribe(m: Method, i: nat)
    requires i > 0 && (m.SEARCH? || m.SOURCE?)
    ensures GoesOn(m, i)
  {
  }

  lemma FromReportOrLock(m: Method, i: nat)
    requires i > 0 && (m.REBIND? || m.LINK?)
    ensures GoesOn(m, i)
  {
  }

  lemma FromUnlock(m: Method, i: nat)
    requires i > 0 && (m.UNSUBSCRIBE? || m.UNBIND? || m.UNLINK?)
    ensures GoesOn(m, i)
  {
  }

  lemma EveryMethod(m: Method, i: nat)
    requires i > 0
    ensures GoesOn(m, i)
  {
    hide GoesOn;
    match m
    case CHECKOUT => FromConnect(m, i);
    case COPY => FromConnect(m, i);
    case MOVE => FromMkcol(m, i);
    case MERGE => FromMkcol(m, i);
    case MSEARCH => FromMkcol(m, i);
    case MKACTIVITY => FromMkcolLater(m, i);
    case MKCALENDAR => FromMkcolLater(m, i);
    case PUT => FromPost(m, i);
    case PATCH => FromPost(m, i);
    case PURGE => FromPost(m, i);
    case PROPFIND => FromPostLater(m, i);
    case PROPPATCH => FromPostLater(m, i);
    case SEARCH => FromSubscribe(m, i);
    case SOURCE => FromSubscribe(m, i);
    case REBIND => FromReportOrLock(m, i);
    case LINK => FromReportOrLock(m, i);
    case UNSUBSCRIBE => FromUnlock(m, i);
    case UNBIND => FromUnlock(m, i);
    case UNLINK => FromUnlock(m, i);
    case _ => SureMethods(m, i);
  }

  lemma LetterMove(p: Parser, m: Method, i: nat)
    requires 1 <= i < |MethodString(m)| && p.method_ == Guess(m, i) && p.index == i && GoesOn(m, i)
    ensures MethodString(m)[i] as int < 256
    ensures MethodMove(p, MethodString(m)[i] as int) == Take(p.(method_ := Guess(m, i + 1), index := i + 1))
  {
    hide MethodString, Guess, Reconsider;
  }

  lemma MethodOnly(cfg: Config, p: Parser, ch: Byte)
    requires p.state.ReqMethod?
    ensures Transition(cfg, p, ch) == MethodMove(p, ch)
  {
    hide MethodMove;
  }

  lemma {:induction false} LettersRead(cfg: Config, m: Machine, method_: Method, i: nat, k: nat)
    requires m.halt.Running? && m.p.state.ReqMethod? && m.p.method_ == Guess(method_, i) && m.p.index == i
    requires 1 <= i <= k <= |MethodString(method_)| && m.p.nread + (k - i) <= cfg.maxHeaderSize
    ensures Run(cfg, m, Spelled(MethodString(method_))[i..k]) ==
            Machine(m.p.(method_ := Guess(method_, k), index := k, nread := m.p.nread + (k - i)), m.trace, Running,
                    m.consumed + (k - i))
    decreases k
  {
    hide Run, Transition, MethodString, Guess, MethodMove, GoesOn;
    var name := Spelled(MethodString(method_));
    if k == i {
      assert name[i..i] == [];
      NothingRun(cfg, m);
    } else {
      LettersRead(cfg, m, method_, i, k - 1);
      assert name[i..k] == name[i..k - 1] + [name[k - 1]];
      EveryMethod(method_, k - 1);
      var m1 := Run(cfg, m, name[i..k - 1]);
      var p1 := m1.p.(nread := m1.p.nread + 1);
      LetterMove(p1, method_, k - 1);
      MethodOnly(cfg, p1, name[k - 1]);
      Onward(cfg, m, name[i..k - 1], m1, name[k - 1], Transition(cfg, p1, name[k - 1]));
    }
  }

  lemma MethodEnds(cfg: Config, p: Parser)
    requires p.state.ReqMethod? && p.index == |MethodString(p.method_)|
    ensures Transition(cfg, p, SP) == Take(p.(index := p.index + 1, state := ReqSpacesBeforeUrl))
  {
    hide MethodString;
  }

  // ---- How a message may begin ------------------------------------------------------------------

  /** The record of a message that has begun. */
  function NewRecord(t: HttpType, kind: HttpType): Parser {
    Init(t).(kind := kind, contentLength := ULLONG_MAX)
  }

  lemma RequestStarts(cfg: Config, t: HttpType, ch: Byte)
    requires !t.Response? && MethodInitial(ch)
    ensures var p := Init(t).(nread := 1);
            var q := NewRecord(t, Request).(nread := 1);
            && (t.Request? ==> Transition(cfg, p, ch) ==
                                 Move(q.(method_ := MethodFor(ch), index := 1, state := ReqMethod),
                                      Notify(MessageBegin), Consumed))
            && (t.Both? && ch != 'H' as int ==>
                  Transition(cfg, p, ch) == Reexecute(q, StartReq)
                  && Transition(cfg, q.(state := StartReq), ch) ==
                       Move(q.(method_ := MethodFor(ch), index := 1, state := ReqMethod), Notify(MessageBegin),
                            Consumed))
            && (t.Both? && ch == 'H' as int ==>
                  Transition(cfg, p, ch) ==
                    Move(NewRecord(t, Both).(nread := 1, state := ResOrRespH), Notify(MessageBegin), Consumed))
  {
    hide MethodFor, MethodInitial;
    assert ch != CR && ch != LF by { InitialIsLetter(ch); }
  }

  lemma InitialIsLetter(ch: Byte)
    requires MethodInitial(ch)
    ensures 'A' as int <= ch <= 'Z' as int
  {
  }

  lemma HeadStarts(cfg: Config, p: Parser)
    requires p.state.ResOrRespH?
    ensures Transition(cfg, p, 'E' as int) ==
            Take(p.(kind := Request, method_ := HEAD, index := 2, state := ReqMethod))
    ensures Transition(cfg, p, 'T' as int) == Take(p.(kind := Response, state := ResHT))
  {
  }

  /** The parser when `i` letters of a method have been read. */
  function InMethod(t: HttpType, m: Method, i: nat): Machine {
    Machine(NewRecord(t, Request).(method_ := Guess(m, i), index := i, nread := i, state := ReqMethod), [MessageBegin],
            Running, i)
  }

  lemma RequestBegun(cfg: Config, t: HttpType, ch: Byte)
    requires !t.Response? && cfg.maxHeaderSize >= 1 && MethodInitial(ch) && (t.Both? ==> ch != 'H' as int)
    ensures Run(cfg, Start(Init(t)), [ch]) ==
            Machine(NewRecord(t, Request).(method_ := MethodFor(ch), index := 1, nread := 1, state := ReqMethod),
                    [MessageBegin], Running, 1)
  {
    hide Run, Transition, MethodFor, MethodInitial;
    var m0 := Start(Init(t));
    assert [ch] == [] + [ch] && [] + [MessageBegin] == [MessageBegin];
    RequestStarts(cfg, t, ch);
    NothingRun(cfg, m0);
    var mv := Transition(cfg, Init(t).(nread := 1), ch);
    if t.Request? {
      Onward(cfg, m0, [], m0, ch, mv);
    } else {
      OnwardTwice(cfg, m0, [], m0, ch, mv, Transition(cfg, mv.p, ch));
    }
  }

  lemma FirstLetter(cfg: Config, t: HttpType, m: Method)
    requires !t.Response? && cfg.maxHeaderSize >= 1 && (t.Both? ==> !m.HEAD?)
    ensures Run(cfg, Start(Init(t)), Spelled(MethodString(m))[..1]) == InMethod(t, m, 1)
  {
    hide Run, MethodString, MethodFor, MethodInitial, Guess;
    GuessBegins(m);
    OnlyHead(m);
    var name := Spelled(MethodString(m));
    assert name[..1] == [name[0]];
    RequestBegun(cfg, t, name[0]);
  }

  lemma OnlyHead(m: Method)
    ensures |MethodString(m)| >= 3 && (MethodString(m)[0] == 'H' <==> m.HEAD?)
  {
  }

  lemma HeadLetters(cfg: Config)
    requires cfg.maxHeaderSize >= 2
    ensures Run(cfg, Start(Init(Both)), Spelled(MethodString(HEAD))[..2]) == InMethod(Both, HEAD, 2)
  {
    hide Run, Transition, MethodFor;
    var name, m0 := Spelled(MethodString(HEAD)), Start(Init(Both));
    assert name[0] == 'H' as int && name[1] == 'E' as int;
    assert name[..1] == [] + [name[0]] && name[..2] == name[..1] + [name[1]];
    RequestStarts(cfg, Both, name[0]);
    NothingRun(cfg, m0);
    Onward(cfg, m0, [], m0, name[0], Transition(cfg, Init(Both).(nread := 1), name[0]));
    assert [] + [MessageBegin] == [MessageBegin];
    var m1 := Run(cfg, m0, name[..1]);
    HeadStarts(cfg, m1.p.(nread := 2));
    Onward(cfg, m0, name[..1], m1, name[1], Transition(cfg, m1.p.(nread := 2), name[1]));
  }

  /** A method and the space behind it. */
  lemma MethodRead(cfg: Config, t: HttpType, m: Method)
    requires !t.Response? && |MethodString(m)| + 1 <= cfg.maxHeaderSize
    ensures var n := |MethodString(m)| + 1;
            Run(cfg, Start(Init(t)), Spelled(MethodString(m)) + [SP]) ==
              Machine(NewRecord(t, Request).(method_ := m, index := n, nread := n, state := ReqSpacesBeforeUrl),
                      [MessageBegin], Running, n)
  {
    hide Run, Transition, MethodString, Guess;
    GuessBegins(m);
    var name, m0 := Spelled(MethodString(m)), Start(Init(t));
    var i := if t.Both? && m.HEAD? then 2 else 1;
    if i == 2 {
      HeadLetters(cfg);
    } else {
      FirstLetter(cfg, t, m);
    }
    LettersRead(cfg, InMethod(t, m, i), m, i, |name|);
    RunConcat(cfg, m0, name[..i], name[i..|name|]);
    assert name[..i] + name[i..|name|] == name;
    var m1 := Run(cfg, m0, name);
    MethodEnds(cfg, m1.p.(nread := |name| + 1));
    Onward(cfg, m0, name, m1, SP, Transition(cfg, m1.p.(nread := |name| + 1), SP));
  }

  // ---- Targets ----------------------------------------------------------------------------------

  /** A path of printable ASCII characters, with or without a query and a fragment. */
  predicate Target(url: seq<Byte>) {
    url != [] && url[0] == '/' as int && forall k :: 0 <= k < |url| ==> 33 <= url[k] <= 126
  }

  predicate InPath(s: State) {
    s.ReqPath? || s.ReqQueryStringStart? || s.ReqQueryString? || s.ReqFragmentStart? || s.ReqFragment?
  }

  lemma PathMove(cfg: Config, p: Parser, ch: Byte)
    requires InPath(p.state) && 33 <= ch <= 126
    ensures var mv := Transition(cfg, p, ch);
            mv == Move(p.(state := mv.p.state), Put(Url), Consumed) && InPath(mv.p.state)
  {
  }

  /** Exactly these bytes go on within a path, a query or a fragment; any other is an error or ends it. */
  lemma PathBytes(strict: bool, s: State, ch: Byte)
    requires InPath(s)
    ensures !ParseUrlChar(strict, s, ch).Dead? <==>
            33 <= ch <= 126 || (!strict && (ch == HTAB || ch == 12 || ch >= 128))
    ensures !ParseUrlChar(strict, s, ch).Dead? ==> InPath(ParseUrlChar(strict, s, ch))
  {
  }

  lemma PathStarts(cfg: Config, p: Parser)
    requires p.state.ReqSpacesBeforeUrl? && !p.method_.CONNECT?
    ensures Transition(cfg, p, '/' as int) == Move(p.(state := ReqPath), Put(Url), Consumed)
  {
  }

  lemma PathEnds(cfg: Config, p: Parser)
    requires InPath(p.state)
    ensures Transition(cfg, p, SP) == Move(p.(state := ReqHttpStart), Flush(Url), Consumed)
  {
  }

  lemma SlashRead(cfg: Config, m: Machine)
    requires m.halt.Running? && m.p.state.ReqSpacesBeforeUrl? && !m.p.method_.CONNECT? && m.p.nread < cfg.maxHeaderSize
    ensures Run(cfg, m, ['/' as int]) ==
            Machine(m.p.(state := ReqPath, nread := m.p.nread + 1), Span(m.trace, Url, ['/' as int]), Running,
                    m.consumed + 1)
  {
    hide Run, Transition, Effect, Span;
    var p, slash := m.p.(nread := m.p.nread + 1), '/' as int;
    NothingRun(cfg, m);
    PathStarts(cfg, p);
    Onward(cfg, m, [], m, slash, Transition(cfg, p, slash));
    SpanOne(m.trace, Url, slash);
    assert [] + [slash] == [slash];
  }

  /** One more character of a target. */
  lemma PathRead(cfg: Config, m0: Machine, bytes: seq<Byte>, m: Machine, ch: Byte)
    requires Run(cfg, m0, bytes) == m && m.halt.Running? && InPath(m.p.state) && 33 <= ch <= 126
    requires m.p.nread < cfg.maxHeaderSize
    ensures var r := Run(cfg, m0, bytes + [ch]);
            && r == Machine(m.p.(state := r.p.state, nread := m.p.nread + 1), Span(m.trace, Url, [ch]), Running,
                            m.consumed + 1)
            && InPath(r.p.state)
  {
    hide Run, Transition, Effect, Span, InPath;
    var p := m.p.(nread := m.p.nread + 1);
    PathIsHead(m.p.state);
    PathMove(cfg, p, ch);
    Onward(cfg, m0, bytes, m, ch, Transition(cfg, p, ch));
    SpanOne(m.trace, Url, ch);
  }

  lemma {:induction false} TargetRead(cfg: Config, m: Machine, url: seq<Byte>)
    requires m.halt.Running? && m.p.state.ReqSpacesBeforeUrl? && !m.p.method_.CONNECT?
    requires Target(url) && m.p.nread + |url| <= cfg.maxHeaderSize
    ensures var r := Run(cfg, m, url);
            && r == Machine(m.p.(state := r.p.state, nread := m.p.nread + |url|), Span(m.trace, Url, url), Running,
                            m.consumed + |url|)
            && InPath(r.p.state)
    decreases |url|
  {
    hide Run, Span, InPath;
    if |url| == 1 {
      SlashRead(cfg, m);
      PathIsPath();
      assert url == ['/' as int];
    } else {
      var front, ch := url[..|url| - 1], url[|url| - 1];
      assert front + [ch] == url;
      TargetRead(cfg, m, front);
      PathRead(cfg, m, front, Run(cfg, m, front), ch);
      SpanSpan(m.trace, Url, front, [ch]);
    }
  }

  lemma PathIsPath()
    ensures InPath(ReqPath)
  {
  }

  lemma PathIsHead(s: State)
    requires InPath(s)
    ensures ParsingHeader(s)
  {
  }

  lemma SpanOne(tr: Trace, k: DataKind, ch: Byte)
    ensures Effect(Put(k), ch, tr) == Span(tr, k, [ch])
  {
  }

  // ---- Versions ---------------------------------------------------------------------------------

  function Digit(d: nat): Byte
    requires d < 10
  {
    '0' as int + d
  }

  /** HTTP/1.1 and the like. */
  function Version(major: nat, minor: nat): seq<Byte>
    requires major < 10 && minor < 10
  {
    Spelled("HTTP/") + [Digit(major)] + ['.' as int] + [Digit(minor)]
  }

  lemma RequestProtocolMoves(cfg: Config, p: Parser)
    ensures p.state.ReqHttpStart? ==> Transition(cfg, p, 'H' as int) == Take(p.(state := ReqHttpH))
    ensures p.state.ReqHttpH? ==> Transition(cfg, p, 'T' as int) == Take(p.(state := ReqHttpHT))
    ensures p.state.ReqHttpHT? ==> Transition(cfg, p, 'T' as int) == Take(p.(state := ReqHttpHTT))
    ensures p.state.ReqHttpHTT? ==> Transition(cfg, p, 'P' as int) == Take(p.(state := ReqHttpHTTP))
    ensures p.state.ReqHttpHTTP? ==> Transition(cfg, p, '/' as int) == Take(p.(state := ReqHttpMajor))
  {
  }

  lemma RequestVersionMoves(cfg: Config, p: Parser, d: nat)
    requires d < 10
    ensures p.state.ReqHttpMajor? ==> Transition(cfg, p, Digit(d)) == Take(p.(httpMajor := d, state := ReqHttpDot))
    ensures p.state.ReqHttpDot? ==> Transition(cfg, p, '.' as int) == Take(p.(state := ReqHttpMinor))
    ensures p.state.ReqHttpMinor? ==> Transition(cfg, p, Digit(d)) == Take(p.(httpMinor := d, state := ReqHttpEnd))
    ensures p.state.ReqHttpEnd? ==> Transition(cfg, p, CR) == Take(p.(state := ReqLineAlmostDone))
    ensures p.state.ReqLineAlmostDone? ==> Transition(cfg, p, LF) == Take(p.(state := HeaderFieldStart))
  {
  }

  lemma ResponseProtocolMoves(cfg: Config, p: Parser)
    ensures p.state.ResH? ==> Transition(cfg, p, 'T' as int) == Take(p.(state := ResHT))
    ensures p.state.ResHT? ==> Transition(cfg, p, 'T' as int) == Take(p.(state := ResHTT))
    ensures p.state.ResHTT? ==> Transition(cfg, p, 'P' as int) == Take(p.(state := ResHTTP))
    ensures p.state.ResHTTP? ==> Transition(cfg, p, '/' as int) == Take(p.(state := ResHttpMajor))
  {
  }

  lemma ResponseVersionMoves(cfg: Config, p: Parser, d: nat)
    requires d < 10
    ensures p.state.ResHttpMajor? ==> Transition(cfg, p, Digit(d)) == Take(p.(httpMajor := d, state := ResHttpDot))
    ensures p.state.ResHttpDot? ==> Transition(cfg, p, '.' as int) == Take(p.(state := ResHttpMinor))
    ensures p.state.ResHttpMinor? ==> Transition(cfg, p, Digit(d)) == Take(p.(httpMinor := d, state := ResHttpEnd))
    ensures p.state.ResHttpEnd? ==> Transition(cfg, p, SP) == Take(p.(state := ResFirstStatusCode))
  {
  }

  /** A byte that only moves the parser on. */
  lemma Quiet(cfg: Config, m0: Machine, bytes: seq<Byte>, m: Machine, ch: Byte, q: Parser)
    requires Run(cfg, m0, bytes) == m && m.halt.Running? && ParsingHeader(m.p.state) && m.p.nread < cfg.maxHeaderSize
    requires Transition(cfg, m.p.(nread := m.p.nread + 1), ch) == Take(q)
    ensures Run(cfg, m0, bytes + [ch]) == Machine(q, m.trace, Running, m.consumed + 1)
  {
    hide Run, Transition, ParsingHeader;
    Onward(cfg, m0, bytes, m, ch, Take(q));
  }

  /** The machine `n` bytes further on in a line, in another state. */
  function Later(m: Machine, s: State, n: nat): Machine {
    Machine(m.p.(state := s, nread := m.p.nread + n), m.trace, Running, m.consumed + n)
  }

  /** A byte of a line, where the states change as told. */
  lemma LetterOn(cfg: Config, m: Machine, line: seq<Byte>, i: nat, ch: Byte, s: State, s': State)
    requires i < |line| && line[i] == ch && ParsingHeader(s) && m.p.nread + i < cfg.maxHeaderSize
    requires Run(cfg, m, line[..i]) == Later(m, s, i)
    requires Transition(cfg, Later(m, s, i + 1).p, ch) == Take(Later(m, s', i + 1).p)
    ensures Run(cfg, m, line[..i + 1]) == Later(m, s', i + 1)
  {
    hide Run, Transition;
    assert line[..i + 1] == line[..i] + [ch];
    Quiet(cfg, m, line[..i], Later(m, s, i), ch, Later(m, s', i + 1).p);
  }

  lemma RequestProtocolStep(cfg: Config, m: Machine, n: nat)
    ensures Transition(cfg, Later(m, ReqHttpStart, n).p, 'H' as int) == Take(Later(m, ReqHttpH, n).p)
    ensures Transition(cfg, Later(m, ReqHttpH, n).p, 'T' as int) == Take(Later(m, ReqHttpHT, n).p)
    ensures Transition(cfg, Later(m, ReqHttpHT, n).p, 'T' as int) == Take(Later(m, ReqHttpHTT, n).p)
    ensures Transition(cfg, Later(m, ReqHttpHTT, n).p, 'P' as int) == Take(Later(m, ReqHttpHTTP, n).p)
    ensures Transition(cfg, Later(m, ReqHttpHTTP, n).p, '/' as int) == Take(Later(m, ReqHttpMajor, n).p)
  {
    hide Transition;
    RequestProtocolMoves(cfg, Later(m, ReqHttpStart, n).p);
    RequestProtocolMoves(cfg, Later(m, ReqHttpH, n).p);
    RequestProtocolMoves(cfg, Later(m, ReqHttpHT, n).p);
    RequestProtocolMoves(cfg, Later(m, ReqHttpHTT, n).p);
    RequestProtocolMoves(cfg, Later(m, ReqHttpHTTP, n).p);
  }

  lemma NothingLater(cfg: Config, m: Machine)
    requires m.halt.Running?
    ensures Run(cfg, m, []) == Later(m, m.p.state, 0)
  {
  }

  lemma ProtocolLetters()
    ensures var s := Spelled("HTTP/");
            && |s| == 5 && s[0] == 'H' as int && s[1] == 'T' as int && s[2] == 'T' as int && s[3] == 'P' as int
            && s[4] == '/' as int
  {
  }

  lemma RequestProtocolBegins(cfg: Config, m: Machine)
    requires m.halt.Running? && m.p.state.ReqHttpStart? && m.p.nread + 5 <= cfg.maxHeaderSize
    ensures Run(cfg, m, Spelled("HTTP/")[..3]) == Later(m, ReqHttpHTT, 3)
  {
    hide Run, Transition, Later, Spelled;
    var s := Spelled("HTTP/");
    ProtocolLetters();
    assert s[..0] == [];
    NothingLater(cfg, m);
    RequestProtocolStep(cfg, m, 1);
    LetterOn(cfg, m, s, 0, 'H' as int, ReqHttpStart, ReqHttpH);
    RequestProtocolStep(cfg, m, 2);
    LetterOn(cfg, m, s, 1, 'T' as int, ReqHttpH, ReqHttpHT);
    RequestProtocolStep(cfg, m, 3);
    LetterOn(cfg, m, s, 2, 'T' as int, ReqHttpHT, ReqHttpHTT);
  }

  lemma RequestProtocolRead(cfg: Config, m: Machine)
    requires m.halt.Running? && m.p.state.ReqHttpStart? && m.p.nread + 5 <= cfg.maxHeaderSize
    ensures Run(cfg, m, Spelled("HTTP/")) == Later(m, ReqHttpMajor, 5)
  {
    hide Run, Transition, Later, Spelled;
    var s := Spelled("HTTP/");
    ProtocolLetters();
    assert s[..5] == s;
    RequestProtocolBegins(cfg, m);
    RequestProtocolStep(cfg, m, 4);
    LetterOn(cfg, m, s, 3, 'P' as int, ReqHttpHTT, ReqHttpHTTP);
    RequestProtocolStep(cfg, m, 5);
    LetterOn(cfg, m, s, 4, '/' as int, ReqHttpHTTP, ReqHttpMajor);
  }

  /** The machine with a version noted. */
  function WithVersion(m: Machine, major: nat, minor: nat): Machine {
    m.(p := m.p.(httpMajor := major, httpMinor := minor))
  }

  lemma MajorRead(cfg: Config, m: Machine, bytes: seq<Byte>, major: nat)
    requires m.halt.Running? && m.p.nread + 7 <= cfg.maxHeaderSize && major < 10
    requires Run(cfg, m, bytes) == Later(m, ReqHttpMajor, 5)
    ensures Run(cfg, m, bytes + [Digit(major)] + ['.' as int]) ==
            Later(WithVersion(m, major, m.p.httpMinor), ReqHttpMinor, 7)
  {
    hide Run, Transition, Digit;
    var a := WithVersion(m, major, m.p.httpMinor);
    RequestVersionMoves(cfg, Later(m, ReqHttpMajor, 6).p, major);
    Quiet(cfg, m, bytes, Later(m, ReqHttpMajor, 5), Digit(major), Later(a, ReqHttpDot, 6).p);
    RequestVersionMoves(cfg, Later(a, ReqHttpDot, 7).p, 0);
    Quiet(cfg, m, bytes + [Digit(major)], Later(a, ReqHttpDot, 6), '.' as int, Later(a, ReqHttpMinor, 7).p);
  }

  lemma MinorRead(cfg: Config, m: Machine, bytes: seq<Byte>, major: nat, minor: nat)
    requires m.halt.Running? && m.p.nread + 8 <= cfg.maxHeaderSize && minor < 10
    requires Run(cfg, m, bytes) == Later(WithVersion(m, major, m.p.httpMinor), ReqHttpMinor, 7)
    ensures Run(cfg, m, bytes + [Digit(minor)]) == Later(WithVersion(m, major, minor), ReqHttpEnd, 8)
  {
    hide Run, Transition, Digit;
    var a := WithVersion(m, major, m.p.httpMinor);
    RequestVersionMoves(cfg, Later(a, ReqHttpMinor, 8).p, minor);
    Quiet(cfg, m, bytes, Later(a, ReqHttpMinor, 7), Digit(minor), Later(WithVersion(m, major, minor), ReqHttpEnd, 8).p);
  }

  lemma LineEndRead(cfg: Config, m: Machine, bytes: seq<Byte>, a: Machine)
    requires a.halt.Running? && a.p.nread + 10 <= cfg.maxHeaderSize && Run(cfg, m, bytes) == Later(a, ReqHttpEnd, 8)
    ensures Run(cfg, m, bytes + [CR] + [LF]) == Later(a, HeaderFieldStart, 10)
  {
    hide Run, Transition;
    RequestVersionMoves(cfg, Later(a, ReqHttpEnd, 9).p, 0);
    Quiet(cfg, m, bytes, Later(a, ReqHttpEnd, 8), CR, Later(a, ReqLineAlmostDone, 9).p);
    RequestVersionMoves(cfg, Later(a, ReqLineAlmostDone, 10).p, 0);
    Quiet(cfg, m, bytes + [CR], Later(a, ReqLineAlmostDone, 9), LF, Later(a, HeaderFieldStart, 10).p);
  }

  lemma RequestVersionRead(cfg: Config, m: Machine, major: nat, minor: nat)
    requires m.halt.Running? && m.p.state.ReqHttpStart? && m.p.nread + 10 <= cfg.maxHeaderSize
    requires major < 10 && minor < 10
    ensures Run(cfg, m, Version(major, minor) + [CR] + [LF]) ==
            Later(WithVersion(m, major, minor), HeaderFieldStart, 10)
  {
    hide Run, Later, Digit;
    var s := Spelled("HTTP/");
    RequestProtocolRead(cfg, m);
    MajorRead(cfg, m, s, major);
    MinorRead(cfg, m, s + [Digit(major)] + ['.' as int], major, minor);
    LineEndRead(cfg, m, Version(major, minor), WithVersion(m, major, minor));
  }

  // ---- Request lines ----------------------------------------------------------------------------

  function RequestLine(m: Method, url: seq<Byte>, major: nat, minor: nat): seq<Byte>
    requires major < 10 && minor < 10
  {
    Spelled(MethodString(m)) + [SP] + url + [SP] + (Version(major, minor) + [CR] + [LF])
  }

  /** A request line, from a parser that has seen nothing yet, leaves its method and its version. */
  lemma RequestLineRead(cfg: Config, t: HttpType, m: Method, url: seq<Byte>, major: nat, minor: nat)
    requires !t.Response? && !m.CONNECT? && Target(url) && major < 10 && minor < 10
    requires |RequestLine(m, url, major, minor)| <= cfg.maxHeaderSize
    ensures var line := RequestLine(m, url, major, minor);
            var r := Run(cfg, Start(Init(t)), line);
            && r == Machine(r.p, [MessageBegin, Data(Url, url)], Running, |line|)
            && r.p == NewRecord(t, Request).(state := HeaderFieldStart, method_ := m, httpMajor := major,
                                             httpMinor := minor, nread := |line|, index := r.p.index)
  {
    hide Run, Transition, MethodString, Version, InPath, Span, Emit;
    var m0, name := Start(Init(t)), Spelled(MethodString(m)) + [SP];
    VersionLength(major, minor);
    MethodRead(cfg, t, m);
    var m1 := Run(cfg, m0, name);
    TargetRead(cfg, m1, url);
    var m2 := Run(cfg, m1, url);
    RunConcat(cfg, m0, name, url);
    SpanAtEnd(m1.trace, Url, url);
    assert m1.trace + [Data(Url, url)] == [MessageBegin, Data(Url, url)];
    PathIsHead(m2.p.state);
    PathEnds(cfg, m2.p.(nread := m2.p.nread + 1));
    Onward(cfg, m0, name + url, m2, SP, Transition(cfg, m2.p.(nread := m2.p.nread + 1), SP));
    var m3 := Run(cfg, m0, name + url + [SP]);
    RequestVersionRead(cfg, m3, major, minor);
    RunConcat(cfg, m0, name + url + [SP], Version(major, minor) + [CR] + [LF]);
  }

  lemma VersionLength(major: nat, minor: nat)
    requires major < 10 && minor < 10
    ensures |Version(major, minor)| == 8
  {
  }

  // ---- Status lines -----------------------------------------------------------------------------

  lemma ResponseStarts(cfg: Config, t: HttpType)
    requires !t.Request?
    ensures Transition(cfg, Init(t).(nread := 1), 'H' as int) ==
            Move(NewRecord(t, t).(nread := 1, state := if t.Both? then ResOrRespH else ResH), Notify(MessageBegin),
                 Consumed)
  {
  }

  /** The first two letters: which of the two kinds of message it is has been told. */
  lemma ResponseBegins(cfg: Config, t: HttpType)
    requires !t.Request? && cfg.maxHeaderSize >= 2
    ensures Run(cfg, Start(Init(t)), Spelled("HTTP/")[..2]) ==
            Machine(NewRecord(t, Response).(nread := 2, state := ResHT), [MessageBegin], Running, 2)
  {
    hide Run, Transition, Spelled;
    var s, m0 := Spelled("HTTP/"), Start(Init(t));
    ProtocolLetters();
    assert s[..1] == [] + [s[0]] && s[..2] == s[..1] + [s[1]];
    NothingRun(cfg, m0);
    ResponseStarts(cfg, t);
    Onward(cfg, m0, [], m0, s[0], Transition(cfg, Init(t).(nread := 1), s[0]));
    assert [] + [MessageBegin] == [MessageBegin];
    var m1 := Run(cfg, m0, s[..1]);
    if t.Both? {
      HeadStarts(cfg, m1.p.(nread := 2));
    } else {
      ResponseProtocolMoves(cfg, m1.p.(nread := 2));
    }
    Quiet(cfg, m0, s[..1], m1, s[1], NewRecord(t, Response).(nread := 2, state := ResHT));
  }

  /** The machine `n` bytes into a status line, with what it has noted of it. */
  function InStatusLine(t: HttpType, s: State, major: nat, minor: nat, code: nat, n: nat): Machine {
    Machine(NewRecord(t, Response).(state := s, httpMajor := major, httpMinor := minor, statusCode := code, nread := n),
            [MessageBegin], Running, n)
  }

  lemma ResponseProtocolRead(cfg: Config, t: HttpType)
    requires !t.Request? && cfg.maxHeaderSize >= 5
    ensures Run(cfg, Start(Init(t)), Spelled("HTTP/")) == InStatusLine(t, ResHttpMajor, 0, 0, 0, 5)
  {
    hide Run, Transition, Spelled;
    var s, m0 := Spelled("HTTP/"), Start(Init(t));
    ProtocolLetters();
    ResponseBegins(cfg, t);
    assert s[..3] == s[..2] + [s[2]] && s[..4] == s[..3] + [s[3]] && s == s[..4] + [s[4]];
    var m2, m3, m4 := InStatusLine(t, ResHT, 0, 0, 0, 2), InStatusLine(t, ResHTT, 0, 0, 0, 3),
        InStatusLine(t, ResHTTP, 0, 0, 0, 4);
    ResponseProtocolMoves(cfg, m2.p.(nread := 3));
    Quiet(cfg, m0, s[..2], m2, s[2], m3.p);
    ResponseProtocolMoves(cfg, m3.p.(nread := 4));
    Quiet(cfg, m0, s[..3], m3, s[3], m4.p);
    ResponseProtocolMoves(cfg, m4.p.(nread := 5));
    Quiet(cfg, m0, s[..4], m4, s[4], InStatusLine(t, ResHttpMajor, 0, 0, 0, 5).p);
  }

  lemma ResponseVersionRead(cfg: Config, t: HttpType, major: nat, minor: nat)
    requires !t.Request? && cfg.maxHeaderSize >= 9 && major < 10 && minor < 10
    ensures Run(cfg, Start(Init(t)), Version(major, minor) + [SP]) ==
            InStatusLine(t, ResFirstStatusCode, major, minor, 0, 9)
  {
    hide Run, Transition, Spelled, Digit;
    var s, m0 := Spelled("HTTP/"), Start(Init(t));
    ResponseProtocolRead(cfg, t);
    var m5, m6, m7, m8 := InStatusLine(t, ResHttpMajor, 0, 0, 0, 5), InStatusLine(t, ResHttpDot, major, 0, 0, 6),
        InStatusLine(t, ResHttpMinor, major, 0, 0, 7), InStatusLine(t, ResHttpEnd, major, minor, 0, 8);
    ResponseVersionMoves(cfg, m5.p.(nread := 6), major);
    Quiet(cfg, m0, s, m5, Digit(major), m6.p);
    ResponseVersionMoves(cfg, m6.p.(nread := 7), 0);
    Quiet(cfg, m0, s + [Digit(major)], m6, '.' as int, m7.p);
    ResponseVersionMoves(cfg, m7.p.(nread := 8), minor);
    Quiet(cfg, m0, s + [Digit(major)] + ['.' as int], m7, Digit(minor), m8.p);
    ResponseVersionMoves(cfg, m8.p.(nread := 9), 0);
    Quiet(cfg, m0, Version(major, minor), m8, SP, InStatusLine(t, ResFirstStatusCode, major, minor, 0, 9).p);
  }

  /** The three digits of a status code. */
  function Code(code: nat): seq<Byte>
    requires code < 1000
  {
    [Digit(code / 100)] + [Digit(code / 10 % 10)] + [Digit(code % 10)]
  }

  lemma CodeMoves(cfg: Config, p: Parser, d: nat)
    requires d < 10
    ensures p.state.ResFirstStatusCode? ==>
              Transition(cfg, p, Digit(d)) == Take(p.(statusCode := d, state := ResStatusCode))
    ensures p.state.ResStatusCode? && p.statusCode * 10 + d <= 999 ==>
              Transition(cfg, p, Digit(d)) == Take(p.(statusCode := p.statusCode * 10 + d))
    ensures p.state.ResStatusCode? ==> Transition(cfg, p, SP) == Take(p.(state := ResStatusStart))
  {
  }

  lemma CodeIsCode(code: nat)
    requires code < 1000
    ensures (code / 100 * 10 + code / 10 % 10) * 10 + code % 10 == code
    ensures code / 100 * 10 + code / 10 % 10 == code / 10
  {
  }

  lemma CodeRead(cfg: Config, t: HttpType, bytes: seq<Byte>, major: nat, minor: nat, code: nat)
    requires cfg.maxHeaderSize >= 13 && code < 1000
    requires Run(cfg, Start(Init(t)), bytes) == InStatusLine(t, ResFirstStatusCode, major, minor, 0, 9)
    ensures Run(cfg, Start(Init(t)), bytes + Code(code) + [SP]) ==
            InStatusLine(t, ResStatusStart, major, minor, code, 13)
  {
    hide Run, Transition, Digit;
    var m0 := Start(Init(t));
    var a, b, c := Digit(code / 100), Digit(code / 10 % 10), Digit(code % 10);
    CodeIsCode(code);
    var m1, m2, m3, m4 := InStatusLine(t, ResFirstStatusCode, major, minor, 0, 9),
        InStatusLine(t, ResStatusCode, major, minor, code / 100, 10),
        InStatusLine(t, ResStatusCode, major, minor, code / 10, 11),
        InStatusLine(t, ResStatusCode, major, minor, code, 12);
    CodeMoves(cfg, m1.p.(nread := 10), code / 100);
    Quiet(cfg, m0, bytes, m1, a, m2.p);
    CodeMoves(cfg, m2.p.(nread := 11), code / 10 % 10);
    Quiet(cfg, m0, bytes + [a], m2, b, m3.p);
    CodeMoves(cfg, m3.p.(nread := 12), code % 10);
    Quiet(cfg, m0, bytes + [a] + [b], m3, c, m4.p);
    assert bytes + [a] + [b] + [c] == bytes + Code(code);
    CodeMoves(cfg, m4.p.(nread := 13), 0);
    Quiet(cfg, m0, bytes + Code(code), m4, SP, InStatusLine(t, ResStatusStart, major, minor, code, 13).p);
  }

  lemma ReasonMoves(cfg: Config, p: Parser, ch: Byte)
    ensures var q := p.(state := ResStatus, index := 0);
            p.state.ResStatusStart? ==>
              Transition(cfg, p, ch) ==
                if ch == CR || ch == LF then Move(q, Mark(Status), Again) else Move(q, Put(Status), Consumed)
    ensures p.state.ResStatus? && ch != CR && ch != LF ==> Transition(cfg, p, ch) == Move(p, Put(Status), Consumed)
    ensures p.state.ResStatus? ==>
              Transition(cfg, p, CR) == Move(p.(state := ResLineAlmostDone), Flush(Status), Consumed)
    ensures p.state.ResLineAlmostDone? ==> Transition(cfg, p, LF) == Take(p.(state := HeaderFieldStart))
  {
  }

  /** The machine within a reason phrase. */
  function InReason(m: Machine, reason: seq<Byte>): Machine {
    Machine(m.p.(state := ResStatus, index := 0, nread := m.p.nread + |reason|), Span(m.trace, Status, reason), Running,
            m.consumed + |reason|)
  }

  lemma {:induction false} ReasonChars(cfg: Config, m: Machine, reason: seq<Byte>)
    requires m.halt.Running? && m.p.state.ResStatusStart? && reason != [] && NoLineEnd(reason)
    requires m.p.nread + |reason| <= cfg.maxHeaderSize
    ensures Run(cfg, m, reason) == InReason(m, reason)
    decreases |reason|
  {
    hide Run, Transition, Effect, Span;
    var front, ch := reason[..|reason| - 1], reason[|reason| - 1];
    assert front + [ch] == reason;
    if front == [] {
      NothingRun(cfg, m);
      var p := m.p.(nread := m.p.nread + 1);
      ReasonMoves(cfg, p, ch);
      Onward(cfg, m, [], m, ch, Transition(cfg, p, ch));
      SpanOne(m.trace, Status, ch);
      assert [ch] == reason;
    } else {
      ReasonChars(cfg, m, front);
      var m1 := InReason(m, front);
      var p := m1.p.(nread := m1.p.nread + 1);
      ReasonMoves(cfg, p, ch);
      Onward(cfg, m, front, m1, ch, Transition(cfg, p, ch));
      SpanOne(m1.trace, Status, ch);
      SpanSpan(m.trace, Status, front, [ch]);
    }
  }

  lemma NoReason(cfg: Config, m: Machine)
    requires m.halt.Running? && m.p.state.ResStatusStart? && NotAtEnd(m.trace, Status) && m.p.nread < cfg.maxHeaderSize
    ensures Run(cfg, m, [CR]) ==
            Machine(m.p.(state := ResLineAlmostDone, index := 0, nread := m.p.nread + 1),
                    m.trace + [Data(Status, [])], Running, m.consumed + 1)
  {
    hide Run, Transition;
    NothingRun(cfg, m);
    var p := m.p.(nread := m.p.nread + 1);
    var q := p.(state := ResStatus, index := 0);
    ReasonMoves(cfg, p, CR);
    ReasonMoves(cfg, q, CR);
    OnwardTwice(cfg, m, [], m, CR, Transition(cfg, p, CR), Transition(cfg, q, CR));
    assert [] + [CR] == [CR];
  }

  lemma ReasonRead(cfg: Config, m: Machine, reason: seq<Byte>)
    requires m.halt.Running? && m.p.state.ResStatusStart? && NoLineEnd(reason) && NotAtEnd(m.trace, Status)
    requires m.p.nread + |reason| + 2 <= cfg.maxHeaderSize
    ensures Run(cfg, m, reason + [CR] + [LF]) ==
            Machine(m.p.(state := HeaderFieldStart, index := 0, nread := m.p.nread + |reason| + 2),
                    m.trace + [Data(Status, reason)], Running, m.consumed + |reason| + 2)
  {
    hide Run, Transition, Span, Emit;
    if reason == [] {
      NoReason(cfg, m);
      assert reason + [CR] == [CR];
    } else {
      ReasonChars(cfg, m, reason);
      SpanAtEnd(m.trace, Status, reason);
      var m1 := InReason(m, reason);
      var p := m1.p.(nread := m1.p.nread + 1);
      ReasonMoves(cfg, p, CR);
      Onward(cfg, m, reason, m1, CR, Transition(cfg, p, CR));
    }
    var m2 := Run(cfg, m, reason + [CR]);
    ReasonMoves(cfg, m2.p.(nread := m2.p.nread + 1), LF);
    Quiet(cfg, m, reason + [CR], m2, LF, m2.p.(nread := m2.p.nread + 1, state := HeaderFieldStart));
  }

  function StatusLine(major: nat, minor: nat, code: nat, reason: seq<Byte>): seq<Byte>
    requires major < 10 && minor < 10 && code < 1000
  {
    Version(major, minor) + [SP] + Code(code) + [SP] + (reason + [CR] + [LF])
  }

  /** A status line, from a parser that has seen nothing yet, leaves its version and its status code. */
  lemma StatusLineRead(cfg: Config, t: HttpType, major: nat, minor: nat, code: nat, reason: seq<Byte>)
    requires !t.Request? && major < 10 && minor < 10 && code < 1000 && NoLineEnd(reason)
    requires |StatusLine(major, minor, code, reason)| <= cfg.maxHeaderSize
    ensures var line := StatusLine(major, minor, code, reason);
            var r := Run(cfg, Start(Init(t)), line);
            && r == Machine(r.p, [MessageBegin, Data(Status, reason)], Running, |line|)
            && r.p == NewRecord(t, Response).(state := HeaderFieldStart, httpMajor := major, httpMinor := minor,
                                              statusCode := code, nread := |line|, index := r.p.index)
  {
    hide Run, Version;
    VersionLength(major, minor);
    var m0, bytes := Start(Init(t)), Version(major, minor) + [SP];
    ResponseVersionRead(cfg, t, major, minor);
    CodeRead(cfg, t, bytes, major, minor, code);
    var m1 := InStatusLine(t, ResStatusStart, major, minor, code, 13);
    ReasonRead(cfg, m1, reason);
    RunConcat(cfg, m0, bytes + Code(code) + [SP], reason + [CR] + [LF]);
    assert m1.trace + [Data(Status, reason)] == [MessageBegin, Data(Status, reason)];
  }
}
