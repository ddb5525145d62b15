/**
 http_parser_execute as the application sees it: an object fed one buffer after another. Where the
 input is cut into buffers makes no difference.
 */
module HttpParser {
  import opened HttpTypes
  import opened HttpStep
  import opened HttpRun
  import opened HttpInvariant
  import opened HttpMarks
  import opened HttpBulk
  import opened HttpLoop

  function Flatten(pieces: seq<seq<Byte>>): seq<Byte> {
    if |pieces| == 0 then [] else Flatten(pieces[..|pieces| - 1]) + pieces[|pieces| - 1]
  }

  class HttpParser {
    var kind: HttpType
    var flags: Flags
    var state: State
    var headerState: HeaderState
    var index: nat
    var usesTransferEncoding: bool
    var nread: nat
    var contentLength: nat
    var httpMajor: nat
    var httpMinor: nat
    var statusCode: nat
    var method_: Method
    var errno: Errno
    var upgrade: bool
    /** The callbacks made so far, in order. */
    var events: seq<Event>

    function View(): Parser
      reads this
    {
      Parser(kind, flags, state, headerState, index, usesTransferEncoding, nread, contentLength,
             httpMajor, httpMinor, statusCode, method_, errno, upgrade)
    }

    /** The parser as the byte-by-byte machine sees it, with no bytes of the current call consumed. */
    function Abstract(): Machine
      reads this
    {
      Machine(View(), Glue(events), Running, 0)
    }

    constructor (cfg: Config, t: HttpType)
      ensures View() == Init(t) && events == [] && Inv(cfg, View(), 0)
    {
      var p := Init(t);
      kind, flags, state, headerState, index := p.kind, p.flags, p.state, p.headerState, p.index;
      usesTransferEncoding, nread, contentLength := p.usesTransferEncoding, p.nread, p.contentLength;
      httpMajor, httpMinor, statusCode := p.httpMajor, p.httpMinor, p.statusCode;
      method_, errno, upgrade, events := p.method_, p.errno, p.upgrade, [];
      InitInv(cfg, t);
    }

    /** Write the locals of a call back, as RETURN and SET_ERRNO do. */
    method Store(p: Parser, log: seq<Event>)
      modifies this
      ensures View() == p && events == log
    {
      StoreState(p);
      StoreNumbers(p);
      events := log;
    }

    method StoreState(p: Parser)
      modifies this`kind, this`flags, this`state, this`headerState, this`method_, this`errno, this`upgrade
      ensures kind == p.kind && flags == p.flags && state == p.state && headerState == p.headerState
      ensures method_ == p.method_ && errno == p.errno && upgrade == p.upgrade
    {
      kind, flags, state, headerState := p.kind, p.flags, p.state, p.headerState;
      method_, errno, upgrade := p.method_, p.errno, p.upgrade;
    }

    method StoreNumbers(p: Parser)
      modifies this`index, this`usesTransferEncoding, this`nread, this`contentLength
      modifies this`httpMajor, this`httpMinor, this`statusCode
      ensures index == p.index && usesTransferEncoding == p.usesTransferEncoding && nread == p.nread
      ensures contentLength == p.contentLength
      ensures httpMajor == p.httpMajor && httpMinor == p.httpMinor && statusCode == p.statusCode
    {
      index, usesTransferEncoding, nread, contentLength := p.index, p.usesTransferEncoding, p.nread, p.contentLength;
      httpMajor, httpMinor, statusCode := p.httpMajor, p.httpMinor, p.statusCode;
    }

    /**
     http_parser_execute. On a buffer, the parser, its callbacks and the number of bytes taken are those
     of the byte-by-byte run; `exited` tells the return on an upgrade from the one at the end of the
     buffer. If the run fails, so does the call, with the same error unless the run meets the header
     limit. All this holds exactly if the call fails or the 32-bit counter is right throughout, as it is
     whenever the run keeps within the header limit. An empty buffer stands for the end of the
     connection; a parser in error does nothing.
     */
    method Execute(cfg: Config, data: seq<Byte>) returns (nparsed: nat, exited: bool)
      requires errno.OK? ==> Inv(cfg, View(), 0)
      modifies this
      ensures errno.OK? ==> Inv(cfg, View(), 0)
      ensures !old(errno).OK? ==> View() == old(View()) && events == old(events) && nparsed == 0 && !exited
      ensures old(errno).OK? && data == [] ==> !exited && EndOfInput(old(View()), old(events), View(), events, nparsed)
      ensures old(errno).OK? && data != [] ==>
              var m := Run(cfg, old(Abstract()), data);
              && (Matches(cfg, m, View(), events, nparsed, exited) <==>
                  AllCounted(cfg, old(Abstract()), data) || !errno.OK?)
              && (AllCounted(cfg, old(Abstract()), data) || Overflowed(m))
    {
      if !errno.OK? {
        return 0, false;
      }
      if |data| == 0 {
        EofKeepsInv(cfg, View());
        nparsed := EofCall();
        return nparsed, false;
      }
      nparsed, exited := Loop(cfg, data);
    }

    method EofCall() returns (nparsed: nat)
      requires errno.OK?
      modifies this
      ensures EndOfInput(old(View()), old(events), View(), events, nparsed)
    {
      if state.BodyIdentityEof? {
        events := events + [MessageComplete];
        return 0;
      }
      if state.Dead? || state.StartReqOrRes? || state.StartRes? || state.StartReq? {
        return 0;
      }
      errno := InvalidEofState;
      return 1;
    }

    /** The loop of http_parser_execute over a non-empty buffer. */
    method Loop(cfg: Config, data: seq<Byte>) returns (nparsed: nat, exited: bool)
      requires Inv(cfg, View(), 0) && 0 < |data|
      modifies this
      ensures errno.OK? ==> Inv(cfg, View(), 0)
      ensures var m := Run(cfg, old(Abstract()), data);
              && (Matches(cfg, m, View(), events, nparsed, exited) <==>
                  AllCounted(cfg, old(Abstract()), data) || !errno.OK?)
              && (AllCounted(cfg, old(Abstract()), data) || Overflowed(m))
    {
      hide Inv, Step, Run, Glue, Emit, Tells, Span, Turned, AllCounted, CountsRight, Overflowed, MarksFit, Ended;
      ghost var m0 := Abstract();
      ghost var m, right := m0, true;
      var c := Cursor(View(), InitialMarks(state), events, 0);
      BeginAt(cfg, m0, data, c);
      CountedOrOverflows(cfg, m0, data);
      RunNothing(cfg, m0);
      assert data[..0] == [];
      while c.i < |data|
        invariant At(cfg, m, data, c)
        invariant right ==> m == Run(cfg, m0, data[..c.i])
        invariant !right ==> !AllCounted(cfg, m0, data)
        decreases |data| - c.i
      {
        var v, c', m' := Turn(cfg, data, c, m);
        if right {
          if CountsRight(cfg, m.p, data, c.i) || v.Erred? {
            TurnedAdvances(cfg, m0, data, c, v, c');
          }
          if !CountsRight(cfg, m.p, data, c.i) {
            MiscountedOverflows(cfg, m0, data, c.i);
            right := false;
          }
        }
        if !v.Going? {
          Store(c'.s, c'.log);
          nparsed, exited := c'.i, v.Stopped?;
          EndMatches(cfg, Run(cfg, m0, data), AllCounted(cfg, m0, data), v, c');
          return;
        }
        c, m := c', m';
      }
      assert data[..c.i] == data;
      var log := Leftovers(data, c.marks, c.log, m.trace);
      Store(c.s, log);
      nparsed, exited := |data|, false;
      if right {
        ConsumedWhileRunning(cfg, m0, data);
      }
      GoingMatches(cfg, Run(cfg, m0, data), AllCounted(cfg, m0, data), m, log, |data|);
    }

    /**
     Feed the parser one piece after another, stopping at an error or an upgrade. The result is that of
     the byte-by-byte run over all the pieces at once, so it does not depend on where they were cut,
     under the same condition as for one call.
     */
    method ExecuteAll(cfg: Config, pieces: seq<seq<Byte>>) returns (nparsed: nat, exited: bool)
      requires Inv(cfg, View(), 0) && errno.OK?
      requires forall k :: 0 <= k < |pieces| ==> 0 < |pieces[k]|
      modifies this
      ensures var m := Run(cfg, old(Abstract()), Flatten(pieces));
              && (Matches(cfg, m, View(), events, nparsed, exited) <==>
                  PiecesCounted(cfg, old(Abstract()), pieces) || !errno.OK?)
              && (PiecesCounted(cfg, old(Abstract()), pieces) || Overflowed(m))
    {
      hide Inv, Step, Run, Glue, Emit, AllCounted, PiecesCounted;
      ghost var m0, right := Abstract(), true;
      nparsed, exited := 0, false;
      var k := 0;
      RunNothing(cfg, m0);
      PiecesCountedOrOverflow(cfg, m0, pieces);
      while k < |pieces|
        invariant 0 <= k <= |pieces| && !exited && errno.OK? && Inv(cfg, View(), 0)
        invariant right ==> Run(cfg, m0, Flatten(pieces[..k])) == Abstract().(consumed := nparsed)
        invariant !right ==> !PiecesCounted(cfg, m0, pieces)
      {
        ghost var before := Abstract();
        var n, out := Loop(cfg, pieces[k]);
        if !errno.OK? {
          MatchesErrs(cfg, Run(cfg, before, pieces[k]), View(), events, n, out);
        }
        FlattenSnoc(pieces, k);
        if right {
          RunConcat(cfg, m0, Flatten(pieces[..k]), pieces[k]);
          RunOffset(cfg, before, pieces[k], nparsed);
          CountedOffset(cfg, before, pieces[k], nparsed);
          if !AllCounted(cfg, before, pieces[k]) {
            PieceMiscounted(cfg, m0, pieces, k);
            right := false;
          }
        }
        k, nparsed := k + 1, nparsed + n;
        if !errno.OK? || out {
          exited := out;
          FlattenRest(pieces, k);
          RunConcat(cfg, m0, Flatten(pieces[..k]), Flatten(pieces[k..]));
          if right {
            HaltedStays(cfg, Run(cfg, m0, Flatten(pieces[..k])), Flatten(pieces[k..]));
          } else {
            OverflowMatches(cfg, Run(cfg, m0, Flatten(pieces)), View(), events, nparsed, exited);
          }
          return;
        }
      }
      assert pieces[..k] == pieces;
      if !right {
        OverflowMatches(cfg, Run(cfg, m0, Flatten(pieces)), View(), events, nparsed, exited);
      }
    }
  }

  /** A parser and its callbacks after a call are those of the machine `m`. */
  predicate Matches(cfg: Config, m: Machine, p: Parser, events: seq<Event>, nparsed: nat, exited: bool) {
    && !m.halt.Crashed?
    && (!m.halt.Failed? ==>
          p == m.p && p.errno.OK? && Inv(cfg, p, 0) && Glue(events) == m.trace && nparsed == m.consumed &&
              exited == m.halt.Exited?)
    && (m.halt.Failed? ==> FailsWith(m, p.errno) && !exited)
  }

  /** The end of the loop on an error or an upgrade. */
  lemma EndMatches(cfg: Config, m: Machine, counted: bool, v: Verdict, c': Cursor)
    requires (v.Stopped? && Inv(cfg, c'.s, 0)) || (v.Erred? && !c'.s.errno.OK?)
    requires if counted then Ended(m, 0, v, c') else Overflowed(m)
    ensures Matches(cfg, m, c'.s, c'.log, c'.i, v.Stopped?) <==> counted || !c'.s.errno.OK?
    ensures c'.s.errno.OK? ==> Inv(cfg, c'.s, 0)
  {
    hide Glue;
  }

  /** The end of the loop at the end of the buffer, where the machine `last` is at the cursor. */
  lemma GoingMatches(cfg: Config, m: Machine, counted: bool, last: Machine, log: seq<Event>, n: nat)
    requires last.halt.Running? && Inv(cfg, last.p, 0) && Glue(log) == last.trace
    requires if counted then m == last && n == m.consumed else Overflowed(m)
    ensures Matches(cfg, m, last.p, log, n, false) <==> counted || !last.p.errno.OK?
  {
    hide Glue;
  }

  lemma OverflowMatches(cfg: Config, m: Machine, p: Parser, events: seq<Event>, n: nat, exited: bool)
    requires Overflowed(m)
    ensures Matches(cfg, m, p, events, n, exited) <==> !p.errno.OK? && !exited
  {
  }

  lemma MatchesErrs(cfg: Config, m: Machine, p: Parser, events: seq<Event>, n: nat, exited: bool)
    requires Matches(cfg, m, p, events, n, exited)
    ensures !p.errno.OK? ==> !exited && m.halt.Failed?
    ensures exited ==> m.halt.Exited?
  {
  }

  /** What an empty buffer, the end of the connection, does to a parser that is not in error. */
  predicate EndOfInput(p: Parser, events: seq<Event>, p': Parser, events': seq<Event>, nparsed: nat) {
    match p.state
    case BodyIdentityEof => p' == p && events' == events + [MessageComplete] && nparsed == 0
    case Dead => p' == p && events' == events && nparsed == 0
    case StartReqOrRes => p' == p && events' == events && nparsed == 0
    case StartRes => p' == p && events' == events && nparsed == 0
    case StartReq => p' == p && events' == events && nparsed == 0
    case _ => p' == p.(errno := InvalidEofState) && events' == events && nparsed == 1
  }

  lemma EofKeepsInv(cfg: Config, p: Parser)
    requires Inv(cfg, p, 0)
    ensures p.errno.OK? && Inv(cfg, p, 0)
  {
  }

  lemma InvOk(cfg: Config, p: Parser)
    requires Inv(cfg, p, 0)
    ensures p.errno.OK?
  {
  }

  lemma GlueNothing()
    ensures Glue([]) == []
  {
  }

  lemma RunNothing(cfg: Config, m: Machine)
    ensures Run(cfg, m, []) == m
  {
  }

  lemma FlattenSnoc(pieces: seq<seq<Byte>>, k: nat)
    requires k < |pieces|
    ensures Flatten(pieces[..k + 1]) == Flatten(pieces[..k]) + pieces[k]
  {
    assert pieces[..k + 1][..k] == pieces[..k];
  }

  lemma {:induction false} FlattenRest(pieces: seq<seq<Byte>>, k: nat)
    requires k <= |pieces|
    ensures Flatten(pieces) == Flatten(pieces[..k]) + Flatten(pieces[k..])
    decreases |pieces| - k
  {
    if k == |pieces| {
      assert pieces[..k] == pieces;
    } else {
      FlattenRest(pieces, k + 1);
      FlattenSnoc(pieces, k);
      FlattenCons(pieces[k..]);
      assert pieces[k..][1..] == pieces[k + 1..];
    }
  }

  lemma {:induction false} FlattenCons(pieces: seq<seq<Byte>>)
    requires |pieces| > 0
    ensures Flatten(pieces) == pieces[0] + Flatten(pieces[1..])
  {
    if |pieces| > 1 {
      var front, last := pieces[..|pieces| - 1], pieces[|pieces| - 1];
      FlattenCons(front);
      assert pieces[1..][..|pieces| - 2] == front[1..];
      assert Flatten(pieces[1..]) == Flatten(front[1..]) + last;
    }
  }

  /** The count of bytes taken has no influence on the rest of a run. */
  lemma {:induction false} RunOffset(cfg: Config, m: Machine, bytes: seq<Byte>, n: nat)
    ensures Run(cfg, m.(consumed := m.consumed + n), bytes) ==
            var r := Run(cfg, m, bytes); r.(consumed := r.consumed + n)
    decreases |bytes|
  {
    hide Drive;
    if bytes != [] {
      RunOffset(cfg, m, bytes[..|bytes| - 1], n);
    }
  }

  /** Every piece is counted rightly where the run over the pieces before it leads. */
  predicate PiecesCounted(cfg: Config, m: Machine, pieces: seq<seq<Byte>>) {
    forall k :: 0 <= k < |pieces| ==> PieceCounted(cfg, m, pieces, k)
  }

  predicate PieceCounted(cfg: Config, m: Machine, pieces: seq<seq<Byte>>, k: nat)
    requires k < |pieces|
  {
    AllCounted(cfg, Run(cfg, m, Flatten(pieces[..k])), pieces[k])
  }

  lemma PieceMiscounted(cfg: Config, m: Machine, pieces: seq<seq<Byte>>, k: nat)
    requires k < |pieces| && m.halt.Running? && Inv(cfg, m.p, 0) && !PieceCounted(cfg, m, pieces, k)
    ensures Overflowed(Run(cfg, m, Flatten(pieces))) && !PiecesCounted(cfg, m, pieces)
  {
    hide Inv, Run, AllCounted, Overflowed;
    var m1 := Run(cfg, m, Flatten(pieces[..k]));
    RunInv(cfg, m, Flatten(pieces[..k]));
    MiscountedRuns(cfg, m1, pieces[k]);
    CountedOrOverflows(cfg, m1, pieces[k]);
    FlattenSnoc(pieces, k);
    RunConcat(cfg, m, Flatten(pieces[..k]), pieces[k]);
    FlattenRest(pieces, k + 1);
    RunConcat(cfg, m, Flatten(pieces[..k + 1]), Flatten(pieces[k + 1..]));
    OverflowFails(Run(cfg, m, Flatten(pieces[..k + 1])), HeaderOverflow);
    HaltedStays(cfg, Run(cfg, m, Flatten(pieces[..k + 1])), Flatten(pieces[k + 1..]));
  }

  /** Only a running machine counts. */
  lemma MiscountedRuns(cfg: Config, m: Machine, data: seq<Byte>)
    requires !AllCounted(cfg, m, data)
    ensures m.halt.Running?
  {
    hide Step, CountsRight;
    if !m.halt.Running? {
      forall i: nat | i < |data| ensures !Run(cfg, m, data[..i]).halt.Running? {
        HaltedStays(cfg, m, data[..i]);
      }
    }
  }

  lemma PiecesCountedOrOverflow(cfg: Config, m: Machine, pieces: seq<seq<Byte>>)
    requires m.halt.Running? && Inv(cfg, m.p, 0)
    ensures PiecesCounted(cfg, m, pieces) || Overflowed(Run(cfg, m, Flatten(pieces)))
  {
    hide Inv, Run, PieceCounted, Overflowed;
    if !PiecesCounted(cfg, m, pieces) {
      var k: nat :| k < |pieces| && !PieceCounted(cfg, m, pieces, k);
      PieceMiscounted(cfg, m, pieces, k);
    }
  }

  lemma CountedOffset(cfg: Config, m: Machine, data: seq<Byte>, n: nat)
    ensures AllCounted(cfg, m.(consumed := m.consumed + n), data) <==> AllCounted(cfg, m, data)
  {
    hide Run, CountsRight;
    forall i: nat | i < |data|
      ensures Run(cfg, m.(consumed := m.consumed + n), data[..i]).p == Run(cfg, m, data[..i]).p
      ensures Run(cfg, m.(consumed := m.consumed + n), data[..i]).halt == Run(cfg, m, data[..i]).halt
    {
      RunOffset(cfg, m, data[..i], n);
    }
  }

  /** Two parsers agree: on whether there was an error, and without one on everything. */
  predicate Agree(p: Parser, events: seq<Event>, n: nat, p': Parser, events': seq<Event>, n': nat) {
    && (p.errno.OK? <==> p'.errno.OK?)
    && (p.errno.OK? ==> p == p' && Glue(events) == Glue(events') && n == n')
  }

  /**
   Split invariance: a whole input and the same input in pieces end without error together, and then
   leave the same parser, the same callbacks up to cuts inside one piece of data, and the same count of
   bytes taken. This holds if the 32-bit counter is right for both, as it is for every input that keeps
   within the header limit; where it is right for the pieces, it holds exactly if it is right for the
   whole, or the whole fails all the same.
   */
  method SplitInvariance(cfg: Config, t: HttpType, pieces: seq<seq<Byte>>)
    returns (whole: HttpParser, split: HttpParser, n: nat, n': nat)
    requires |pieces| > 0 && forall k :: 0 <= k < |pieces| ==> 0 < |pieces[k]|
    ensures var m0, data := Start(Init(t)), Flatten(pieces);
            && ((AllCounted(cfg, m0, data) && PiecesCounted(cfg, m0, pieces)) || Overflowed(Run(cfg, m0, data)))
            && (AllCounted(cfg, m0, data) && PiecesCounted(cfg, m0, pieces) ==>
                  Agree(whole.View(), whole.events, n, split.View(), split.events, n'))
            && (PiecesCounted(cfg, m0, pieces) ==>
                  (Agree(whole.View(), whole.events, n, split.View(), split.events, n') <==>
                   AllCounted(cfg, m0, data) || !whole.errno.OK?))
            && (!whole.errno.OK? && !split.errno.OK? && whole.errno != split.errno ==> Overflowed(Run(cfg, m0, data)))
  {
    hide Inv, Step, Run, Glue, AllCounted, PiecesCounted;
    whole := new HttpParser(cfg, t);
    split := new HttpParser(cfg, t);
    var out, out';
    GlueNothing();
    InvOk(cfg, split.View());
    n, out := whole.Loop(cfg, Flatten(pieces));
    n', out' := split.ExecuteAll(cfg, pieces);
  }
}
