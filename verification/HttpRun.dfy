/**
 The byte-by-byte meaning of a run of the HTTP parser: which callbacks an input produces and which
 parser state it leaves, with no notion of the buffers the input arrives in.
 */
module HttpRun {
  import opened HttpTypes
  import opened HttpStep

  // ---- Traces -----------------------------------------------------------------------------------

  type Trace = seq<Event>

  /** Append an event, gluing a data callback to a preceding one of the same kind. */
  function Emit(tr: Trace, e: Event): Trace {
    if e.Data? && |tr| > 0 && tr[|tr| - 1].Data? && tr[|tr| - 1].kind == e.kind
    then tr[..|tr| - 1] + [Data(e.kind, tr[|tr| - 1].bytes + e.bytes)]
    else tr + [e]
  }

  /** What is left of a log of callbacks once cuts inside one piece of data no longer show. */
  function Glue(log: seq<Event>): Trace {
    if |log| == 0 then [] else Emit(Glue(log[..|log| - 1]), log[|log| - 1])
  }

  lemma EmitTwice(tr: Trace, k: DataKind, a: seq<Byte>, b: seq<Byte>)
    ensures Emit(Emit(tr, Data(k, a)), Data(k, b)) == Emit(tr, Data(k, a + b))
  {
    if |tr| > 0 && tr[|tr| - 1].Data? && tr[|tr| - 1].kind == k {
      assert tr[|tr| - 1].bytes + (a + b) == tr[|tr| - 1].bytes + a + b;
    }
  }

  lemma GlueSnoc(log: seq<Event>, e: Event)
    ensures Glue(log + [e]) == Emit(Glue(log), e)
  {
    assert (log + [e])[..|log|] == log;
  }

  function Effect(a: Action, ch: Byte, tr: Trace): Trace {
    match a
    case Nothing => tr
    case Put(k) => Emit(tr, Data(k, [ch]))
    case Mark(_) => tr
    case Flush(k) => if k.Body? then tr else Emit(tr, Data(k, []))
    case EmptyData(k) => Emit(tr, Data(k, []))
    case Notify(e) => Emit(tr, e)
  }

  // ---- Machine ----------------------------------------------------------------------------------

  datatype Halt = Running | Exited | Failed | Crashed

  /** `consumed` counts the bytes taken so far. */
  datatype Machine = Machine(p: Parser, trace: Trace, halt: Halt, consumed: nat)

  datatype Outcome = Outcome(p: Parser, trace: Trace, next: Next)

  /** Hand the byte on from state to state until some state consumes it or gives up. */
  function Drive(cfg: Config, p: Parser, tr: Trace, ch: Byte): (o: Outcome)
    ensures !o.next.Again?
    decreases Rank(p.state)
  {
    var m := Transition(cfg, p, ch);
    var tr' := Effect(m.action, ch, tr);
    RankDecreases(cfg, p, ch);
    if m.next.Again? then Drive(cfg, m.p, tr', ch) else Outcome(m.p, tr', m.next)
  }

  function Count(p: Parser): Parser {
    if ParsingHeader(p.state) then p.(nread := p.nread + 1) else p
  }

  predicate Overflows(cfg: Config, p: Parser) {
    ParsingHeader(p.state) && p.nread + 1 > cfg.maxHeaderSize
  }

  function Halted(next: Next): Halt {
    match next
    case Consumed => Running
    case Again => Running
    case Exit => Exited
    case Fail => Failed
    case Crash => Crashed
  }

  function Step(cfg: Config, m: Machine, ch: Byte): Machine {
    if !m.halt.Running? then m
    else if Overflows(cfg, m.p) then m.(p := Count(m.p).(errno := HeaderOverflow), halt := Failed)
    else
      var o := Drive(cfg, Count(m.p), m.trace, ch);
      Machine(o.p, o.trace, Halted(o.next), if o.next.Consumed? || o.next.Exit? then m.consumed + 1 else m.consumed)
  }

  function Run(cfg: Config, m: Machine, bytes: seq<Byte>): Machine
    decreases |bytes|
  {
    if bytes == [] then m else Step(cfg, Run(cfg, m, bytes[..|bytes| - 1]), bytes[|bytes| - 1])
  }

  function Start(p: Parser): Machine {
    Machine(p, [], Running, 0)
  }

  lemma RunSnoc(cfg: Config, m: Machine, bytes: seq<Byte>, ch: Byte)
    ensures Run(cfg, m, bytes + [ch]) == Step(cfg, Run(cfg, m, bytes), ch)
  {
    hide Step;
    assert (bytes + [ch])[..|bytes|] == bytes;
  }

  /** Running on two pieces in turn is running on their concatenation. */
  lemma {:induction false} RunConcat(cfg: Config, m: Machine, a: seq<Byte>, b: seq<Byte>)
    ensures Run(cfg, m, a + b) == Run(cfg, Run(cfg, m, a), b)
    decreases |b|
  {
    if b == [] {
      assert a + b == a;
    } else {
      var b' := b[..|b| - 1];
      assert a + b == (a + b') + [b[|b| - 1]];
      RunSnoc(cfg, m, a + b', b[|b| - 1]);
      RunConcat(cfg, m, a, b');
    }
  }

  /** Once halted, a machine ignores the rest of its input. */
  lemma {:induction false} HaltedStays(cfg: Config, m: Machine, bytes: seq<Byte>)
    requires !m.halt.Running?
    ensures Run(cfg, m, bytes) == m
    decreases |bytes|
  {
    if bytes != [] {
      HaltedStays(cfg, m, bytes[..|bytes| - 1]);
    }
  }

  lemma RunningBefore(cfg: Config, m: Machine, bytes: seq<Byte>, i: nat)
    requires i <= |bytes|
    requires Run(cfg, m, bytes).halt.Running?
    ensures Run(cfg, m, bytes[..i]).halt.Running?
  {
    assert bytes == bytes[..i] + bytes[i..];
    RunConcat(cfg, m, bytes[..i], bytes[i..]);
    if !Run(cfg, m, bytes[..i]).halt.Running? {
      HaltedStays(cfg, Run(cfg, m, bytes[..i]), bytes[i..]);
    }
  }

  /** A machine that is still running has consumed every byte it was given. */
  lemma {:induction false} ConsumedWhileRunning(cfg: Config, m: Machine, bytes: seq<Byte>)
    requires Run(cfg, m, bytes).halt.Running?
    ensures Run(cfg, m, bytes).consumed == m.consumed + |bytes|
    decreases |bytes|
  {
    if bytes != [] {
      RunningBefore(cfg, m, bytes, |bytes| - 1);
      ConsumedWhileRunning(cfg, m, bytes[..|bytes| - 1]);
    }
  }
}
