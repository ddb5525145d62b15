/**
 The document path of the schema validator: a stack of characters that spells where in the document the validator is,
 pushed and popped while the events of the document come in.
 */
module ValidatorPath {
  import opened JsonTypes
  import opened JsonDocument
  import opened Ascii

  // ---- Tokens -----------------------------------------------------------------------------------

  /** A name with `~` and `/` escaped, as section 3 of RFC 6901 has it. */
  function Escaped(name: string): string {
    if name == [] then []
    else (if name[0] == '~' then "~0" else if name[0] == '/' then "~1" else [name[0]]) + Escaped(name[1..])
  }

  function Unescaped(s: string): string
    decreases |s|
  {
    if s == [] then []
    else if s[0] == '~' && |s| > 1 then [if s[1] == '0' then '~' else '/'] + Unescaped(s[2..])
    else [s[0]] + Unescaped(s[1..])
  }

  predicate NoSlash(s: string) {
    forall c <- s :: c != '/'
  }

  /** The room that AppendToken reserves for a name of `n` characters: `1 + n * 2`, in 32 bits. */
  function Reserved(n: nat): nat {
    (1 + 2 * n) % 0x1_0000_0000
  }

  lemma {:induction false} EscapedLength(s: string)
    ensures |s| <= |Escaped(s)| <= 2 * |s|
    decreases |s|
  {
    if s != [] {
      EscapedLength(s[1..]);
    }
  }

  /** Of the names whose length its 32-bit type can hold, the room is enough for exactly those below 2^31 characters. */
  lemma RoomForToken(s: string)
    requires |s| < 0x1_0000_0000
    ensures 1 + |Escaped(s)| <= Reserved(|s|) <==> |s| < 0x8000_0000
  {
    hide Escaped;
    EscapedLength(s);
  }

  lemma {:induction false} EscapedToken(name: string)
    ensures NoSlash(Escaped(name)) && Unescaped(Escaped(name)) == name
    decreases |name|
  {
    if name != [] {
      EscapedToken(name[1..]);
      var rest := Escaped(name[1..]);
      var head := if name[0] == '~' then "~0" else if name[0] == '/' then "~1" else [name[0]];
      assert (head + rest)[|head|..] == rest;
      assert name == [name[0]] + name[1..];
    }
  }

  lemma {:induction false} DecimalToken(n: nat)
    ensures NoSlash(Decimal(n))
  {
    if n >= 10 {
      DecimalToken(n / 10);
    }
  }

  /** What is left when the last token and its slash have been popped. */
  function Stripped(path: string): string
    decreases |path|
  {
    if path == [] then []
    else
      var n := |path| - 1;
      if path[n] == '/' then path[..n] else Stripped(path[..n])
  }

  lemma FrontHasNoSlash(token: string)
    requires NoSlash(token) && token != []
    ensures token[|token| - 1] != '/' && NoSlash(token[..|token| - 1])
  {
    var front := token[..|token| - 1];
    assert token[|token| - 1] in token;
    forall c | c in front ensures c != '/' {
      assert c in token;
    }
  }

  lemma {:induction false} StripToken(path: string, token: string)
    requires NoSlash(token)
    ensures Stripped(path + "/" + token) == path
    decreases |token|
  {
    var whole := path + "/" + token;
    var n := |whole| - 1;
    if token == [] {
      assert whole[..n] == path;
    } else {
      FrontHasNoSlash(token);
      assert whole[..n] == path + "/" + token[..|token| - 1];
      StripToken(path, token[..|token| - 1]);
    }
  }

  // ---- Where the values of a document are -------------------------------------------------------

  /** The paths of a value and of all the values in it, in the order in which they begin. */
  function Paths(v: Value, path: string): seq<string>
    decreases v, 1
  {
    [path] + match v
             case ObjectValue(ms) => MemberPaths(ms, path)
             case ArrayValue(es) => ElementPaths(es, 0, path)
             case _ => []
  }

  function MemberPaths(ms: seq<Member>, path: string): seq<string>
    decreases ms, 0
  {
    if ms == [] then [] else Paths(ms[0].value, path + "/" + Escaped(ms[0].name)) + MemberPaths(ms[1..], path)
  }

  function ElementPaths(es: seq<Value>, i: nat, path: string): seq<string>
    decreases es, 0
  {
    if es == [] then [] else Paths(es[0], path + "/" + Decimal(i)) + ElementPaths(es[1..], i + 1, path)
  }

  // ---- The validator ----------------------------------------------------------------------------

  /** What the schemas, the hash comparison and the output handler decide on one event. */
  datatype Verdict = Verdict(begin: bool, event: bool, end: bool, duplicate: bool, output: bool)

  type Schemas = nat -> Verdict

  datatype Context = Context(inArray: bool, arrayElementIndex: nat)

  /** The schema stack, the document stack, whether all is well, and how many events there have been. */
  datatype State = State(contexts: seq<Context>, path: string, valid: bool, clock: nat)

  predicate NeedsContext(e: Event) {
    e.Key? || e.EndObject? || e.EndArray?
  }

  predicate Takes(s: State, e: Event) {
    NeedsContext(e) ==> s.contexts != []
  }

  function Top(s: State): Context
    requires s.contexts != []
  {
    s.contexts[|s.contexts| - 1]
  }

  function WithTop(s: State, c: Context): State
    requires s.contexts != []
  {
    s.(contexts := s.contexts[|s.contexts| - 1 := c])
  }

  function PathOfNext(s: State): string {
    if s.contexts != [] && Top(s).inArray then s.path + "/" + Decimal(Top(s).arrayElementIndex) else s.path
  }

  /** The parent's context once a value has begun. */
  function Counted(s: State): State {
    if s.contexts != [] && Top(s).inArray then
      WithTop(s, Top(s).(arrayElementIndex := Top(s).arrayElementIndex + 1)).(path := PathOfNext(s))
    else s
  }

  function Check(s: State, ok: bool): State {
    s.(valid := s.valid && ok)
  }

  function Begun(goOn: bool, s: State, v: Verdict): State {
    var t := Counted(s);
    if s.contexts != [] && !v.begin && !goOn then t.(valid := false)
    else t.(contexts := t.contexts + [Context(false, 0)])
  }

  function Ended(goOn: bool, s: State, v: Verdict): State
    requires s.contexts != []
  {
    if !v.end && !goOn then s.(valid := false)
    else
      var t := s.(contexts := s.contexts[..|s.contexts| - 1]);
      if t.contexts != [] && v.duplicate && !goOn then t.(valid := false)
      else t.(path := Stripped(t.path))
  }

  function Validated(goOn: bool, s: State, e: Event, v: Verdict): State
    requires Takes(s, e)
  {
    if !s.valid then s
    else
      match e
      case Key(name) => Check(Check(s.(path := s.path + "/" + Escaped(name)), v.event || goOn), v.output)
      case StartObject =>
        var t := Begun(goOn, s, v);
        Check(Check(t, v.event || goOn), v.output)
      case StartArray =>
        var t := Begun(goOn, s, v);
        if !t.valid then t else Check(Check(WithTop(t, Context(true, 0)), v.event || goOn), v.output)
      case EndObject(_) =>
        if !v.event && !goOn then Check(s, false) else Check(Ended(goOn, s, v), v.output)
      case EndArray(_) =>
        var t := WithTop(s, Top(s).(inArray := false));
        if !v.event && !goOn then Check(t, false) else Check(Ended(goOn, t, v), v.output)
      case _ =>
        var t := Begun(goOn, s, v);
        if !t.valid || (!v.event && !goOn) then Check(t, false) else Check(Ended(goOn, t, v), v.output)
  }

  function Ticked(goOn: bool, schemas: Schemas, s: State, e: Event): State
    requires Takes(s, e)
  {
    Validated(goOn, s, e, schemas(s.clock)).(clock := s.clock + 1)
  }

  predicate Begins(e: Event) {
    !NeedsContext(e)
  }

  /** The state after some events, and what the document stack spelled after each value began. */
  datatype Run = Run(state: State, spelled: seq<string>) | Stuck

  function RunFrom(goOn: bool, schemas: Schemas, s: State, events: seq<Event>): Run
    decreases |events|
  {
    if events == [] || !s.valid then Run(s, [])
    else if !Takes(s, events[0]) then Stuck
    else
      match RunFrom(goOn, schemas, Ticked(goOn, schemas, s, events[0]), events[1..])
      case Stuck => Stuck
      case Run(t, spelled) => Run(t, (if Begins(events[0]) then [PathOfNext(s)] else []) + spelled)
  }

  // ---- The path is right ------------------------------------------------------------------------

  /** The state once a value and all its events have gone by. */
  function After(s: State, events: nat): State {
    var t := Counted(s);
    t.(path := Stripped(t.path), clock := s.clock + events)
  }

  /**
   The events of a value, if the run is still valid behind them, have left the state they should, and spelled
   `ps`.
   */
  predicate Leads(goOn: bool, schemas: Schemas, s: State, events: seq<Event>, t: State, ps: seq<string>) {
    var r := RunFrom(goOn, schemas, s, events);
    r.Run? && (r.state.valid ==> r.state == t && r.spelled == ps)
  }

  lemma {:induction false} RunJoin(goOn: bool, schemas: Schemas, s: State, a: seq<Event>, b: seq<Event>)
    ensures var r := RunFrom(goOn, schemas, s, a);
            RunFrom(goOn, schemas, s, a + b) ==
              if r.Stuck? then Stuck
              else
                (var q := RunFrom(goOn, schemas, r.state, b);
                 if q.Stuck? then Stuck else Run(q.state, r.spelled + q.spelled))
    decreases |a|
  {
    hide Takes, Ticked;
    if a == [] {
      assert a + b == b;
    } else if s.valid && Takes(s, a[0]) {
      var t := Ticked(goOn, schemas, s, a[0]);
      RunJoin(goOn, schemas, t, a[1..], b);
      assert (a + b)[1..] == a[1..] + b;
      var first := if Begins(a[0]) then [PathOfNext(s)] else [];
      var r := RunFrom(goOn, schemas, t, a[1..]);
      if r.Run? && RunFrom(goOn, schemas, r.state, b).Run? {
        assert first + (r.spelled + RunFrom(goOn, schemas, r.state, b).spelled) ==
               first + r.spelled + RunFrom(goOn, schemas, r.state, b).spelled;
      }
    }
  }

  lemma LeadsOn(goOn: bool, schemas: Schemas, s: State, a: seq<Event>, t: State, ps: seq<string>,
                b: seq<Event>, u: State, qs: seq<string>)
    requires Leads(goOn, schemas, s, a, t, ps) && Leads(goOn, schemas, t, b, u, qs)
    ensures Leads(goOn, schemas, s, a + b, u, ps + qs)
  {
    hide RunFrom;
    RunJoin(goOn, schemas, s, a, b);
    InvalidStays(goOn, schemas, RunFrom(goOn, schemas, s, a).state, b);
  }

  lemma InvalidStays(goOn: bool, schemas: Schemas, s: State, events: seq<Event>)
    ensures !s.valid ==> RunFrom(goOn, schemas, s, events) == Run(s, [])
  {
  }

  lemma LeadsNowhere(goOn: bool, schemas: Schemas, s: State)
    ensures Leads(goOn, schemas, s, [], s, [])
  {
  }

  lemma LeadsByOne(goOn: bool, schemas: Schemas, s: State, e: Event)
    requires s.valid && Takes(s, e)
    ensures Leads(goOn, schemas, s, [e], Ticked(goOn, schemas, s, e), if Begins(e) then [PathOfNext(s)] else [])
  {
    hide Ticked, Takes;
    assert [e][1..] == [];
    LeadsNowhere(goOn, schemas, Ticked(goOn, schemas, s, e));
  }

  /** The state inside an object or an array that has just begun. */
  function Inside(s: State, c: Context): State {
    var t := Counted(s);
    t.(contexts := t.contexts + [c], clock := s.clock + 1)
  }

  lemma LeadsIn(goOn: bool, schemas: Schemas, s: State, isArray: bool)
    requires s.valid
    ensures Leads(goOn, schemas, s, [if isArray then StartArray else StartObject], Inside(s, Context(isArray, 0)),
                  [PathOfNext(s)])
  {
    var e := if isArray then StartArray else StartObject;
    LeadsByOne(goOn, schemas, s, e);
    var t := Counted(s);
    assert (t.contexts + [Context(false, 0)])[|t.contexts| := Context(true, 0)] == t.contexts + [Context(true, 0)];
  }

  /** Ending a value pops its context and its token. */
  lemma LeadsOut(goOn: bool, schemas: Schemas, s: State, c: Context, n: nat, e: Event)
    requires s.valid && (e.EndObject? || e.EndArray?)
    ensures Leads(goOn, schemas, Inside(s, c).(clock := s.clock + n), [e], After(s, n + 1), [])
  {
    var t := Inside(s, c).(clock := s.clock + n);
    var u := if e.EndArray? then WithTop(t, c.(inArray := false)) else t;
    LeadsByOne(goOn, schemas, t, e);
    EndedInside(goOn, s, t, schemas(t.clock));
    EndedInside(goOn, s, u, schemas(t.clock));
    hide Ended, RunFrom;
  }

  lemma EndedInside(goOn: bool, s: State, t: State, v: Verdict)
    requires t.contexts != [] && t.contexts[..|t.contexts| - 1] == Counted(s).contexts && t.path == PathOfNext(s)
    ensures Ended(goOn, t, v).clock == t.clock
    ensures Ended(goOn, t, v).valid ==>
              Ended(goOn, t, v).contexts == Counted(s).contexts && Ended(goOn, t, v).path == Stripped(Counted(s).path)
  {
  }

  lemma LeadsScalar(goOn: bool, schemas: Schemas, s: State, v: Value)
    requires s.valid && !v.ObjectValue? && !v.ArrayValue?
    ensures |Accept(v)| == 1 && Leads(goOn, schemas, s, Accept(v), After(s, 1), Paths(v, PathOfNext(s)))
  {
    var e := Accept(v)[0];
    LeadsByOne(goOn, schemas, s, e);
    var t := Counted(s);
    assert (t.contexts + [Context(false, 0)])[..|t.contexts|] == t.contexts;
  }

  /**
   Over the events of any value, with any verdicts: as long as the run is valid, the document stack spells the path of
   every value in it when that value begins, and is what it was without the value's own token when it has ended.
   */
  lemma {:induction false} LeadsValue(goOn: bool, schemas: Schemas, s: State, v: Value)
    ensures s.valid ==> Leads(goOn, schemas, s, Accept(v), After(s, |Accept(v)|), Paths(v, PathOfNext(s)))
    ensures !s.valid ==> RunFrom(goOn, schemas, s, Accept(v)) == Run(s, [])
    decreases v, 1
  {
    hide Leads, After, Inside, RunFrom;
    InvalidStays(goOn, schemas, s, Accept(v));
    if s.valid {
      match v
      case ObjectValue(ms) =>
        var n := |AcceptMembers(ms)|;
        var t := Inside(s, Context(false, 0));
        LeadsIn(goOn, schemas, s, false);
        InsideIs(s, Context(false, 0));
        LeadsMembers(goOn, schemas, t, ms);
        LeadsOn(goOn, schemas, s, [StartObject], t, [PathOfNext(s)], AcceptMembers(ms), t.(clock := t.clock + n),
                MemberPaths(ms, t.path));
        LeadsOut(goOn, schemas, s, Context(false, 0), n + 1, EndObject(|ms|));
        LeadsOn(goOn, schemas, s, [StartObject] + AcceptMembers(ms), t.(clock := t.clock + n), Paths(v, PathOfNext(s)),
                [EndObject(|ms|)], After(s, n + 2), []);
        assert Paths(v, PathOfNext(s)) + [] == Paths(v, PathOfNext(s));
      case ArrayValue(es) =>
        var n := |AcceptElements(es)|;
        var t := Inside(s, Context(true, 0));
        LeadsIn(goOn, schemas, s, true);
        InsideIs(s, Context(true, 0));
        LeadsElements(goOn, schemas, t, es);
        var u := Inside(s, Context(true, |es|)).(clock := s.clock + (n + 1));
        InsideIs(s, Context(true, |es|));
        assert WithTop(t, Context(true, |es|)).(clock := t.clock + n) == u;
        LeadsOn(goOn, schemas, s, [StartArray], t, [PathOfNext(s)], AcceptElements(es), u, ElementPaths(es, 0, t.path));
        LeadsOut(goOn, schemas, s, Context(true, |es|), n + 1, EndArray(|es|));
        LeadsOn(goOn, schemas, s, [StartArray] + AcceptElements(es), u, Paths(v, PathOfNext(s)), [EndArray(|es|)],
                After(s, n + 2), []);
        assert Paths(v, PathOfNext(s)) + [] == Paths(v, PathOfNext(s));
      case _ =>
        LeadsScalar(goOn, schemas, s, v);
    }
  }

  lemma InsideIs(s: State, c: Context)
    ensures var t := Inside(s, c);
            && t.valid == s.valid && t.path == PathOfNext(s) && t.clock == s.clock + 1
            && t.contexts != [] && Top(t) == c &&
               t == Counted(s).(contexts := Counted(s).contexts + [c], clock := s.clock + 1)
  {
  }

  /** The members leave the object's own context and path as they were. */
  lemma {:induction false} LeadsMembers(goOn: bool, schemas: Schemas, s: State, ms: seq<Member>)
    requires s.valid && s.contexts != [] && !Top(s).inArray
    ensures Leads(goOn, schemas, s, AcceptMembers(ms), s.(clock := s.clock + |AcceptMembers(ms)|),
                  MemberPaths(ms, s.path))
    decreases ms, 0
  {
    hide Leads, Escaped, Paths, RunFrom;
    if ms == [] {
      LeadsNowhere(goOn, schemas, s);
    } else {
      var m, n := ms[0], |Accept(ms[0].value)|;
      var k := s.(path := s.path + "/" + Escaped(m.name), clock := s.clock + 1);
      var after := s.(clock := s.clock + 1 + n);
      LeadsKey(goOn, schemas, s, m.name);
      LeadsValue(goOn, schemas, k, m.value);
      EscapedToken(m.name);
      StripToken(s.path, Escaped(m.name));
      assert After(k, n) == after;
      LeadsOn(goOn, schemas, s, [Key(m.name)], k, [], Accept(m.value), after, Paths(m.value, k.path));
      LeadsMembers(goOn, schemas, after, ms[1..]);
      LeadsOn(goOn, schemas, s, [Key(m.name)] + Accept(m.value), after, [] + Paths(m.value, k.path),
              AcceptMembers(ms[1..]), after.(clock := after.clock + |AcceptMembers(ms[1..])|),
              MemberPaths(ms[1..], s.path));
      assert [] + Paths(m.value, k.path) == Paths(m.value, k.path);
    }
  }

  lemma LeadsKey(goOn: bool, schemas: Schemas, s: State, name: string)
    requires s.valid && s.contexts != []
    ensures Leads(goOn, schemas, s, [Key(name)], s.(path := s.path + "/" + Escaped(name), clock := s.clock + 1), [])
  {
    LeadsByOne(goOn, schemas, s, Key(name));
  }

  /** The elements count themselves, and leave the array's path as it was. */
  lemma {:induction false} LeadsElements(goOn: bool, schemas: Schemas, s: State, es: seq<Value>)
    requires s.valid && s.contexts != [] && Top(s).inArray
    ensures var i := Top(s).arrayElementIndex;
            Leads(goOn, schemas, s, AcceptElements(es),
                  WithTop(s, Context(true, i + |es|)).(clock := s.clock + |AcceptElements(es)|),
                  ElementPaths(es, i, s.path))
    decreases es, 0
  {
    hide Leads, Decimal, Paths, RunFrom;
    var i := Top(s).arrayElementIndex;
    if es == [] {
      LeadsNowhere(goOn, schemas, s);
      assert WithTop(s, Context(true, i)) == s;
    } else {
      var n := |Accept(es[0])|;
      var after := WithTop(s, Context(true, i + 1)).(clock := s.clock + n);
      LeadsValue(goOn, schemas, s, es[0]);
      DecimalToken(i);
      StripToken(s.path, Decimal(i));
      assert After(s, n) == after;
      LeadsElements(goOn, schemas, after, es[1..]);
      assert WithTop(after, Context(true, i + |es|)).contexts == WithTop(s, Context(true, i + |es|)).contexts;
      LeadsOn(goOn, schemas, s, Accept(es[0]), after, Paths(es[0], s.path + "/" + Decimal(i)),
              AcceptElements(es[1..]),
              WithTop(after, Context(true, i + |es|)).(clock := after.clock + |AcceptElements(es[1..])|),
              ElementPaths(es[1..], i + 1, s.path));
    }
  }

  /** A whole document: every value's path was spelled when it began, and nothing is left in the end. */
  lemma DocumentPaths(goOn: bool, schemas: Schemas, v: Value)
    ensures var r := RunFrom(goOn, schemas, State([], [], true, 0), Accept(v));
            r.Run? && (r.state.valid ==> r.spelled == Paths(v, []) && r.state.path == [] && r.state.contexts == [])
  {
    hide RunFrom, Paths;
    LeadsValue(goOn, schemas, State([], [], true, 0), v);
  }

  // ---- In place ---------------------------------------------------------------------------------

  class Validator {
    const goOn: bool
    var schemaStack: seq<Context>
    var documentStack: string
    var valid: bool

    constructor (continueOnErrors: bool)
      ensures goOn == continueOnErrors && schemaStack == [] && documentStack == [] && valid
    {
      goOn, schemaStack, documentStack, valid := continueOnErrors, [], [], true;
    }

    ghost function Now(clock: nat): State
      reads this
    {
      State(schemaStack, documentStack, valid, clock)
    }

    method AppendToken(str: string)
      modifies `documentStack
      ensures documentStack == old(documentStack) + "/" + Escaped(str)
    {
      documentStack := documentStack + "/";
      ghost var base := documentStack;
      var i := 0;
      while i < |str|
        invariant 0 <= i <= |str|
        invariant documentStack + Escaped(str[i..]) == base + Escaped(str)
      {
        assert str[i..][1..] == str[i + 1..];
        ghost var before, rest := documentStack, Escaped(str[i + 1..]);
        if str[i] == '~' {
          documentStack := documentStack + "~0";
        } else if str[i] == '/' {
          documentStack := documentStack + "~1";
        } else {
          documentStack := documentStack + [str[i]];
        }
        assert documentStack + rest == before + Escaped(str[i..]);
        i := i + 1;
      }
    }

    method AppendIndexToken(index: nat)
      modifies `documentStack
      ensures documentStack == old(documentStack) + "/" + Decimal(index)
    {
      documentStack := documentStack + "/" + Decimal(index);
    }

    /** The loop that removes the last token. */
    method RemoveToken()
      modifies `documentStack
      ensures documentStack == Stripped(old(documentStack))
    {
      while documentStack != []
        invariant Stripped(documentStack) == Stripped(old(documentStack))
        decreases |documentStack|
      {
        var c := documentStack[|documentStack| - 1];
        documentStack := documentStack[..|documentStack| - 1];
        if c == '/' {
          return;
        }
      }
    }

    method BeginValue(v: Verdict, ghost clock: nat) returns (ok: bool)
      requires valid
      modifies `schemaStack, `documentStack
      ensures ok == (old(schemaStack) == [] || v.begin || goOn)
      ensures Begun(goOn, old(Now(clock)), v) == Now(clock).(valid := ok)
    {
      hide Decimal;
      if schemaStack != [] {
        var context := schemaStack[|schemaStack| - 1];
        if context.inArray {
          AppendIndexToken(context.arrayElementIndex);
          schemaStack := schemaStack[|schemaStack| - 1 := context.(arrayElementIndex := context.arrayElementIndex + 1)];
        }
        if !v.begin && !goOn {
          return false;
        }
      }
      schemaStack := schemaStack + [Context(false, 0)];
      ok := true;
    }

    method EndValue(v: Verdict, ghost clock: nat) returns (ok: bool)
      requires valid && schemaStack != []
      modifies `schemaStack, `documentStack
      ensures Ended(goOn, old(Now(clock)), v) == Now(clock).(valid := ok || goOn)
    {
      hide Stripped;
      if !v.end && !goOn {
        return false;
      }
      schemaStack := schemaStack[..|schemaStack| - 1];
      if schemaStack != [] && v.duplicate {
        if goOn {
          RemoveToken();
        }
        return false;
      }
      RemoveToken();
      ok := true;
    }

    method Handle(e: Event, v: Verdict, ghost clock: nat)
      requires NeedsContext(e) ==> schemaStack != []
      modifies this
      ensures Now(clock) == Validated(goOn, old(Now(clock)), e, v)
    {
      hide Escaped, Begun, Ended, Stripped;
      if !valid {
        return;
      }
      if e.Key? {
        AppendToken(e.s);
        valid := (v.event || goOn) && v.output;
        return;
      }
      if Begins(e) {
        var begun := BeginValue(v, clock);
        if !begun && !goOn {
          valid := false;
          return;
        }
        if e.StartArray? {
          BegunNotEmpty(goOn, old(Now(clock)), v);
          schemaStack := schemaStack[|schemaStack| - 1 := Context(true, 0)];
        }
        if !v.event && !goOn {
          valid := false;
          return;
        }
        if e.StartObject? || e.StartArray? {
          valid := v.output;
          return;
        }
        BegunNotEmpty(goOn, old(Now(clock)), v);
      } else {
        if e.EndArray? {
          schemaStack := schemaStack[|schemaStack| - 1 := schemaStack[|schemaStack| - 1].(inArray := false)];
        }
        if !v.event && !goOn {
          valid := false;
          return;
        }
      }
      var ended := EndValue(v, clock);
      valid := (ended || goOn) && v.output;
    }
  }

  /** A validator at the beginning of a document, over the events of the whole document. */
  method Validate(validator: Validator, schemas: Schemas, v: Value) returns (ghost spelled: seq<string>)
    requires validator.schemaStack == [] && validator.documentStack == [] && validator.valid
    modifies validator
    ensures validator.valid ==> spelled == Paths(v, []) && validator.documentStack == [] && validator.schemaStack == []
  {
    hide RunFrom, Paths, Validated;
    var events := Accept(v);
    var goOn := validator.goOn;
    DocumentPaths(goOn, schemas, v);
    ghost var whole := RunFrom(goOn, schemas, State([], [], true, 0), events);
    spelled := [];
    var k := 0;
    while k < |events| && validator.valid
      invariant 0 <= k <= |events|
      invariant var r := RunFrom(goOn, schemas, validator.Now(k), events[k..]);
                r.Run? && whole == Run(r.state, spelled + r.spelled)
    {
      RunStep(goOn, schemas, validator.Now(k), events[k..], spelled);
      assert events[k..][1..] == events[k + 1..];
      spelled := spelled + if Begins(events[k]) then [PathOfNext(validator.Now(k))] else [];
      validator.Handle(events[k], schemas(k), k);
      k := k + 1;
    }
    RunOver(goOn, schemas, validator.Now(k), events[k..], spelled);
  }

  lemma RunStep(goOn: bool, schemas: Schemas, s: State, events: seq<Event>, spelled: seq<string>)
    requires events != [] && s.valid && RunFrom(goOn, schemas, s, events).Run?
    ensures Takes(s, events[0]) && RunFrom(goOn, schemas, Ticked(goOn, schemas, s, events[0]), events[1..]).Run?
    ensures var r := RunFrom(goOn, schemas, s, events);
            var q := RunFrom(goOn, schemas, Ticked(goOn, schemas, s, events[0]), events[1..]);
            && r.state == q.state
            && spelled + r.spelled == spelled + (if Begins(events[0]) then [PathOfNext(s)] else []) + q.spelled
  {
    hide Ticked, Takes, Begins, PathOfNext;
  }

  lemma RunOver(goOn: bool, schemas: Schemas, s: State, events: seq<Event>, spelled: seq<string>)
    requires events == [] || !s.valid
    ensures RunFrom(goOn, schemas, s, events) == Run(s, []) && spelled + [] == spelled
  {
  }

  lemma BegunNotEmpty(goOn: bool, s: State, v: Verdict)
    requires s.valid && Begun(goOn, s, v).valid
    ensures Begun(goOn, s, v).contexts != []
  {
  }
}
