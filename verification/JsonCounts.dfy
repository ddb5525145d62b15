/**
 What a parse leaves on the document's stack. The parsers count members and elements in 32 bits, so an
 array or object of 2^32 entries or more reports too few of them, and the rest is left behind.
 */
module JsonCounts {
  import opened JsonTypes
  import opened JsonRecursive
  import JsonIterative
  import opened JsonEquivalence
  import opened JsonDocument

  const SIZE_LIMIT: nat := 0x1_0000_0000

  /** What a 32-bit count shows of `n`. */
  function Shown(n: nat): (count: nat)
    ensures count <= n
  {
    n % SIZE_LIMIT
  }

  // ---- Events with 32-bit counts ----------------------------------------------------------------

  /** The events of a value with every count taken modulo 2^32. */
  function Reported(v: Value): seq<Event> {
    match v
    case ObjectValue(ms) => [StartObject] + ReportedMembers(ms) + [EndObject(Shown(|ms|))]
    case ArrayValue(es) => [StartArray] + ReportedElements(es) + [EndArray(Shown(|es|))]
    case _ => Accept(v)
  }

  function ReportedMembers(ms: seq<Member>): seq<Event> {
    if ms == [] then [] else [Key(ms[0].name)] + Reported(ms[0].value) + ReportedMembers(ms[1..])
  }

  function ReportedElements(es: seq<Value>): seq<Event> {
    if es == [] then [] else Reported(es[0]) + ReportedElements(es[1..])
  }

  /** The stack entries too many: n - n mod 2^32 for each array, twice that for each object. */
  function Surplus(v: Value): nat {
    match v
    case ObjectValue(ms) => 2 * (|ms| - Shown(|ms|)) + MembersSurplus(ms)
    case ArrayValue(es) => |es| - Shown(|es|) + ElementsSurplus(es)
    case _ => 0
  }

  function MembersSurplus(ms: seq<Member>): nat {
    if ms == [] then 0 else Surplus(ms[0].value) + MembersSurplus(ms[1..])
  }

  function ElementsSurplus(es: seq<Value>): nat {
    if es == [] then 0 else Surplus(es[0]) + ElementsSurplus(es[1..])
  }

  /** Every array and object, at any depth, has fewer than 2^32 entries. */
  predicate CountsFit(v: Value) {
    match v
    case ObjectValue(ms) => |ms| < SIZE_LIMIT && MembersFit(ms)
    case ArrayValue(es) => |es| < SIZE_LIMIT && ElementsFit(es)
    case _ => true
  }

  predicate MembersFit(ms: seq<Member>) {
    ms == [] || (CountsFit(ms[0].value) && MembersFit(ms[1..]))
  }

  predicate ElementsFit(es: seq<Value>) {
    es == [] || (CountsFit(es[0]) && ElementsFit(es[1..]))
  }

  // ---- What is left on the stack ----------------------------------------------------------------

  /** What the events of a value leave: the entries its end event does not pop stay below it. */
  function Remains(v: Value): (left: Stack)
    ensures |left| == 1 + Surplus(v)
  {
    match v
    case ObjectValue(ms) => Handled([ObjectValue([])] + MembersRemain(ms), EndObject(Shown(|ms|)))
    case ArrayValue(es) => Handled([ArrayValue([])] + ElementsRemain(es), EndArray(Shown(|es|)))
    case _ => [v]
  }

  function MembersRemain(ms: seq<Member>): (left: Stack)
    ensures |left| == 2 * |ms| + MembersSurplus(ms)
  {
    if ms == [] then [] else [StringValue(ms[0].name)] + Remains(ms[0].value) + MembersRemain(ms[1..])
  }

  function ElementsRemain(es: seq<Value>): (left: Stack)
    ensures |left| == |es| + ElementsSurplus(es)
  {
    if es == [] then [] else Remains(es[0]) + ElementsRemain(es[1..])
  }

  /** An end event that pops no further than `top` changes nothing below it. */
  lemma HandledAbove(stack: Stack, top: Stack, e: Event)
    requires e.EndObject? || e.EndArray?
    requires Fits(top, e)
    ensures Fits(stack + top, e) && Handled(stack + top, e) == stack + Handled(top, e)
  {
    var n := if e.EndObject? then 2 * e.memberCount else e.elementCount;
    var base := |top| - n - 1;
    assert (stack + top)[|stack| + base + 1..] == top[base + 1..];
    assert (stack + top)[..|stack| + base] == stack + top[..base];
  }

  /** The handlers leave just that, whatever is below on the stack and follows in the events. */
  lemma {:induction false} ReplayReported(stack: Stack, v: Value, rest: seq<Event>)
    ensures Replayed(stack, Reported(v) + rest) == Replayed(stack + Remains(v), rest)
    decreases v, 1
  {
    hide Replayed, Handled, MembersRemain, ElementsRemain, ReportedMembers, ReportedElements, Shown, Surplus;
    match v
    case ObjectValue(ms) =>
      var close := EndObject(Shown(|ms|));
      ReplayMembersReported(stack + [ObjectValue([])], ms, [close] + rest);
      ReplayBrackets(stack, ObjectValue([]), ReportedMembers(ms), MembersRemain(ms), close, rest);
    case ArrayValue(es) =>
      var close := EndArray(Shown(|es|));
      ReplayElementsReported(stack + [ArrayValue([])], es, [close] + rest);
      ReplayBrackets(stack, ArrayValue([]), ReportedElements(es), ElementsRemain(es), close, rest);
    case _ =>
      ReplayAccept(stack, v, rest);
  }

  /** From an opening event to its closing one, given what the events between leave. */
  lemma ReplayBrackets(stack: Stack, empty: Value, inner: seq<Event>, left: Stack, close: Event, rest: seq<Event>)
    requires (empty == ObjectValue([]) && close.EndObject?) || (empty == ArrayValue([]) && close.EndArray?)
    requires Fits([empty] + left, close)
    requires Replayed(stack + [empty], inner + ([close] + rest)) == Replayed(stack + [empty] + left, [close] + rest)
    ensures var open := if empty.ObjectValue? then StartObject else StartArray;
            Replayed(stack, [open] + inner + [close] + rest) == Replayed(stack + Handled([empty] + left, close), rest)
  {
    hide Replayed, Fits;
    var open := if empty.ObjectValue? then StartObject else StartArray;
    Regroup([open], inner, [close], rest);
    ReplayFirst(stack, open, inner + ([close] + rest));
    assert stack + [empty] + left == stack + ([empty] + left);
    ReplayEnd(stack, [empty] + left, close, rest);
  }

  lemma ReplayEnd(stack: Stack, top: Stack, e: Event, rest: seq<Event>)
    requires (e.EndObject? || e.EndArray?) && Fits(top, e)
    ensures Replayed(stack + top, [e] + rest) == Replayed(stack + Handled(top, e), rest)
  {
    hide Handled, Fits;
    HandledAbove(stack, top, e);
    ReplayFirst(stack + top, e, rest);
  }

  lemma {:induction false} ReplayMembersReported(stack: Stack, ms: seq<Member>, rest: seq<Event>)
    ensures Replayed(stack, ReportedMembers(ms) + rest) == Replayed(stack + MembersRemain(ms), rest)
    decreases ms, 0
  {
    hide Remains, Reported, Replayed, Surplus, MembersSurplus;
    if ms == [] {
      assert ReportedMembers(ms) + rest == rest && stack + MembersRemain(ms) == stack;
    } else {
      var name, v := StringValue(ms[0].name), ms[0].value;
      var after := ReportedMembers(ms[1..]) + rest;
      Regroup([Key(ms[0].name)], Reported(v), ReportedMembers(ms[1..]), rest);
      ReplayFirst(stack, Key(ms[0].name), Reported(v) + after);
      ReplayReported(stack + [name], v, after);
      ReplayMembersReported(stack + [name] + Remains(v), ms[1..], rest);
      Regroup(stack, [name], Remains(v), MembersRemain(ms[1..]));
      assert [name] + Remains(v) + MembersRemain(ms[1..]) == [name] + (Remains(v) + MembersRemain(ms[1..]));
    }
  }

  lemma {:induction false} ReplayElementsReported(stack: Stack, es: seq<Value>, rest: seq<Event>)
    ensures Replayed(stack, ReportedElements(es) + rest) == Replayed(stack + ElementsRemain(es), rest)
    decreases es, 0
  {
    hide Remains, Reported, Replayed, Surplus, ElementsSurplus;
    if es == [] {
      assert ReportedElements(es) + rest == rest && stack + ElementsRemain(es) == stack;
    } else {
      var after := ReportedElements(es[1..]) + rest;
      assert ReportedElements(es) + rest == Reported(es[0]) + after;
      ReplayReported(stack, es[0], after);
      ReplayElementsReported(stack + Remains(es[0]), es[1..], rest);
      assert stack + Remains(es[0]) + ElementsRemain(es[1..]) == stack + ElementsRemain(es);
    }
  }

  // ---- When nothing is left behind --------------------------------------------------------------

  /** Nothing is left behind exactly when all counts fit; then the value itself is left. */
  lemma {:induction false} FitLeavesOne(v: Value)
    ensures Surplus(v) == 0 <==> CountsFit(v)
    ensures CountsFit(v) ==> Remains(v) == [v] && Reported(v) == Accept(v)
    decreases v, 1
  {
    hide MembersRemain, ElementsRemain, ReportedMembers, ReportedElements, MembersSurplus, ElementsSurplus;
    hide MembersFit, ElementsFit, AcceptMembers, AcceptElements, FromMembers, ToMembers, Handled;
    match v
    case ObjectValue(ms) =>
      MembersFitLeave(ms);
      ObjectRebuilt(ms);
    case ArrayValue(es) =>
      ElementsFitLeave(es);
      ArrayRebuilt(es);
    case _ =>
  }

  lemma ObjectRebuilt(ms: seq<Member>)
    ensures Fits([ObjectValue([])] + FromMembers(ms), EndObject(|ms|))
    ensures Handled([ObjectValue([])] + FromMembers(ms), EndObject(|ms|)) == [ObjectValue(ms)]
  {
    MembersRoundTrip(ms);
    assert ([ObjectValue([])] + FromMembers(ms))[1..] == FromMembers(ms);
  }

  lemma ArrayRebuilt(es: seq<Value>)
    ensures Fits([ArrayValue([])] + es, EndArray(|es|))
    ensures Handled([ArrayValue([])] + es, EndArray(|es|)) == [ArrayValue(es)]
  {
    assert ([ArrayValue([])] + es)[1..] == es;
  }

  lemma {:induction false} MembersFitLeave(ms: seq<Member>)
    ensures MembersSurplus(ms) == 0 <==> MembersFit(ms)
    ensures MembersFit(ms) ==> MembersRemain(ms) == FromMembers(ms) && ReportedMembers(ms) == AcceptMembers(ms)
    decreases ms, 0
  {
    hide Remains, Surplus, CountsFit, Reported, Accept;
    if ms != [] {
      FitLeavesOne(ms[0].value);
      MembersFitLeave(ms[1..]);
    }
  }

  lemma {:induction false} ElementsFitLeave(es: seq<Value>)
    ensures ElementsSurplus(es) == 0 <==> ElementsFit(es)
    ensures ElementsFit(es) ==> ElementsRemain(es) == es && ReportedElements(es) == AcceptElements(es)
    decreases es, 0
  {
    hide Remains, Surplus, CountsFit, Reported, Accept;
    if es != [] {
      FitLeavesOne(es[0]);
      ElementsFitLeave(es[1..]);
    }
  }

  // ---- Parsing ----------------------------------------------------------------------------------

  lemma ScalarTree(cfg: Config, t: Text, pos: nat, events: seq<Event>) returns (v: Value)
    requires GoodLexers(cfg) && pos <= |t| && ParseScalar(cfg, t, pos, events).Ok?
    ensures ParseScalar(cfg, t, pos, events).events == events + Reported(v) && CountsFit(v)
  {
    hide GoodLexers, Matched;
    var r := ParseScalar(cfg, t, pos, events);
    var e := r.events[|r.events| - 1];
    v := match e
         case Bool(b) => BoolValue(b)
         case Num(n) => NumberValue(n)
         case String(s) => StringValue(s)
         case _ => NullValue;
  }

  lemma ShownNext(count: nat, n: nat)
    ensures Shown(Increment(count) + n) == Shown(count + (1 + n)) && Increment(count) < SIZE_LIMIT
  {
  }

  /** Whatever ParseValue accepts, it reports the events of some value, as 32-bit counts show them. */
  lemma {:induction false} ValueTree(cfg: Config, t: Text, pos: nat, events: seq<Event>) returns (v: Value)
    requires GoodLexers(cfg) && pos <= |t| && ParseValue(cfg, t, pos, events).Ok?
    ensures ParseValue(cfg, t, pos, events).events == events + Reported(v)
    ensures |t| < SIZE_LIMIT ==> CountsFit(v)
    decreases |t| - pos, 3
  {
    hide GoodLexers, ParseScalar, Skip, Members, Elements;
    if Peek(t, pos) == '{' {
      var s := Skip(cfg, t, pos + 1, events + [StartObject]);
      if Peek(t, s.pos) == '}' {
        v := ObjectValue([]);
        assert events + [StartObject] + [EndObject(0)] == events + Reported(v);
      } else {
        var ms := MembersTree(cfg, t, s.pos, s.events, 0);
        v := ObjectValue(ms);
        assert events + [StartObject] + ReportedMembers(ms) + [EndObject(Shown(|ms|))] == events + Reported(v);
      }
    } else if Peek(t, pos) == '[' {
      var s := Skip(cfg, t, pos + 1, events + [StartArray]);
      if Peek(t, s.pos) == ']' {
        v := ArrayValue([]);
        assert events + [StartArray] + [EndArray(0)] == events + Reported(v);
      } else {
        var es := ElementsTree(cfg, t, s.pos, s.events, 0);
        v := ArrayValue(es);
        assert events + [StartArray] + ReportedElements(es) + [EndArray(Shown(|es|))] == events + Reported(v);
      }
    } else {
      v := ScalarTree(cfg, t, pos, events);
    }
  }

  lemma {:induction false} MembersTree(cfg: Config, t: Text, pos: nat, events: seq<Event>, count: nat)
    returns (ms: seq<Member>)
    requires GoodLexers(cfg) && pos <= |t| && count < SIZE_LIMIT
    requires Members(cfg, t, pos, events, count).Ok?
    ensures |ms| <= |t| - pos && (|t| < SIZE_LIMIT ==> MembersFit(ms))
    ensures Members(cfg, t, pos, events, count).events ==
            events + ReportedMembers(ms) + [EndObject(Shown(count + |ms|))]
    decreases |t| - pos, 1
  {
    hide GoodLexers, ParseValue, AfterMember, CountsFit, Shown, Increment, Reported, ReportedMembers, MembersFit;
    var k := ParseText(cfg, t, pos, events, true);
    var s1 := Skip(cfg, t, k.pos, k.events);
    var s2 := Skip(cfg, t, s1.pos + 1, s1.events);
    var r := ParseValue(cfg, t, s2.pos, s2.events);
    var s3 := Skip(cfg, t, r.pos, r.events);
    var v := ValueTree(cfg, t, s2.pos, s2.events);
    var name := cfg.parseString(t, pos).value;
    ShownNext(count, 0);
    var rest := AfterMemberTree(cfg, t, s3.pos, s3.events, Increment(count));
    ShownNext(count, |rest|);
    ms := [Member(name, v)] + rest;
    MembersFirst(name, v, rest, events);
  }

  lemma MembersFirst(name: string, v: Value, rest: seq<Member>, events: seq<Event>)
    ensures var ms := [Member(name, v)] + rest;
            && events + [Key(name)] + Reported(v) + ReportedMembers(rest) == events + ReportedMembers(ms)
            && (MembersFit(ms) <==> CountsFit(v) && MembersFit(rest))
  {
    hide Reported, CountsFit;
    assert ([Member(name, v)] + rest)[1..] == rest;
  }

  lemma {:induction false} AfterMemberTree(cfg: Config, t: Text, pos: nat, events: seq<Event>, count: nat)
    returns (ms: seq<Member>)
    requires GoodLexers(cfg) && pos <= |t| && count < SIZE_LIMIT
    requires AfterMember(cfg, t, pos, events, count).Ok?
    ensures |ms| <= |t| - pos && (|t| < SIZE_LIMIT ==> MembersFit(ms))
    ensures AfterMember(cfg, t, pos, events, count).events ==
            events + ReportedMembers(ms) + [EndObject(Shown(count + |ms|))]
    decreases |t| - pos, 0
  {
    hide GoodLexers, Members;
    ms := [];
    assert events + [] == events;
    if Peek(t, pos) == ',' {
      var s := Skip(cfg, t, pos + 1, events);
      if !(cfg.trailingCommas && Peek(t, s.pos) == '}') {
        ms := MembersTree(cfg, t, s.pos, s.events, count);
      }
    }
  }

  lemma {:induction false} ElementsTree(cfg: Config, t: Text, pos: nat, events: seq<Event>, count: nat)
    returns (es: seq<Value>)
    requires GoodLexers(cfg) && pos <= |t| && count < SIZE_LIMIT
    requires Elements(cfg, t, pos, events, count).Ok?
    ensures |es| <= |t| - pos && (|t| < SIZE_LIMIT ==> ElementsFit(es))
    ensures Elements(cfg, t, pos, events, count).events ==
            events + ReportedElements(es) + [EndArray(Shown(count + |es|))]
    decreases |t| - pos, 4
  {
    hide GoodLexers, ParseValue, AfterElement, CountsFit, Shown;
    var r := ParseValue(cfg, t, pos, events);
    var s := Skip(cfg, t, r.pos, r.events);
    var v := ValueTree(cfg, t, pos, events);
    ShownNext(count, 0);
    var rest := AfterElementTree(cfg, t, s.pos, s.events, Increment(count));
    ShownNext(count, |rest|);
    es := [v] + rest;
    assert events + Reported(v) + ReportedElements(rest) == events + ReportedElements(es);
  }

  lemma {:induction false} AfterElementTree(cfg: Config, t: Text, pos: nat, events: seq<Event>, count: nat)
    returns (es: seq<Value>)
    requires GoodLexers(cfg) && pos <= |t| && count < SIZE_LIMIT
    requires AfterElement(cfg, t, pos, events, count).Ok?
    ensures |es| <= |t| - pos && (|t| < SIZE_LIMIT ==> ElementsFit(es))
    ensures AfterElement(cfg, t, pos, events, count).events ==
            events + ReportedElements(es) + [EndArray(Shown(count + |es|))]
    decreases |t| - pos, 0
  {
    hide GoodLexers, Elements;
    es := [];
    assert events + [] == events;
    if Peek(t, pos) == ',' {
      var s := Skip(cfg, t, pos + 1, events);
      if !(cfg.trailingCommas && Peek(t, s.pos) == ']') {
        es := ElementsTree(cfg, t, s.pos, s.events, count);
      }
    }
  }

  /**
   A successful parse of any text, by either parser, reports the events of some value as 32-bit counts
   show them, and they leave `1 + Surplus(v)` values on the document's stack: one, which is that value and
   generates the events of the parse, exactly when every array and object in it has fewer than 2^32
   entries. In a text below 4 GiB they all have.
   */
  lemma ParseLeavesOneValue(cfg: Config, t: Text, iterative: bool) returns (v: Value)
    requires GoodLexers(cfg)
    requires (if iterative then JsonIterative.IterativeParse(cfg, t) else ParseDocument(cfg, t)).Ok?
    ensures var r := if iterative then JsonIterative.IterativeParse(cfg, t) else ParseDocument(cfg, t);
            && r.events == Reported(v) && Replayed([], r.events) == Stacked(Remains(v))
            && |Remains(v)| == 1 + Surplus(v)
            && (|Remains(v)| == 1 <==> CountsFit(v))
            && (CountsFit(v) ==> Remains(v) == [v] && Accept(v) == r.events)
    ensures |t| < SIZE_LIMIT ==> CountsFit(v)
  {
    hide GoodLexers, JsonIterative.IterativeParse, ParseValue, OffsetsAgree, StrayFirst, Remains, Reported, Surplus,
      CountsFit;
    ParsersAgree(cfg, t);
    var r := ParseDocument(cfg, t);
    var s := Skip(cfg, t, 0, []);
    v := ValueTree(cfg, t, s.pos, s.events);
    assert r.events == [] + Reported(v) == Reported(v) + [];
    ReplayReported([], v, []);
    assert [] + Remains(v) == Remains(v);
    FitLeavesOne(v);
  }

  // ---- A text that leaves more ------------------------------------------------------------------

  /** The rest of an array of empty arrays, with `n` of them to come. */
  function ManyArrays(n: nat): Text
    requires n > 0
  {
    if n == 1 then "[]]" else "[]," + ManyArrays(n - 1)
  }

  function EmptyArrays(n: nat): seq<Value> {
    if n == 0 then [] else [ArrayValue([])] + EmptyArrays(n - 1)
  }

  /** One empty array and what follows it, in the loop over elements. */
  lemma EmptyArrayThen(cfg: Config, t: Text, pos: nat, events: seq<Event>, count: nat)
    requires GoodLexers(cfg) && (forall e {:trigger cfg.accepts(e)} :: cfg.accepts(e))
    requires pos + 2 < |t| && t[pos] == '[' && t[pos + 1] == ']' && !IsSpace(t[pos + 2]) && t[pos + 2] != '/'
    ensures Elements(cfg, t, pos, events, count) ==
              AfterElement(cfg, t, pos + 2, events + Reported(ArrayValue([])), Increment(count))
  {
    hide GoodLexers, ParseValue, Skip, Reported, AfterElement, IsSpace;
    EmptyArrayParsed(cfg, t, pos, events);
    EmptyArrayReported(events);
    SkipNothing(cfg, t, pos + 2, events + Reported(ArrayValue([])));
  }

  lemma EmptyArrayReported(events: seq<Event>)
    ensures events + [StartArray] + [EndArray(0)] == events + Reported(ArrayValue([]))
  {
  }

  /** What comes after an empty array in the text: the end, or a comma and the next one. */
  lemma AfterEmptyArray(cfg: Config, t: Text, pos: nat, events: seq<Event>, count: nat)
    requires GoodLexers(cfg) && (forall e {:trigger cfg.accepts(e)} :: cfg.accepts(e)) && pos < |t|
    ensures t[pos] == ']' ==> AfterElement(cfg, t, pos, events, count) == Ok(pos + 1, events + [EndArray(count)])
    ensures t[pos] == ',' && pos + 1 < |t| && t[pos + 1] == '[' ==>
              AfterElement(cfg, t, pos, events, count) == Elements(cfg, t, pos + 1, events, count)
  {
    hide GoodLexers, Elements, Skip;
    if t[pos] == ',' && pos + 1 < |t| && t[pos + 1] == '[' {
      SkipNothing(cfg, t, pos + 1, events);
    }
  }

  /** The text of `n` empty arrays at a position. */
  lemma ManyArraysAt(t: Text, pos: nat, n: nat)
    requires n > 0 && pos <= |t| && t[pos..] == ManyArrays(n)
    ensures pos + 2 < |t| && t[pos] == '[' && t[pos + 1] == ']'
    ensures n == 1 ==> pos + 3 == |t| && t[pos + 2] == ']'
    ensures n > 1 ==> t[pos + 2] == ',' && pos + 3 < |t| && t[pos + 3] == '[' && t[pos + 3..] == ManyArrays(n - 1)
  {
    var s := t[pos..];
    assert t[pos] == s[0] && t[pos + 1] == s[1] && t[pos + 2] == s[2];
    if n > 1 {
      assert s[3..] == ManyArrays(n - 1) && t[pos + 3] == s[3] && t[pos + 3..] == s[3..];
    }
  }

  lemma {:induction false} ManyArraysParsed(cfg: Config, t: Text, pos: nat, events: seq<Event>, count: nat, n: nat)
    requires GoodLexers(cfg) && (forall e {:trigger cfg.accepts(e)} :: cfg.accepts(e))
    requires n > 0 && pos <= |t| && t[pos..] == ManyArrays(n) && count < SIZE_LIMIT
    ensures Elements(cfg, t, pos, events, count) ==
              Ok(|t|, events + ReportedElements(EmptyArrays(n)) + [EndArray(Shown(count + n))])
    decreases n
  {
    hide GoodLexers, Elements, AfterElement, Shown, Reported, ManyArrays;
    ManyArraysAt(t, pos, n);
    EmptyArrayThen(cfg, t, pos, events, count);
    var e1 := events + Reported(ArrayValue([]));
    AfterEmptyArray(cfg, t, pos + 2, e1, Increment(count));
    ShownNext(count, n - 1);
    EmptyArraysReported(n);
    if n == 1 {
      ShownSmall(Increment(count));
    } else {
      ManyArraysParsed(cfg, t, pos + 3, e1, Increment(count), n - 1);
      assert e1 + ReportedElements(EmptyArrays(n - 1)) == events + ReportedElements(EmptyArrays(n));
    }
  }

  lemma EmptyArraysReported(n: nat)
    requires n > 0
    ensures ReportedElements(EmptyArrays(n)) == Reported(ArrayValue([])) + ReportedElements(EmptyArrays(n - 1))
    ensures n == 1 ==> ReportedElements(EmptyArrays(n)) == Reported(ArrayValue([]))
  {
    hide Reported;
    assert EmptyArrays(n)[1..] == EmptyArrays(n - 1);
  }

  lemma ShownSmall(n: nat)
    requires n < SIZE_LIMIT
    ensures Shown(n) == n
  {
  }

  lemma {:induction false} EmptyArraysCount(n: nat)
    ensures |EmptyArrays(n)| == n && ElementsFit(EmptyArrays(n))
    decreases n
  {
    if n > 0 {
      EmptyArraysCount(n - 1);
      assert EmptyArrays(n)[1..] == EmptyArrays(n - 1);
    }
  }

  /** An array of 2^32 empty arrays: its end event reports none, and 2^32 + 1 values are left. */
  lemma TooManyElements(cfg: Config, iterative: bool)
    requires GoodLexers(cfg) && (forall e {:trigger cfg.accepts(e)} :: cfg.accepts(e))
    ensures var t := "[" + ManyArrays(SIZE_LIMIT);
            var r := if iterative then JsonIterative.IterativeParse(cfg, t) else ParseDocument(cfg, t);
            && r.Ok? && r.events == [StartArray] + ReportedElements(EmptyArrays(SIZE_LIMIT)) + [EndArray(0)]
            && Replayed([], r.events).Stacked? && |Replayed([], r.events).stack| == SIZE_LIMIT + 1
  {
    hide GoodLexers, JsonIterative.IterativeParse, ParseDocument, Reported, Remains, OffsetsAgree, ManyArrays,
      EmptyArrays;
    var n := SIZE_LIMIT;
    var es := EmptyArrays(n);
    ManyArraysDocument(cfg, n);
    ParsersAgree(cfg, "[" + ManyArrays(n));
    EmptyArraysCount(n);
    ElementsFitLeave(es);
    ArrayReported(es);
    ReplayReported([], ArrayValue(es), []);
    assert Reported(ArrayValue(es)) + [] == Reported(ArrayValue(es));
    assert [] + Remains(ArrayValue(es)) == Remains(ArrayValue(es));
  }

  lemma ManyArraysDocument(cfg: Config, n: nat)
    requires GoodLexers(cfg) && (forall e {:trigger cfg.accepts(e)} :: cfg.accepts(e)) && n > 0
    ensures var t := "[" + ManyArrays(n);
            ParseDocument(cfg, t) == Ok(|t|, Reported(ArrayValue(EmptyArrays(n))))
  {
    hide GoodLexers, Elements, Skip, Epilogue, ManyArrays, EmptyArrays, Reported, Shown;
    var t := "[" + ManyArrays(n);
    ManyArraysBegin(n);
    assert t[1..] == ManyArrays(n);
    SkipNothing(cfg, t, 0, []);
    SkipNothing(cfg, t, 1, [StartArray]);
    assert [] + [StartArray] == [StartArray];
    ManyArraysParsed(cfg, t, 1, [StartArray], 0, n);
    EmptyArraysCount(n);
    ArrayReported(EmptyArrays(n));
    assert ParseValue(cfg, t, 0, []) == Ok(|t|, Reported(ArrayValue(EmptyArrays(n))));
    EndOfText(cfg, t, Reported(ArrayValue(EmptyArrays(n))));
  }

  lemma ManyArraysBegin(n: nat)
    requires n > 0
    ensures |ManyArrays(n)| > 0 && ManyArrays(n)[0] == '['
  {
  }

  lemma ArrayReported(es: seq<Value>)
    ensures Reported(ArrayValue(es)) == [StartArray] + ReportedElements(es) + [EndArray(Shown(|es|))]
  {
  }

  lemma EndOfText(cfg: Config, t: Text, events: seq<Event>)
    ensures Epilogue(cfg, t, |t|, events) == Ok(|t|, events)
  {
  }
}
