/**
 The DOM: values, the events a value generates, and the document handler that rebuilds values from events
 on a stack of its own.
 */
module JsonDocument {
  import opened JsonTypes

  datatype Value =
    | NullValue
    | BoolValue(b: bool)
    | NumberValue(number: Number)
    | StringValue(s: string)
    | ObjectValue(members: seq<Member>)
    | ArrayValue(elements: seq<Value>)

  datatype Member = Member(name: string, value: Value)

  // ---- Accept -----------------------------------------------------------------------------------

  /** The events Accept sends for a value. */
  function Accept(v: Value): seq<Event> {
    match v
    case NullValue => [Null]
    case BoolValue(b) => [Bool(b)]
    case NumberValue(n) => [Num(n)]
    case StringValue(s) => [String(s)]
    case ObjectValue(ms) => [StartObject] + AcceptMembers(ms) + [EndObject(|ms|)]
    case ArrayValue(es) => [StartArray] + AcceptElements(es) + [EndArray(|es|)]
  }

  function AcceptMembers(ms: seq<Member>): seq<Event> {
    if ms == [] then [] else [Key(ms[0].name)] + Accept(ms[0].value) + AcceptMembers(ms[1..])
  }

  function AcceptElements(es: seq<Value>): seq<Event> {
    if es == [] then [] else Accept(es[0]) + AcceptElements(es[1..])
  }

  // ---- The document handler ---------------------------------------------------------------------

  type Stack = seq<Value>

  /** Two stack entries, a name and a value, are one member. */
  function ToMembers(vs: seq<Value>): seq<Member> {
    if |vs| < 2 then []
    else [Member(if vs[0].StringValue? then vs[0].s else "", vs[1])] + ToMembers(vs[2..])
  }

  function FromMembers(ms: seq<Member>): seq<Value> {
    if ms == [] then [] else [StringValue(ms[0].name), ms[0].value] + FromMembers(ms[1..])
  }

  /** An event pops no more than the stack holds. */
  predicate Fits(stack: Stack, e: Event) {
    match e
    case EndObject(n) => 2 * n < |stack|
    case EndArray(n) => n < |stack|
    case _ => true
  }

  /** The stack after an event. */
  function Handled(stack: Stack, e: Event): Stack
    requires Fits(stack, e)
  {
    match e
    case Null => stack + [NullValue]
    case Bool(b) => stack + [BoolValue(b)]
    case Num(n) => stack + [NumberValue(n)]
    case String(s) => stack + [StringValue(s)]
    case Key(s) => stack + [StringValue(s)]
    case StartObject => stack + [ObjectValue([])]
    case StartArray => stack + [ArrayValue([])]
    case EndObject(n) =>
      var base := |stack| - 2 * n - 1;
      stack[..base] + [ObjectValue(ToMembers(stack[base + 1..]))]
    case EndArray(n) =>
      var base := |stack| - n - 1;
      stack[..base] + [ArrayValue(stack[base + 1..])]
  }

  datatype Replay = Stacked(stack: Stack) | Underflow

  /** The stack after a sequence of events, or that some event pops too much. */
  function Replayed(stack: Stack, events: seq<Event>): Replay
    decreases |events|
  {
    if events == [] then Stacked(stack)
    else if !Fits(stack, events[0]) then Underflow
    else Replayed(Handled(stack, events[0]), events[1..])
  }

  class Document {
    var stack: Stack

    constructor ()
      ensures stack == []
    {
      stack := [];
    }

    /** Null, Bool, the numbers, String and Key, and the placeholders of StartObject and StartArray. */
    method Push(v: Value)
      modifies this
      ensures stack == old(stack) + [v]
    {
      stack := stack + [v];
    }

    /** Pop<Value>(count). */
    method Pop(count: nat) returns (values: seq<Value>)
      requires count <= |stack|
      modifies this
      ensures stack == old(stack[..|stack| - count]) && values == old(stack[|stack| - count..])
    {
      values := stack[|stack| - count..];
      stack := stack[..|stack| - count];
    }

    method EndObject(memberCount: nat)
      requires 2 * memberCount < |stack|
      modifies this
      ensures stack == Handled(old(stack), JsonTypes.EndObject(memberCount))
    {
      ghost var before := stack;
      var members := Pop(2 * memberCount);
      stack := stack[|stack| - 1 := ObjectValue(ToMembers(members))];
      assert stack == Handled(before, JsonTypes.EndObject(memberCount));
    }

    method EndArray(elementCount: nat)
      requires elementCount < |stack|
      modifies this
      ensures stack == Handled(old(stack), JsonTypes.EndArray(elementCount))
    {
      ghost var before := stack;
      var elements := Pop(elementCount);
      stack := stack[|stack| - 1 := ArrayValue(elements)];
      assert stack == Handled(before, JsonTypes.EndArray(elementCount));
    }

    method Handle(e: Event)
      requires Fits(stack, e)
      modifies this
      ensures stack == Handled(old(stack), e)
    {
      match e
      case Null => Push(NullValue);
      case Bool(b) => Push(BoolValue(b));
      case Num(n) => Push(NumberValue(n));
      case String(s) => Push(StringValue(s));
      case Key(s) => Push(StringValue(s));
      case StartObject => Push(ObjectValue([]));
      case StartArray => Push(ArrayValue([]));
      case EndObject(n) => EndObject(n);
      case EndArray(n) => EndArray(n);
    }

    /** Send a value's own events to the document: the value is rebuilt on top of the stack. */
    method Populate(v: Value)
      modifies this
      ensures stack == old(stack) + [v]
    {
      var events := Accept(v);
      ReplayAccept(stack, v, []);
      assert events + [] == events;
      var k := 0;
      while k < |events|
        invariant 0 <= k <= |events|
        invariant Replayed(stack, events[k..]) == Stacked(old(stack) + [v])
      {
        assert events[k..][1..] == events[k + 1..];
        Handle(events[k]);
        k := k + 1;
      }
    }
  }

  // ---- Replaying a value ------------------------------------------------------------------------

  lemma {:induction false} MembersRoundTrip(ms: seq<Member>)
    ensures |FromMembers(ms)| == 2 * |ms| && ToMembers(FromMembers(ms)) == ms
  {
    if ms != [] {
      MembersRoundTrip(ms[1..]);
      var vs := FromMembers(ms);
      assert vs[2..] == FromMembers(ms[1..]);
      assert ms == [ms[0]] + ms[1..];
    }
  }

  /** The handlers undo Accept at any depth, whatever is below on the stack and follows in the events. */
  lemma {:induction false} ReplayAccept(stack: Stack, v: Value, rest: seq<Event>)
    ensures Replayed(stack, Accept(v) + rest) == Replayed(stack + [v], rest)
    decreases v, 1
  {
    match v
    case ObjectValue(ms) =>
      var tail := [EndObject(|ms|)] + rest;
      assert Accept(v) + rest == [StartObject] + (AcceptMembers(ms) + tail);
      ReplayFirst(stack, StartObject, AcceptMembers(ms) + tail);
      ReplayMembers(stack + [ObjectValue([])], ms, tail);
      ReplayEndObject(stack, ms, rest);
    case ArrayValue(es) =>
      var tail := [EndArray(|es|)] + rest;
      assert Accept(v) + rest == [StartArray] + (AcceptElements(es) + tail);
      ReplayFirst(stack, StartArray, AcceptElements(es) + tail);
      ReplayElements(stack + [ArrayValue([])], es, tail);
      ReplayEndArray(stack, es, rest);
    case _ =>
      ReplayFirst(stack, Accept(v)[0], rest);
  }

  lemma ReplayFirst(stack: Stack, e: Event, rest: seq<Event>)
    requires Fits(stack, e)
    ensures Replayed(stack, [e] + rest) == Replayed(Handled(stack, e), rest)
  {
    assert ([e] + rest)[1..] == rest;
  }

  lemma Regroup<T>(a: seq<T>, b: seq<T>, c: seq<T>, d: seq<T>)
    ensures a + b + c + d == a + (b + (c + d))
  {
  }

  lemma ReplayEndObject(stack: Stack, ms: seq<Member>, rest: seq<Event>)
    ensures Replayed(stack + [ObjectValue([])] + FromMembers(ms), [EndObject(|ms|)] + rest) ==
              Replayed(stack + [ObjectValue(ms)], rest)
  {
    MembersRoundTrip(ms);
    var full := stack + [ObjectValue([])] + FromMembers(ms);
    assert full[..|stack|] == stack && full[|stack| + 1..] == FromMembers(ms);
    ReplayFirst(full, EndObject(|ms|), rest);
  }

  lemma ReplayEndArray(stack: Stack, es: seq<Value>, rest: seq<Event>)
    ensures Replayed(stack + [ArrayValue([])] + es, [EndArray(|es|)] + rest) == Replayed(stack + [ArrayValue(es)], rest)
  {
    var full := stack + [ArrayValue([])] + es;
    assert full[..|stack|] == stack && full[|stack| + 1..] == es;
    ReplayFirst(full, EndArray(|es|), rest);
  }

  lemma {:induction false} ReplayMembers(stack: Stack, ms: seq<Member>, rest: seq<Event>)
    ensures Replayed(stack, AcceptMembers(ms) + rest) == Replayed(stack + FromMembers(ms), rest)
    decreases ms, 0
  {
    hide Accept, Replayed;
    if ms == [] {
      assert AcceptMembers(ms) + rest == rest && stack + FromMembers(ms) == stack;
    } else {
      var after := AcceptMembers(ms[1..]) + rest;
      var name, v := StringValue(ms[0].name), ms[0].value;
      Regroup([Key(ms[0].name)], Accept(v), AcceptMembers(ms[1..]), rest);
      ReplayFirst(stack, Key(ms[0].name), Accept(v) + after);
      ReplayAccept(stack + [name], v, after);
      ReplayMembers(stack + [name] + [v], ms[1..], rest);
      Regroup(stack, [name], [v], FromMembers(ms[1..]));
      assert [name] + ([v] + FromMembers(ms[1..])) == FromMembers(ms);
    }
  }

  lemma {:induction false} ReplayElements(stack: Stack, es: seq<Value>, rest: seq<Event>)
    ensures Replayed(stack, AcceptElements(es) + rest) == Replayed(stack + es, rest)
    decreases es, 0
  {
    hide Accept, Replayed;
    if es == [] {
      assert AcceptElements(es) + rest == rest && stack + es == stack;
    } else {
      var after := AcceptElements(es[1..]) + rest;
      assert AcceptElements(es) + rest == Accept(es[0]) + after;
      ReplayAccept(stack, es[0], after);
      ReplayElements(stack + [es[0]], es[1..], rest);
      assert stack + [es[0]] + es[1..] == stack + es;
    }
  }
}
