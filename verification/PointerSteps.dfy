/**
 What single tokens do, said in the elements of an array and the members of an object themselves.
 */
module PointerSteps {
  import opened JsonDocument
  import opened PointerTree
  import MembersMap

  /** The first member that bears a name, at `j`. */
  predicate FirstBears(ms: seq<Member>, j: nat, name: string) {
    j < |ms| && ms[j].name == name && forall k :: 0 <= k < j ==> ms[k].name != name
  }

  predicate NoneBears(ms: seq<Member>, name: string) {
    forall m <- ms :: m.name != name
  }

  function Nulls(n: nat): seq<Value> {
    seq(n, _ => NullValue)
  }

  // ---- Get --------------------------------------------------------------------------------------

  /** An index leads into that element of the array, and nowhere behind its end. */
  lemma GetElement(es: seq<Value>, t: Step, ts: seq<Step>)
    requires Indexes(t)
    ensures Get(ArrayValue(es), [t] + ts) ==
            if t.index < |es| then Behind(1, Get(es[t.index], ts)) else Unresolved(0)
  {
    assert ([t] + ts)[1..] == ts;
  }

  /** A name leads into the value of the first member that bears it. */
  lemma GetMember(ms: seq<Member>, t: Step, ts: seq<Step>, j: nat)
    requires FirstBears(ms, j, t.name)
    ensures Get(ObjectValue(ms), [t] + ts) == Behind(1, Get(ms[j].value, ts))
  {
    assert ([t] + ts)[1..] == ts;
    ScanIs(ms, t.name, j);
  }

  /** A name nobody bears, no index in an array, and anything in a scalar lead nowhere. */
  lemma GetNothing(v: Value, t: Step, ts: seq<Step>)
    requires if v.ObjectValue? then NoneBears(v.members, t.name) else v.ArrayValue? ==> !Indexes(t)
    ensures Get(v, [t] + ts) == Unresolved(0)
  {
    if v.ObjectValue? {
      ScanNone(v.members, t.name);
    }
  }

  lemma ScanNone(ms: seq<Member>, name: string)
    requires NoneBears(ms, name)
    ensures MembersMap.Scan(ms, name) == |ms|
  {
  }

  // ---- Create and Set ---------------------------------------------------------------------------

  /** The array with Nulls up to an index. */
  function Grown(es: seq<Value>, i: nat): (r: seq<Value>)
    ensures i < |r|
  {
    if i < |es| then es else es + Nulls(i + 1 - |es|)
  }

  lemma PaddedIsGrown(es: seq<Value>, i: nat)
    ensures Padded(es, i + 1) == Grown(es, i)
  {
  }

  /** An index into an array: it grows by Nulls up to there, and only that element changes. */
  lemma StoreElement(es: seq<Value>, t: Step, ts: seq<Step>, x: Value)
    requires Indexes(t) && !Dash(t)
    ensures var grown, i := Grown(es, t.index), t.index;
            var r := Create(grown[i], ts);
            && Create(ArrayValue(es), [t] + ts) ==
                 Creation(ArrayValue(grown[i := r.value]), [i] + r.at, i < |es| && r.exist)
            && Set(ArrayValue(es), [t] + ts, x) == ArrayValue(grown[i := Set(grown[i], ts, x)])
  {
    assert ([t] + ts)[1..] == ts;
    PaddedIsGrown(es, t.index);
  }

  /** `-` appends to an array. */
  lemma StoreBehind(es: seq<Value>, t: Step, ts: seq<Step>, x: Value)
    requires Dash(t)
    ensures var r := Create(NullValue, ts);
            && Create(ArrayValue(es), [t] + ts) == Creation(ArrayValue(es + [r.value]), [|es|] + r.at, false)
            && Set(ArrayValue(es), [t] + ts, x) == ArrayValue(es + [Set(NullValue, ts, x)])
  {
    assert ([t] + ts)[1..] == ts;
    var r, w := Create(NullValue, ts), Set(NullValue, ts, x);
    assert (es + [NullValue])[|es| := r.value] == es + [r.value];
    assert (es + [NullValue])[|es| := w] == es + [w];
  }

  /** A name in an object that has it: only the first member that bears it changes, and keeps its name. */
  lemma StoreMember(ms: seq<Member>, t: Step, ts: seq<Step>, x: Value, j: nat)
    requires FirstBears(ms, j, t.name)
    ensures var r := Create(ms[j].value, ts);
            && Create(ObjectValue(ms), [t] + ts) ==
                 Creation(ObjectValue(ms[j := Member(t.name, r.value)]), [j] + r.at, r.exist)
            && Set(ObjectValue(ms), [t] + ts, x) ==
                 ObjectValue(ms[j := Member(t.name, Set(ms[j].value, ts, x))])
  {
    assert ([t] + ts)[1..] == ts;
    ScanIs(ms, t.name, j);
  }

  /** A name that is new to the object: a member is added behind the others. */
  lemma StoreNewMember(ms: seq<Member>, t: Step, ts: seq<Step>, x: Value)
    requires NoneBears(ms, t.name)
    ensures var r := Create(NullValue, ts);
            && Create(ObjectValue(ms), [t] + ts) ==
                 Creation(ObjectValue(ms + [Member(t.name, r.value)]), [|ms|] + r.at, false)
            && Set(ObjectValue(ms), [t] + ts, x) == ObjectValue(ms + [Member(t.name, Set(NullValue, ts, x))])
  {
    assert ([t] + ts)[1..] == ts;
    ScanNone(ms, t.name);
    var r, w, n := Create(NullValue, ts), Set(NullValue, ts, x), Member(t.name, NullValue);
    assert (ms + [n])[|ms| := Member(t.name, r.value)] == ms + [Member(t.name, r.value)];
    assert (ms + [n])[|ms| := Member(t.name, w)] == ms + [Member(t.name, w)];
  }

  /** What is no object becomes one with a single member under a name, an array too unless the name is `-`. */
  lemma StoreTurned(v: Value, t: Step, ts: seq<Step>, x: Value)
    requires !Indexes(t) && !v.ObjectValue? && (v.ArrayValue? ==> !Dash(t))
    ensures var r := Create(NullValue, ts);
            && Create(v, [t] + ts) == Creation(ObjectValue([Member(t.name, r.value)]), [0] + r.at, false)
            && Set(v, [t] + ts, x) == ObjectValue([Member(t.name, Set(NullValue, ts, x))])
  {
    assert ([t] + ts)[1..] == ts;
    var r, w, m := Create(NullValue, ts), Set(NullValue, ts, x), Member(t.name, NullValue);
    ScanNone([], t.name);
    assert [] + [m] == [m];
    assert [m][0 := Member(t.name, r.value)] == [Member(t.name, r.value)];
    assert [m][0 := Member(t.name, w)] == [Member(t.name, w)];
  }

  /** A scalar becomes an array that ends at an index. */
  lemma StoreIndexed(v: Value, t: Step, ts: seq<Step>, x: Value)
    requires Indexes(t) && !v.ObjectValue? && !v.ArrayValue?
    ensures var r := Create(NullValue, ts);
            && Create(v, [t] + ts) == Creation(ArrayValue(Nulls(t.index) + [r.value]), [t.index] + r.at, false)
            && Set(v, [t] + ts, x) == ArrayValue(Nulls(t.index) + [Set(NullValue, ts, x)])
  {
    hide Padded;
    assert ([t] + ts)[1..] == ts;
    var r, w := Create(NullValue, ts), Set(NullValue, ts, x);
    PaddedIsGrown([], t.index);
    assert [] + Nulls(t.index + 1) == Nulls(t.index + 1);
    assert Nulls(t.index + 1)[t.index := r.value] == Nulls(t.index) + [r.value];
    assert Nulls(t.index + 1)[t.index := w] == Nulls(t.index) + [w];
  }
}
