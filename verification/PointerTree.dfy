/**
 JSON Pointers resolved in a tree of values: Get, Create and Set, which adjusts the types of the values it
 passes and adds what is missing.
 */
module PointerTree {
  import opened JsonDocument
  import MembersMap

  const INVALID_INDEX: nat := 0xFFFF_FFFF

  /** A token: a name in some code units, and the array index it stands for, or INVALID_INDEX. */
  datatype Token<C> = Token(name: seq<C>, index: nat)

  type Step = Token<char>

  predicate Indexes<C>(t: Token<C>) {
    t.index != INVALID_INDEX
  }

  /** The token that appends to an array. */
  predicate Dash(t: Step) {
    t.name == "-"
  }

  /** What a parsed pointer has: `-` is no index. */
  predicate Proper(ts: seq<Step>) {
    forall t <- ts :: Dash(t) ==> !Indexes(t)
  }

  // ---- Children ---------------------------------------------------------------------------------

  function Size(v: Value): nat {
    match v
    case ObjectValue(ms) => |ms|
    case ArrayValue(es) => |es|
    case _ => 0
  }

  function Child(v: Value, i: nat): Value
    requires i < Size(v)
  {
    if v.ObjectValue? then v.members[i].value else v.elements[i]
  }

  function WithChild(v: Value, i: nat, w: Value): (r: Value)
    requires i < Size(v)
    ensures Size(r) == Size(v) && Child(r, i) == w
  {
    if v.ObjectValue? then ObjectValue(v.members[i := Member(v.members[i].name, w)])
    else ArrayValue(v.elements[i := w])
  }

  // ---- Get --------------------------------------------------------------------------------------

  datatype Resolution = Found(value: Value) | Unresolved(token: nat)

  /** The child a token leads to, or the number of children if it leads nowhere. */
  function Next(v: Value, t: Step): (i: nat)
    ensures i <= Size(v)
  {
    match v
    case ObjectValue(ms) => MembersMap.Scan(ms, t.name)
    case ArrayValue(es) => if !Indexes(t) || t.index >= |es| then |es| else t.index
    case _ => 0
  }

  function Get(v: Value, ts: seq<Step>): Resolution
    decreases |ts|
  {
    if ts == [] then Found(v)
    else
      var i := Next(v, ts[0]);
      if i == Size(v) then Unresolved(0)
      else
        match Get(Child(v, i), ts[1..])
        case Found(w) => Found(w)
        case Unresolved(k) => Unresolved(k + 1)
  }

  // ---- Create and Set ---------------------------------------------------------------------------

  /** A value adjusted so that a token leads to a child of it; `exist` says that it already did. */
  datatype Entry = Entry(value: Value, at: nat, exist: bool)

  function Padded(es: seq<Value>, n: nat): (r: seq<Value>)
    ensures |r| == if n > |es| then n else |es|
    ensures es <= r && forall i :: |es| <= i < n ==> r[i] == NullValue
    decreases n - |es|
  {
    if |es| < n then Padded(es + [NullValue], n) else es
  }

  function Retyped(v: Value, t: Step): Value {
    if !Indexes(t) then if v.ObjectValue? then v else ObjectValue([])
    else if v.ArrayValue? || v.ObjectValue? then v
    else ArrayValue([])
  }

  function Enter(v: Value, t: Step): (r: Entry)
    ensures r.at < Size(r.value)
  {
    if v.ArrayValue? && Dash(t) then Entry(ArrayValue(v.elements + [NullValue]), |v.elements|, false)
    else
      var w := Retyped(v, t);
      if w.ArrayValue? then Entry(ArrayValue(Padded(w.elements, t.index + 1)), t.index, t.index < |w.elements|)
      else
        var i := MembersMap.Scan(w.members, t.name);
        if i == |w.members| then Entry(ObjectValue(w.members + [Member(t.name, NullValue)]), i, false)
        else Entry(w, i, true)
  }

  /** The tree after Create, with `x` stored where it leads if there is an `x` to store. */
  datatype Creation = Creation(value: Value, at: seq<nat>, exist: bool)

  function Create(v: Value, ts: seq<Step>): Creation
    decreases |ts|
  {
    if ts == [] then Creation(v, [], true)
    else
      var e := Enter(v, ts[0]);
      var r := Create(Child(e.value, e.at), ts[1..]);
      Creation(WithChild(e.value, e.at, r.value), [e.at] + r.at, e.exist && r.exist)
  }

  function Set(v: Value, ts: seq<Step>, x: Value): Value
    decreases |ts|
  {
    if ts == [] then x
    else
      var e := Enter(v, ts[0]);
      WithChild(e.value, e.at, Set(Child(e.value, e.at), ts[1..], x))
  }

  function ValueOr(r: Resolution, default: Value): Value {
    match r
    case Found(w) => w
    case Unresolved(_) => default
  }

  /** Create returns a reference to what Get finds, or else to a new Null; Set assigns through that reference. */
  lemma {:induction false} CreateLeads(v: Value, ts: seq<Step>, x: Value)
    ensures var r := Create(v, ts);
            && IsAt(r.value, r.at)
            && Set(v, ts, x) == Put(r.value, r.at, x)
            && (Proper(ts) ==> At(r.value, r.at) == ValueOr(Get(v, ts), NullValue))
    decreases |ts|
  {
    hide Enter, Next, WithChild, Child;
    if ts != [] {
      var e := Enter(v, ts[0]);
      var c := Child(e.value, e.at);
      var r := Create(c, ts[1..]);
      CreateLeads(c, ts[1..], x);
      if Proper(ts) {
        EnterExists(v, ts[0]);
      }
      assert ([e.at] + r.at)[1..] == r.at;
      ReplacedTwice(e.value, e.at, r.value, Put(r.value, r.at, x));
      if !e.exist {
        NothingUnderNull(ts[1..]);
      }
    }
  }

  lemma NothingUnderNull(ts: seq<Step>)
    ensures ValueOr(Get(NullValue, ts), NullValue) == NullValue
  {
  }

  lemma ReplacedTwice(v: Value, i: nat, w: Value, w': Value)
    requires i < Size(v)
    ensures WithChild(WithChild(v, i, w), i, w') == WithChild(v, i, w')
  {
  }

  // ---- The laws ---------------------------------------------------------------------------------

  lemma EnterExists(v: Value, t: Step)
    requires Proper([t])
    ensures Enter(v, t).exist <==> Next(v, t) < Size(v)
    ensures v.ArrayValue? && Dash(t) ==> !Enter(v, t).exist
    ensures var e := Enter(v, t);
            if e.exist then e.value == v && e.at == Next(v, t) else Child(e.value, e.at) == NullValue
  {
    assert t in [t];
  }

  /** Create reports that the value already existed exactly when Get finds it, and then changes nothing. */
  lemma {:induction false} CreateReports(v: Value, ts: seq<Step>)
    requires Proper(ts)
    ensures Create(v, ts).exist <==> Get(v, ts).Found?
    ensures Create(v, ts).exist ==> Create(v, ts).value == v
    decreases |ts|
  {
    if ts != [] {
      EnterExists(v, ts[0]);
      var e := Enter(v, ts[0]);
      CreateReports(Child(e.value, e.at), ts[1..]);
    }
  }

  /** The pointer passes through `-` on an array that is there already. */
  predicate Appends(v: Value, ts: seq<Step>) {
    exists k | 0 <= k < |ts| :: AppendsAt(v, ts, k)
  }

  predicate AppendsAt(v: Value, ts: seq<Step>, k: nat)
    requires k < |ts|
  {
    var r := Get(v, ts[..k]);
    r.Found? && r.value.ArrayValue? && Dash(ts[k])
  }

  lemma AppendsStep(v: Value, ts: seq<Step>)
    requires ts != []
    ensures Appends(v, ts) <==>
              || (v.ArrayValue? && Dash(ts[0]))
              || (Next(v, ts[0]) < Size(v) && Appends(Child(v, Next(v, ts[0])), ts[1..]))
  {
    assert AppendsAt(v, ts, 0) <==> v.ArrayValue? && Dash(ts[0]);
    var i := Next(v, ts[0]);
    forall k | 0 < k < |ts|
      ensures AppendsAt(v, ts, k) <==> i < Size(v) && AppendsAt(Child(v, i), ts[1..], k - 1)
    {
      assert ts[..k][1..] == ts[1..][..k - 1];
    }
    if i < Size(v) && Appends(Child(v, i), ts[1..]) {
      var k :| 0 <= k < |ts[1..]| && AppendsAt(Child(v, i), ts[1..], k);
      assert AppendsAt(v, ts, k + 1);
    }
  }

  /** What a pointer leads to after Enter, it still leads to once that child has been replaced. */
  lemma NextEntered(v: Value, t: Step, w: Value)
    requires Proper([t])
    ensures var e := Enter(v, t);
            Next(WithChild(e.value, e.at, w), t) == if v.ArrayValue? && Dash(t) then Size(e.value) else e.at
  {
    assert t in [t];
    var e := Enter(v, t);
    if e.value.ObjectValue? {
      ScanIs(WithChild(e.value, e.at, w).members, t.name, e.at);
    }
  }

  lemma ScanIs(ms: seq<Member>, name: string, i: nat)
    requires i < |ms| && ms[i].name == name && forall k :: 0 <= k < i ==> ms[k].name != name
    ensures MembersMap.Scan(ms, name) == i
  {
  }

  function Behind(n: nat, r: Resolution): Resolution {
    match r
    case Found(w) => Found(w)
    case Unresolved(k) => Unresolved(n + k)
  }

  /**
   What has been set is found by the same pointer, and by every longer one as far as the value goes, exactly
   when the pointer did not append to an array.
   */
  lemma {:induction false} SetThenGet(v: Value, ts: seq<Step>, x: Value, us: seq<Step>)
    requires Proper(ts)
    ensures if Appends(v, ts) then Get(Set(v, ts, x), ts + us).Unresolved?
            else Get(Set(v, ts, x), ts + us) == Behind(|ts|, Get(x, us))
    decreases |ts|
  {
    hide Appends, Enter, Next, Child, WithChild;
    if ts == [] {
      NothingAppended(v, ts);
      assert ts + us == us;
    } else {
      var t, e := ts[0], Enter(v, ts[0]);
      var c := Child(e.value, e.at);
      var w := Set(c, ts[1..], x);
      NextEntered(v, t, w);
      EnterExists(v, t);
      AppendsStep(v, ts);
      var r := WithChild(e.value, e.at, w);
      assert Set(v, ts, x) == r;
      assert (ts + us)[0] == t && (ts + us)[1..] == ts[1..] + us;
      if v.ArrayValue? && Dash(t) {
        assert Get(r, ts + us) == Unresolved(0);
      } else {
        SetThenGet(c, ts[1..], x, us);
        if !e.exist {
          NothingAppended(c, ts[1..]);
        }
        assert Appends(v, ts) == Appends(c, ts[1..]);
        assert Get(r, ts + us) == Behind(1, Get(w, ts[1..] + us));
      }
    }
  }

  lemma NothingAppended(v: Value, ts: seq<Step>)
    requires v.NullValue? || ts == []
    ensures !Appends(v, ts)
  {
    forall k | 0 <= k < |ts| ensures !AppendsAt(v, ts, k) {
      assert k == 0 ==> ts[..k] == [];
    }
  }

  // ---- Everything else --------------------------------------------------------------------------

  /** In pointers that were parsed, the name of a token decides its index, and an index below 2^32 its name. */
  predicate Alike(ts: seq<Step>, us: seq<Step>) {
    forall i, j :: 0 <= i < |ts| && 0 <= j < |us| && ts[i] != us[j] ==> AreApart(ts[i], us[j])
  }

  predicate AreApart(t: Step, u: Step) {
    t.name != u.name && (t.index == u.index ==> !Indexes(t))
  }

  /** The pointer turns an array into an object, and all the array held is lost. */
  predicate TurnsArray(v: Value, t: Step) {
    v.ArrayValue? && !Indexes(t) && !Dash(t)
  }

  predicate TurnsArrayAt(v: Value, ts: seq<Step>, k: nat)
    requires k < |ts|
  {
    var r := Get(v, ts[..k]);
    r.Found? && TurnsArray(r.value, ts[k])
  }

  /** Where the pointers part, or before, `ts` turns an array on the way of `us` into an object. */
  predicate Lost(v: Value, ts: seq<Step>, us: seq<Step>) {
    exists k | 0 <= k < |ts| && k < |us| :: ts[..k] == us[..k] && TurnsArrayAt(v, ts, k)
  }

  lemma LostStep(v: Value, ts: seq<Step>, us: seq<Step>)
    requires ts != [] && us != []
    ensures Lost(v, ts, us) <==>
              || TurnsArray(v, ts[0])
              || (ts[0] == us[0] && Next(v, ts[0]) < Size(v) && Lost(Child(v, Next(v, ts[0])), ts[1..], us[1..]))
  {
    assert ts[..0] == us[..0] && (TurnsArrayAt(v, ts, 0) <==> TurnsArray(v, ts[0]));
    var i := Next(v, ts[0]);
    forall k | 0 < k < |ts|
      ensures TurnsArrayAt(v, ts, k) <==> i < Size(v) && TurnsArrayAt(Child(v, i), ts[1..], k - 1)
    {
      assert ts[..k][1..] == ts[1..][..k - 1];
    }
    forall k | 0 < k < |ts| && k < |us|
      ensures ts[..k] == us[..k] <==> ts[0] == us[0] && ts[1..][..k - 1] == us[1..][..k - 1]
    {
      assert ts[..k] == [ts[0]] + ts[1..][..k - 1] && us[..k] == [us[0]] + us[1..][..k - 1];
    }
    if ts[0] == us[0] && i < Size(v) && Lost(Child(v, i), ts[1..], us[1..]) {
      var k :| 0 <= k < |ts[1..]| && k < |us[1..]| && ts[1..][..k] == us[1..][..k] &&
          TurnsArrayAt(Child(v, i), ts[1..], k);
      assert ts[..k + 1] == us[..k + 1] && TurnsArrayAt(v, ts, k + 1);
    }
  }

  /** A step aside from the one `t` takes still leads to the same child, unless the array it was in is gone. */
  lemma OtherChild(v: Value, t: Step, w: Value, u: Step)
    requires AreApart(t, u) && Next(v, u) < Size(v)
    ensures var e := Enter(v, t);
            var r := WithChild(e.value, e.at, w);
            if TurnsArray(v, t) then Next(r, u) == Size(r)
            else Next(r, u) == Next(v, u) < Size(r) && Child(r, Next(v, u)) == Child(v, Next(v, u))
  {
    var e := Enter(v, t);
    var r := WithChild(e.value, e.at, w);
    if v.ObjectValue? {
      ScanIs(r.members, u.name, Next(v, u));
    }
  }

  /**
   Any other pointer that led somewhere, and neither begins nor continues the one that was set, leads to the
   same value afterwards, exactly when no array on its way was turned into an object.
   */
  lemma {:induction false} SetKeepsOthers(v: Value, ts: seq<Step>, x: Value, us: seq<Step>)
    requires Proper(ts) && Alike(ts, us) && Get(v, us).Found?
    requires !(ts <= us) && !(us <= ts)
    ensures if Lost(v, ts, us) then Get(Set(v, ts, x), us).Unresolved? else Get(Set(v, ts, x), us) == Get(v, us)
    decreases |ts|
  {
    hide Lost, Enter, Next, Child, WithChild, TurnsArray;
    var t, u, e := ts[0], us[0], Enter(v, ts[0]);
    var c := Child(e.value, e.at);
    var w := Set(c, ts[1..], x);
    LostStep(v, ts, us);
    if t == u {
      EnterExists(v, t);
      NextEntered(v, t, w);
      NotTurned(v, t);
      assert ts == [t] + ts[1..] && us == [u] + us[1..];
      SetKeepsOthers(c, ts[1..], x, us[1..]);
    } else {
      OtherChild(v, t, w, u);
    }
  }

  lemma NotTurned(v: Value, t: Step)
    requires Next(v, t) < Size(v)
    ensures !TurnsArray(v, t)
  {
  }

  // ---- The tree in place ------------------------------------------------------------------------

  /** A reference into the tree: the positions of the children on the way to it. */
  type Reference = seq<nat>

  predicate IsAt(v: Value, at: Reference)
    decreases |at|
  {
    at == [] || (at[0] < Size(v) && IsAt(Child(v, at[0]), at[1..]))
  }

  function At(v: Value, at: Reference): Value
    requires IsAt(v, at)
    decreases |at|
  {
    if at == [] then v else At(Child(v, at[0]), at[1..])
  }

  /** The tree after an assignment through a reference. */
  function Put(v: Value, at: Reference, w: Value): (r: Value)
    requires IsAt(v, at)
    ensures IsAt(r, at)
    decreases |at|
  {
    if at == [] then w else WithChild(v, at[0], Put(Child(v, at[0]), at[1..], w))
  }

  lemma {:induction false} PutDeeper(v: Value, at: Reference, e: Value, i: nat, w: Value)
    requires IsAt(v, at) && i < Size(e)
    ensures IsAt(Put(v, at, e), at + [i]) && At(Put(v, at, e), at + [i]) == Child(e, i)
    ensures Put(Put(v, at, e), at + [i], w) == Put(v, at, WithChild(e, i, w))
    decreases |at|
  {
    if at == [] {
      assert [i][1..] == [];
    } else {
      assert (at + [i])[1..] == at[1..] + [i];
      PutDeeper(Child(v, at[0]), at[1..], e, i, w);
    }
  }

  lemma {:induction false} PutSame(v: Value, at: Reference)
    requires IsAt(v, at)
    ensures Put(v, at, At(v, at)) == v
    decreases |at|
  {
    if at != [] {
      PutSame(Child(v, at[0]), at[1..]);
    }
  }

  /** The rest of the tokens, from the value `at` refers to, is what remains to be done for `all`. */
  predicate Remains(all: Creation, root: Value, at: Reference, ts: seq<Step>, exist: bool) {
    && IsAt(root, at)
    && var rest := Create(At(root, at), ts);
      && Put(root, at, rest.value) == all.value
      && at + rest.at == all.at
      && (exist && rest.exist) == all.exist
  }

  lemma RemainsAll(root: Value, ts: seq<Step>)
    ensures Remains(Create(root, ts), root, [], ts, true)
  {
  }

  lemma RemainsStep(all: Creation, root: Value, at: Reference, ts: seq<Step>, exist: bool)
    requires Remains(all, root, at, ts, exist) && ts != []
    ensures IsAt(root, at)
    ensures var e := Enter(At(root, at), ts[0]);
            Remains(all, Put(root, at, e.value), at + [e.at], ts[1..], exist && e.exist)
  {
    hide Enter, IsAt, At, Put, Child, WithChild;
    var e := Enter(At(root, at), ts[0]);
    var rest := Create(Child(e.value, e.at), ts[1..]);
    PutDeeper(root, at, e.value, e.at, rest.value);
    assert at + [e.at] + rest.at == at + ([e.at] + rest.at);
  }

  lemma RemainsNothing(all: Creation, root: Value, at: Reference, exist: bool)
    requires Remains(all, root, at, [], exist)
    ensures all == Creation(root, at, exist)
  {
    PutSame(root, at);
  }

  class Tree {
    var root: Value

    constructor (v: Value)
      ensures root == v
    {
      root := v;
    }

    /** Get: follow the tokens down from the root. */
    method Find(ts: seq<Step>) returns (r: Resolution)
      ensures r == Get(root, ts)
    {
      var v := root;
      var k := 0;
      while k < |ts|
        invariant 0 <= k <= |ts|
        invariant Get(root, ts) == Behind(k, Get(v, ts[k..]))
      {
        assert ts[k..][1..] == ts[k + 1..];
        var i := Next(v, ts[k]);
        if i == Size(v) {
          return Unresolved(k);
        }
        v := Child(v, i);
        k := k + 1;
      }
      return Found(v);
    }

    /** One turn of Create's loop: adjust the value referred to, and step down to a child of it. */
    method Descend(at: Reference, t: Step) returns (child: Reference, exist: bool)
      requires IsAt(root, at)
      modifies this
      ensures var e := Enter(old(At(root, at)), t);
              root == old(Put(root, at, e.value)) && child == at + [e.at] && exist == e.exist
    {
      var v := At(root, at);
      exist := true;
      if v.ArrayValue? && Dash(t) {
        v := ArrayValue(v.elements + [NullValue]);
        child := at + [|v.elements| - 1];
        exist := false;
      } else {
        if !Indexes(t) {
          if !v.ObjectValue? {
            v := ObjectValue([]);
          }
        } else if !v.ArrayValue? && !v.ObjectValue? {
          v := ArrayValue([]);
        }
        if v.ArrayValue? {
          if t.index >= |v.elements| {
            ghost var all := Padded(v.elements, t.index + 1);
            while t.index >= |v.elements|
              invariant v.ArrayValue? && Padded(v.elements, t.index + 1) == all
            {
              v := ArrayValue(v.elements + [NullValue]);
            }
            exist := false;
          }
          child := at + [t.index];
        } else {
          var i := MembersMap.Scan(v.members, t.name);
          if i == |v.members| {
            v := ObjectValue(v.members + [Member(t.name, NullValue)]);
            exist := false;
          }
          child := at + [i];
        }
      }
      root := Put(root, at, v);
    }

    /** Create: the reference returned is to the value the pointer leads to, made if it did not exist. */
    method CreateAt(ts: seq<Step>) returns (at: Reference, alreadyExist: bool)
      modifies this
      ensures root == Create(old(root), ts).value && at == Create(old(root), ts).at
      ensures alreadyExist == Create(old(root), ts).exist
    {
      hide Remains, IsAt, At, Put, Create, Enter;
      ghost var all := Create(root, ts);
      at, alreadyExist := [], true;
      var k := 0;
      assert ts[0..] == ts;
      RemainsAll(root, ts);
      while k < |ts|
        invariant 0 <= k <= |ts| && Remains(all, root, at, ts[k..], alreadyExist)
      {
        RemainsStep(all, root, at, ts[k..], alreadyExist);
        assert ts[k..][1..] == ts[k + 1..];
        var exist: bool;
        at, exist := Descend(at, ts[k]);
        alreadyExist := alreadyExist && exist;
        k := k + 1;
      }
      assert ts[k..] == [];
      RemainsNothing(all, root, at, alreadyExist);
    }

    /** Set: assign through the reference Create returns. */
    method Assign(ts: seq<Step>, x: Value)
      modifies this
      ensures root == Set(old(root), ts, x)
    {
      CreateLeads(root, ts, x);
      var at, _ := CreateAt(ts);
      root := Put(root, at, x);
    }

    /** GetWithDefault. */
    method FindOrAdd(ts: seq<Step>, default: Value) returns (w: Value)
      requires Proper(ts)
      modifies this
      ensures w == ValueOr(Get(old(root), ts), default)
      ensures root == if Get(old(root), ts).Found? then old(root) else Set(old(root), ts, default)
    {
      CreateReports(root, ts);
      CreateLeads(root, ts, default);
      var at, alreadyExist := CreateAt(ts);
      if alreadyExist {
        w := At(root, at);
      } else {
        root := Put(root, at, default);
        w := default;
      }
    }
  }
}
