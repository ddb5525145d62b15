/**
 The paths the schema validator spells are JSON Pointers: each, parsed and resolved, finds the value at which it was
 spelled.
 */
module PointerPaths {
  import opened Ascii
  import opened JsonDocument
  import MembersMap
  import opened PointerTree
  import PI = PointerIndex
  import PointerText
  import opened PointerEscapes
  import opened PointerSteps
  import opened ValidatorPath

  // ---- Which values have paths ------------------------------------------------------------------

  /** A value and all the values in it, in the order in which they begin. */
  function Preorder(v: Value): seq<Value>
    decreases v, 1
  {
    [v] + match v
          case ObjectValue(ms) => PreorderOfMembers(ms)
          case ArrayValue(es) => PreorderOfElements(es)
          case _ => []
  }

  function PreorderOfMembers(ms: seq<Member>): seq<Value>
    decreases ms, 0
  {
    if ms == [] then [] else Preorder(ms[0].value) + PreorderOfMembers(ms[1..])
  }

  function PreorderOfElements(es: seq<Value>): seq<Value>
    decreases es, 0
  {
    if es == [] then [] else Preorder(es[0]) + PreorderOfElements(es[1..])
  }

  /** At any depth no name is borne twice, names are bytes, and indices fit. */
  predicate Addressable(v: Value)
    decreases v, 1
  {
    match v
    case ObjectValue(ms) => MembersMap.UniqueNames(ms) && MembersAddressable(ms)
    case ArrayValue(es) => |es| <= INVALID_INDEX && ElementsAddressable(es)
    case _ => true
  }

  predicate MembersAddressable(ms: seq<Member>)
    decreases ms, 0
  {
    ms == [] ||
    (ToChars(ToBytes(ms[0].name)) == ms[0].name && Addressable(ms[0].value) && MembersAddressable(ms[1..]))
  }

  predicate ElementsAddressable(es: seq<Value>)
    decreases es, 0
  {
    es == [] || (Addressable(es[0]) && ElementsAddressable(es[1..]))
  }

  // ---- Names and indices ------------------------------------------------------------------------

  lemma {:induction false} EscapedIsEscaped(name: PI.Name)
    ensures Escaped(ToChars(name)) == ToChars(EscapedName(name))
    decreases |name|
  {
    if name == [] {
    } else {
      EscapedIsEscaped(name[1..]);
      assert ToChars(name)[1..] == ToChars(name[1..]);
      CharsJoined(EscapedByte(name[0]), EscapedName(name[1..]));
      assert ToChars([0x7E, 0x30]) == "~0" && ToChars([0x7E, 0x31]) == "~1";
    }
  }

  /** The digits of a number as the name of a token. */
  function IndexName(i: nat): PI.Name {
    ToBytes(Decimal(i))
  }

  lemma DigitBytes(d: nat)
    requires d < 10
    ensures ToBytes([DigitOf(d)]) == [ZERO + d as Byte]
    ensures Digit(ZERO + d as Byte) && PI.DigitValue(ZERO + d as Byte) == d
  {
  }

  lemma NumeralGoesOn(name: PI.Name, d: Byte)
    requires PI.Numeral(name) && name[0] != ZERO && Digit(d)
    ensures PI.Numeral(name + [d]) && (name + [d])[0] != ZERO
    ensures PI.Value(name + [d]) == PI.Value(name) * 10 + PI.DigitValue(d)
  {
    assert (name + [d])[..|name|] == name;
  }

  lemma OneDigit(d: Byte)
    requires Digit(d)
    ensures PI.Numeral([d]) && PI.Value([d]) == PI.DigitValue(d)
  {
    assert [d][..0] == [] && PI.Value([]) == 0;
  }

  lemma {:induction false} IndexNameIs(i: nat)
    ensures PI.Numeral(IndexName(i)) && PI.Value(IndexName(i)) == i && (i > 0 ==> IndexName(i)[0] != ZERO)
    decreases i
  {
    hide ToBytes, PI.Value, PI.Numeral, PI.DigitValue, DigitOf;
    if i < 10 {
      DigitBytes(i);
      OneDigit(ZERO + i as Byte);
      if i > 0 {
        NotZero(i);
      }
    } else {
      IndexNameIs(i / 10);
      DigitBytes(i % 10);
      BytesJoined(Decimal(i / 10), [DigitOf(i % 10)]);
      NumeralGoesOn(IndexName(i / 10), ZERO + (i % 10) as Byte);
    }
  }

  lemma NotZero(d: nat)
    requires 0 < d < 10
    ensures ZERO + d as Byte != ZERO
  {
  }

  lemma {:induction false} IndexNameChars(i: nat)
    ensures ToChars(IndexName(i)) == Decimal(i)
    ensures EscapedName(IndexName(i)) == IndexName(i)
    decreases i
  {
    hide ToBytes, ToChars, DigitOf, EscapedName;
    if i < 10 {
      DigitChar(i);
    } else {
      IndexNameChars(i / 10);
      DigitChar(i % 10);
      var a, b := Decimal(i / 10), [DigitOf(i % 10)];
      BytesJoined(a, b);
      CharsJoined(ToBytes(a), ToBytes(b));
      EscapedJoined(ToBytes(a), ToBytes(b));
    }
  }

  lemma DigitChar(d: nat)
    requires d < 10
    ensures ToChars(ToBytes([DigitOf(d)])) == [DigitOf(d)]
    ensures EscapedName(ToBytes([DigitOf(d)])) == ToBytes([DigitOf(d)])
  {
    DigitBytes(d);
    var b := ZERO + d as Byte;
    assert [b][1..] == [] && EscapedName([b]) == EscapedByte(b) + EscapedName([]);
  }

  // ---- Pointers along a path --------------------------------------------------------------------

  /** The tokens of a parsed pointer, as the tree takes them. */
  function AsSteps(ts: seq<Token<Byte>>): (r: seq<Step>)
    ensures |r| == |ts|
  {
    if ts == [] then [] else [Token(ToChars(ts[0].name), ts[0].index)] + AsSteps(ts[1..])
  }

  function Names(names: seq<PI.Name>): seq<Token<Byte>> {
    if names == [] then [] else [Token(names[0], PI.IndexOf(names[0]))] + Names(names[1..])
  }

  /** The path is what is written for some names, and following them leads to the value. */
  ghost predicate Leading(root: Value, path: string, w: Value) {
    exists names :: ToChars(Plain(Names(names))) == path && Get(root, AsSteps(Names(names))) == Found(w)
  }

  /** The pointer in the text leads to the value. */
  predicate Points(root: Value, path: string, w: Value) {
    var r := PointerText.Parse(ToBytes(path));
    r.Parsed? && Get(root, AsSteps(r.tokens)) == Found(w)
  }

  lemma {:induction false} TokensJoined(a: seq<PI.Name>, name: PI.Name)
    ensures Names(a + [name]) == Names(a) + [Token(name, PI.IndexOf(name))]
    decreases |a|
  {
    hide PI.IndexOf;
    if a == [] {
      assert a + [name] == [name] && [name][1..] == [];
    } else {
      TokensJoined(a[1..], name);
      assert (a + [name])[1..] == a[1..] + [name];
    }
  }

  lemma {:induction false} StepsJoined(ts: seq<Token<Byte>>, t: Token<Byte>)
    ensures AsSteps(ts + [t]) == AsSteps(ts) + [Token(ToChars(t.name), t.index)]
    decreases |ts|
  {
    hide ToChars;
    if ts == [] {
      assert ts + [t] == [t] && [t][1..] == [];
    } else {
      StepsJoined(ts[1..], t);
      assert (ts + [t])[1..] == ts[1..] + [t];
    }
  }

  lemma {:induction false} PlainJoined(ts: seq<Token<Byte>>, t: Token<Byte>)
    ensures Plain(ts + [t]) == Plain(ts) + ([0x2F] + EscapedName(t.name))
    decreases |ts|
  {
    hide EscapedName;
    if ts == [] {
      assert ts + [t] == [t] && [t][1..] == [];
    } else {
      PlainJoined(ts[1..], t);
      assert (ts + [t])[1..] == ts[1..] + [t];
    }
  }

  lemma NamesJoined(a: seq<PI.Name>, name: PI.Name)
    ensures AsSteps(Names(a + [name])) == AsSteps(Names(a)) + [PI.ToStep(name)]
    ensures Plain(Names(a + [name])) == Plain(Names(a)) + ([0x2F] + EscapedName(name))
  {
    hide Names, AsSteps, Plain, EscapedName, PI.IndexOf, ToChars;
    TokensJoined(a, name);
    StepsJoined(Names(a), Token(name, PI.IndexOf(name)));
    PlainJoined(Names(a), Token(name, PI.IndexOf(name)));
  }

  lemma {:induction false} NamesAreIndexed(names: seq<PI.Name>)
    ensures PointerText.Reindexed(Names(names)) == Names(names)
    decreases |names|
  {
    hide PI.IndexOf;
    if names != [] {
      NamesAreIndexed(names[1..]);
      assert Names(names)[1..] == Names(names[1..]);
    }
  }

  lemma LeadingPoints(root: Value, path: string, w: Value)
    requires Leading(root, path, w)
    ensures Points(root, path, w)
  {
    hide PointerText.Parse, Plain, Names, AsSteps;
    var names :| ToChars(Plain(Names(names))) == path && Get(root, AsSteps(Names(names))) == Found(w);
    BytesBack(Plain(Names(names)));
    NamesAreIndexed(names);
    PlainIsWritten(Names(names));
  }

  lemma {:induction false} GetOn(v: Value, ts: seq<Step>, us: seq<Step>)
    requires Get(v, ts).Found?
    ensures Get(v, ts + us) == Behind(|ts|, Get(Get(v, ts).value, us))
    decreases |ts|
  {
    hide Next, Child;
    if ts == [] {
      assert ts + us == us;
    } else {
      assert (ts + us)[1..] == ts[1..] + us;
      GetOn(Child(v, Next(v, ts[0])), ts[1..], us);
    }
  }

  /** One more name leads on to what it leads to from there. */
  lemma LeadingOn(root: Value, path: string, v: Value, name: PI.Name, w: Value)
    requires Leading(root, path, v) && Get(v, [PI.ToStep(name)]) == Found(w)
    ensures Leading(root, path + "/" + ToChars(EscapedName(name)), w)
  {
    hide Get, Plain, Names, AsSteps, EscapedName, PI.ToStep, ToChars;
    var names :| ToChars(Plain(Names(names))) == path && Get(root, AsSteps(Names(names))) == Found(v);
    NamesJoined(names, name);
    GetOn(root, AsSteps(Names(names)), [PI.ToStep(name)]);
    CharsJoined(Plain(Names(names)), [0x2F] + EscapedName(name));
    CharsJoined([0x2F], EscapedName(name));
    SlashChar();
    assert path + ("/" + ToChars(EscapedName(name))) == path + "/" + ToChars(EscapedName(name));
    assert Get(root, AsSteps(Names(names + [name]))) == Found(w);
  }

  lemma SlashChar()
    ensures ToChars([0x2F]) == "/"
  {
  }

  lemma LeadingToMember(root: Value, path: string, ms: seq<Member>, j: nat)
    requires Leading(root, path, ObjectValue(ms)) && j < |ms| && MembersMap.UniqueNames(ms)
    requires ToChars(ToBytes(ms[j].name)) == ms[j].name
    ensures Leading(root, path + "/" + Escaped(ms[j].name), ms[j].value)
  {
    hide Leading, ToBytes, ToChars, Escaped, EscapedName, PI.IndexOf;
    var name := ToBytes(ms[j].name);
    EscapedIsEscaped(name);
    assert FirstBears(ms, j, PI.ToStep(name).name);
    GetMember(ms, PI.ToStep(name), [], j);
    assert [PI.ToStep(name)] + [] == [PI.ToStep(name)];
    LeadingOn(root, path, ObjectValue(ms), name, ms[j].value);
  }

  lemma LeadingToElement(root: Value, path: string, es: seq<Value>, i: nat)
    requires Leading(root, path, ArrayValue(es)) && i < |es| <= INVALID_INDEX
    ensures Leading(root, path + "/" + Decimal(i), es[i])
  {
    hide Leading, ToBytes, ToChars, Decimal, EscapedName, PI.IndexOf, PI.Numeral, PI.Value, PI.Drops;
    var name := IndexName(i);
    IndexNameIs(i);
    IndexNameChars(i);
    PI.IndexIsDocumented(name);
    PI.SmallModulo(i);
    GetElement(es, PI.ToStep(name), []);
    assert [PI.ToStep(name)] + [] == [PI.ToStep(name)];
    LeadingOn(root, path, ArrayValue(es), name, es[i]);
  }

  // ---- All of them ------------------------------------------------------------------------------

  ghost predicate AllLead(root: Value, paths: seq<string>, vs: seq<Value>) {
    |paths| == |vs| && forall k :: 0 <= k < |paths| ==> Leading(root, paths[k], vs[k])
  }

  lemma AllJoined(root: Value, ps: seq<string>, vs: seq<Value>, qs: seq<string>, ws: seq<Value>)
    requires AllLead(root, ps, vs) && AllLead(root, qs, ws)
    ensures AllLead(root, ps + qs, vs + ws)
  {
    hide Leading;
  }

  lemma {:induction false} PathsLead(root: Value, v: Value, path: string)
    requires Addressable(v) && Leading(root, path, v)
    ensures AllLead(root, Paths(v, path), Preorder(v))
    decreases v, 1
  {
    hide Leading, MembersAddressable, ElementsAddressable, MemberPaths, ElementPaths, PreorderOfMembers,
      PreorderOfElements;
    match v
    case ObjectValue(ms) =>
      assert ms[0..] == ms;
      MemberPathsLead(root, ms, 0, path);
      AllJoined(root, [path], [v], MemberPaths(ms, path), PreorderOfMembers(ms));
    case ArrayValue(es) =>
      assert es[0..] == es;
      ElementPathsLead(root, es, 0, path);
      AllJoined(root, [path], [v], ElementPaths(es, 0, path), PreorderOfElements(es));
    case _ =>
  }

  lemma {:induction false} MemberPathsLead(root: Value, ms: seq<Member>, j: nat, path: string)
    requires j <= |ms| && MembersMap.UniqueNames(ms) && MembersAddressable(ms[j..])
    requires Leading(root, path, ObjectValue(ms))
    ensures AllLead(root, MemberPaths(ms[j..], path), PreorderOfMembers(ms[j..]))
    decreases ms[j..], 0
  {
    hide Leading, Addressable, Paths, Preorder, Escaped, ToBytes, ToChars, MembersMap.UniqueNames;
    if j < |ms| {
      assert ms[j..][0] == ms[j] && ms[j..][1..] == ms[j + 1..];
      var on := path + "/" + Escaped(ms[j].name);
      LeadingToMember(root, path, ms, j);
      PathsLead(root, ms[j].value, on);
      MemberPathsLead(root, ms, j + 1, path);
      AllJoined(root, Paths(ms[j].value, on), Preorder(ms[j].value), MemberPaths(ms[j + 1..], path),
                PreorderOfMembers(ms[j + 1..]));
    }
  }

  lemma {:induction false} ElementPathsLead(root: Value, es: seq<Value>, i: nat, path: string)
    requires i <= |es| <= INVALID_INDEX && ElementsAddressable(es[i..]) && Leading(root, path, ArrayValue(es))
    ensures AllLead(root, ElementPaths(es[i..], i, path), PreorderOfElements(es[i..]))
    decreases es[i..], 0
  {
    hide Leading, Addressable, Paths, Preorder, Decimal;
    if i < |es| {
      assert es[i..][0] == es[i] && es[i..][1..] == es[i + 1..];
      var on := path + "/" + Decimal(i);
      LeadingToElement(root, path, es, i);
      PathsLead(root, es[i], on);
      ElementPathsLead(root, es, i + 1, path);
      AllJoined(root, Paths(es[i], on), Preorder(es[i]), ElementPaths(es[i + 1..], i + 1, path),
                PreorderOfElements(es[i + 1..]));
    }
  }

  /** Every path the validator spells on its way through a value, parsed and resolved, finds what it was spelled at. */
  lemma PathsPoint(v: Value)
    requires Addressable(v)
    ensures |Paths(v, "")| == |Preorder(v)|
    ensures forall k :: 0 <= k < |Paths(v, "")| ==> Points(v, Paths(v, "")[k], Preorder(v)[k])
  {
    hide Leading, Points, Paths, Preorder, Addressable;
    RootLeads(v);
    PathsLead(v, v, "");
    forall k | 0 <= k < |Paths(v, "")|
      ensures Points(v, Paths(v, "")[k], Preorder(v)[k])
    {
      LeadingPoints(v, Paths(v, "")[k], Preorder(v)[k]);
    }
  }

  lemma RootLeads(v: Value)
    ensures Leading(v, "", v)
  {
    var none: seq<PI.Name> := [];
    assert Names(none) == [] && AsSteps(Names(none)) == [] && Plain(Names(none)) == [];
    assert ToChars(Plain(Names(none))) == "" && Get(v, AsSteps(Names(none))) == Found(v);
  }
}
