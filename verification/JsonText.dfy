/**
 JSON texts as section 2 of RFC 8259 has them, put together from their tokens with any white space between, and what
 they denote. Either parser reports, of such a text, the value that was written down.
 */
module JsonText {
  import opened JsonTypes
  import opened JsonRecursive
  import JsonIterative
  import opened JsonEquivalence
  import opened JsonDocument
  import opened JsonCounts

  // ---- Texts ------------------------------------------------------------------------------------

  /** A text with all its white space; strings and numbers come with the characters that spell them. */
  datatype Doc =
    | NullText
    | TrueText
    | FalseText
    | NumberText(number: Number, text: string)
    | StringText(s: string, text: string)
    | ObjectText(space: string, members: seq<MemberText>)
    | ArrayText(space: string, elements: seq<ElementText>)

  datatype ElementText = ElementText(before: string, doc: Doc, after: string)

  datatype MemberText = MemberText(before: string, name: string, text: string, behindName: string, beforeValue: string,
                                   doc: Doc, after: string)

  function Written(d: Doc): string {
    match d
    case NullText => "null"
    case TrueText => "true"
    case FalseText => "false"
    case NumberText(_, text) => text
    case StringText(_, text) => text
    case ObjectText(space, ms) => "{" + (if ms == [] then space + "}" else WrittenMembers(ms))
    case ArrayText(space, es) => "[" + (if es == [] then space + "]" else WrittenElements(es))
  }

  /** The members and the closing bracket. */
  function WrittenMembers(ms: seq<MemberText>): string {
    if ms == [] then "}"
    else
      ms[0].before + ms[0].text + ms[0].behindName + ":" + ms[0].beforeValue + Written(ms[0].doc) + ms[0].after +
        (if |ms| == 1 then "}" else "," + WrittenMembers(ms[1..]))
  }

  /** The elements and the closing bracket. */
  function WrittenElements(es: seq<ElementText>): string {
    if es == [] then "]"
    else
      es[0].before + Written(es[0].doc) + es[0].after + (if |es| == 1 then "]" else "," + WrittenElements(es[1..]))
  }

  function Denoted(d: Doc): Value {
    match d
    case NullText => NullValue
    case TrueText => BoolValue(true)
    case FalseText => BoolValue(false)
    case NumberText(n, _) => NumberValue(n)
    case StringText(s, _) => StringValue(s)
    case ObjectText(_, ms) => ObjectValue(DenotedMembers(ms))
    case ArrayText(_, es) => ArrayValue(DenotedElements(es))
  }

  function DenotedMembers(ms: seq<MemberText>): (r: seq<Member>)
    ensures |r| == |ms|
  {
    if ms == [] then [] else [Member(ms[0].name, Denoted(ms[0].doc))] + DenotedMembers(ms[1..])
  }

  function DenotedElements(es: seq<ElementText>): (r: seq<Value>)
    ensures |r| == |es|
  {
    if es == [] then [] else [Denoted(es[0].doc)] + DenotedElements(es[1..])
  }

  // ---- Well-formed ones -------------------------------------------------------------------------

  predicate Space(s: string) {
    forall c <- s :: c == ' ' || c == '\t' || c == '\n' || c == '\r'
  }

  /** The text ends there, or white space or a delimiter comes. */
  predicate Delimited(s: string) {
    s == "" || s[0] == ' ' || s[0] == '\t' || s[0] == '\n' || s[0] == '\r' || s[0] == ',' || s[0] == ']' || s[0] == '}'
  }

  /** The characters are a string lexeme with this value, wherever they stand. */
  ghost predicate SpellsString(cfg: Config, text: string, s: string) {
    && text != "" && text[0] == '"'
    && forall a, b :: cfg.parseString(a + text + b, |a|) == Lexeme(s, |a| + |text|)
  }

  /** The characters are a number lexeme with this value, wherever they stand with nothing of a number behind them. */
  ghost predicate SpellsNumber(cfg: Config, text: string, n: Number) {
    forall a, b | Delimited(b) :: cfg.parseNumber(a + text + b, |a|) == Lexeme(n, |a| + |text|)
  }

  ghost predicate Spelled(cfg: Config, d: Doc) {
    match d
    case NumberText(n, text) => SpellsNumber(cfg, text, n)
    case StringText(s, text) => SpellsString(cfg, text, s)
    case ObjectText(space, ms) => Space(space) && SpelledMembers(cfg, ms)
    case ArrayText(space, es) => Space(space) && SpelledElements(cfg, es)
    case _ => true
  }

  ghost predicate SpelledMembers(cfg: Config, ms: seq<MemberText>) {
    ms == [] ||
    (&& Space(ms[0].before) && SpellsString(cfg, ms[0].text, ms[0].name) && Space(ms[0].behindName)
     && Space(ms[0].beforeValue) && Spelled(cfg, ms[0].doc) && Space(ms[0].after) && SpelledMembers(cfg, ms[1..]))
  }

  ghost predicate SpelledElements(cfg: Config, es: seq<ElementText>) {
    es == [] ||
    (&& Space(es[0].before) && Spelled(cfg, es[0].doc) && Space(es[0].after) && SpelledElements(cfg, es[1..]))
  }

  // ---- Places in a text -------------------------------------------------------------------------

  predicate Has(t: Text, pos: nat, s: string) {
    pos + |s| <= |t| && t[pos..pos + |s|] == s
  }

  lemma HasParts(t: Text, pos: nat, a: string, b: string)
    requires Has(t, pos, a + b)
    ensures Has(t, pos, a) && Has(t, pos + |a|, b)
  {
    var s := t[pos..pos + |a + b|];
    assert s[..|a|] == a && s[|a|..] == b;
    assert t[pos..pos + |a|] == s[..|a|] && t[pos + |a|..pos + |a| + |b|] == s[|a|..];
  }

  lemma HasFirst(t: Text, pos: nat, s: string)
    requires Has(t, pos, s) && s != ""
    ensures pos < |t| && t[pos] == s[0] && Has(t, pos + 1, s[1..])
  {
    assert t[pos] == t[pos..pos + |s|][0];
    assert t[pos + 1..pos + |s|] == t[pos..pos + |s|][1..];
  }

  lemma HasInside(t: Text, pos: nat, s: string)
    requires Has(t, pos, s)
    ensures pos + |s| <= |t|
  {
  }

  lemma HasAround(t: Text, pos: nat, s: string)
    requires Has(t, pos, s)
    ensures t == t[..pos] + s + t[pos + |s|..]
  {
  }

  /** What follows from a position on is delimited. */
  predicate DelimitedAt(t: Text, pos: nat) {
    pos <= |t| && Delimited(t[pos..])
  }

  lemma {:induction false} SpaceSkipped(t: Text, pos: nat, s: string)
    requires Has(t, pos, s) && Space(s) && !IsSpace(Peek(t, pos + |s|))
    ensures SkipSpace(t, pos) == pos + |s|
    decreases |s|
  {
    hide Has;
    if s != "" {
      HasFirst(t, pos, s);
      assert s[0] in s;
      assert Space(s[1..]) by {
        assert forall c <- s[1..] :: c in s;
      }
      SpaceSkipped(t, pos + 1, s[1..]);
    } else {
      HasInside(t, pos, s);
    }
  }

  /** Skipping takes just the white space there, with or without the flag for comments. */
  lemma GapSkipped(cfg: Config, t: Text, pos: nat, s: string, events: seq<Event>)
    requires Has(t, pos, s) && Space(s) && !IsSpace(Peek(t, pos + |s|)) && Peek(t, pos + |s|) != '/'
    ensures Skip(cfg, t, pos, events) == Ok(pos + |s|, events)
  {
    SpaceSkipped(t, pos, s);
  }

  lemma GapDelimits(t: Text, pos: nat, s: string)
    requires Has(t, pos, s) && Space(s) && DelimitedAt(t, pos + |s|)
    ensures DelimitedAt(t, pos)
  {
    if s != "" {
      HasFirst(t, pos, s);
      assert s[0] in s;
    } else {
      assert pos + |s| == pos;
    }
  }

  lemma {:induction false} WordMatched(t: Text, pos: nat, word: string)
    requires Has(t, pos, word)
    ensures Matched(t, pos, word) == |word|
    decreases |word|
  {
    hide Has;
    if word != "" {
      HasFirst(t, pos, word);
      WordMatched(t, pos + 1, word[1..]);
    }
  }

  // ---- Reading them -----------------------------------------------------------------------------

  ghost predicate AcceptsAll(cfg: Config) {
    forall events :: cfg.accepts(events)
  }

  /** A value, wherever it stands, is read to its end and reported. */
  ghost predicate ReadAt(cfg: Config, t: Text, pos: nat, events: seq<Event>, d: Doc)
    requires GoodLexers(cfg)
  {
    pos <= |t| && ParseValue(cfg, t, pos, events) == Ok(pos + |Written(d)|, events + Reported(Denoted(d)))
  }

  lemma NumberRead(cfg: Config, t: Text, pos: nat, text: string, n: Number)
    requires GoodLexers(cfg) && SpellsNumber(cfg, text, n) && Has(t, pos, text) && DelimitedAt(t, pos + |text|)
    ensures cfg.parseNumber(t, pos) == Lexeme(n, pos + |text|)
    ensures text != "" && NumberStart(Peek(t, pos))
  {
    hide Has, Delimited;
    HasInside(t, pos, text);
    HasAround(t, pos, text);
    var a, b := t[..pos], t[pos + |text|..];
    assert |a| == pos;
    assert cfg.parseNumber(a + text + b, |a|) == Lexeme(n, |a| + |text|);
  }

  lemma StringRead(cfg: Config, t: Text, pos: nat, text: string, s: string)
    requires SpellsString(cfg, text, s) && Has(t, pos, text)
    ensures pos < |t| && t[pos] == '"' && cfg.parseString(t, pos) == Lexeme(s, pos + |text|)
  {
    hide Has;
    HasInside(t, pos, text);
    HasFirst(t, pos, text);
    HasAround(t, pos, text);
    var a, b := t[..pos], t[pos + |text|..];
    assert |a| == pos;
    assert cfg.parseString(a + text + b, |a|) == Lexeme(s, |a| + |text|);
  }

  /** No value begins with white space, a slash, a closing bracket or NUL. */
  predicate Begins(c: char) {
    !IsSpace(c) && c != '/' && c != ']' && c != '}' && c != '\0'
  }

  lemma FirstCharacter(cfg: Config, t: Text, pos: nat, d: Doc)
    requires GoodLexers(cfg) && Spelled(cfg, d) && Has(t, pos, Written(d)) && DelimitedAt(t, pos + |Written(d)|)
    ensures pos < |t| && Begins(t[pos])
  {
    hide Has, GoodLexers, SpellsNumber, SpellsString, WrittenMembers, WrittenElements;
    match d
    case NumberText(n, text) =>
      NumberRead(cfg, t, pos, text, n);
      HasFirst(t, pos, text);
    case StringText(s, text) =>
      StringRead(cfg, t, pos, text, s);
    case _ =>
      HasFirst(t, pos, Written(d));
  }

  lemma ScalarRead(cfg: Config, t: Text, pos: nat, events: seq<Event>, d: Doc)
    requires GoodLexers(cfg) && AcceptsAll(cfg) && Spelled(cfg, d) && !d.ObjectText? && !d.ArrayText?
    requires Has(t, pos, Written(d)) && DelimitedAt(t, pos + |Written(d)|)
    ensures ReadAt(cfg, t, pos, events, d)
  {
    hide Has, GoodLexers, SpellsNumber, SpellsString, Matched, ParseObject, ParseArray;
    match d
    case NumberText(n, text) =>
      NumberRead(cfg, t, pos, text, n);
      HasFirst(t, pos, text);
    case StringText(s, text) =>
      StringRead(cfg, t, pos, text, s);
    case _ =>
      HasFirst(t, pos, Written(d));
      WordMatched(t, pos, Written(d));
  }

  /** From in front of the first element, behind `count` of them, to behind the bracket. */
  ghost predicate ElementsAt(cfg: Config, t: Text, pos: nat, events: seq<Event>, count: nat, es: seq<ElementText>)
    requires GoodLexers(cfg)
  {
    && pos <= |t|
    && var s := Skip(cfg, t, pos, events);
      && s.Ok? && s.events == events && s.pos < |t| && t[s.pos] != ']'
      && Elements(cfg, t, s.pos, events, count) ==
           Ok(pos + |WrittenElements(es)|,
              events + ReportedElements(DenotedElements(es)) + [EndArray(Shown(count + |es|))])
  }

  lemma ElementsSpelled(cfg: Config, es: seq<ElementText>)
    requires SpelledElements(cfg, es) && es != []
    ensures Space(es[0].before) && Spelled(cfg, es[0].doc) && Space(es[0].after) && SpelledElements(cfg, es[1..])
  {
  }

  /** What stands behind an element and its white space. */
  function ElementTail(es: seq<ElementText>): string {
    if |es| <= 1 then "]" else "," + WrittenElements(es[1..])
  }

  lemma ElementPlaces(t: Text, pos: nat, es: seq<ElementText>)
    requires es != [] && Has(t, pos, WrittenElements(es))
    ensures var p := pos + |es[0].before|;
            var q := p + |Written(es[0].doc)|;
            var r := q + |es[0].after|;
            && Has(t, pos, es[0].before) && Has(t, p, Written(es[0].doc)) && Has(t, q, es[0].after)
            && Has(t, r, ElementTail(es)) && r + |ElementTail(es)| == pos + |WrittenElements(es)|
  {
    hide Has, Written;
    var a := es[0].before + Written(es[0].doc);
    HasParts(t, pos, a + es[0].after, ElementTail(es));
    HasParts(t, pos, a, es[0].after);
    HasParts(t, pos, es[0].before, Written(es[0].doc));
  }

  lemma TailDelimits(t: Text, pos: nat, tail: string)
    requires Has(t, pos, tail) && tail != "" && (tail[0] == ',' || tail[0] == ']' || tail[0] == '}')
    ensures pos < |t| && t[pos] == tail[0] && DelimitedAt(t, pos) && Has(t, pos + 1, tail[1..])
  {
    HasFirst(t, pos, tail);
  }

  /** An element with its white space is passed. */
  lemma ElementPassed(cfg: Config, t: Text, pos: nat, events: seq<Event>, count: nat, q: nat, more: seq<Event>, r: nat)
    requires GoodLexers(cfg) && pos <= |t| && q <= |t| && ParseValue(cfg, t, pos, events) == Ok(q, more)
    requires Skip(cfg, t, q, more) == Ok(r, more)
    ensures Elements(cfg, t, pos, events, count) == AfterElement(cfg, t, r, more, Increment(count))
  {
    hide GoodLexers, ParseValue, Skip, AfterElement;
  }

  lemma ElementsEnd(cfg: Config, t: Text, pos: nat, events: seq<Event>, count: nat)
    requires GoodLexers(cfg) && AcceptsAll(cfg) && pos < |t| && t[pos] == ']'
    ensures AfterElement(cfg, t, pos, events, count) == Ok(pos + 1, events + [EndArray(count)])
  {
    hide GoodLexers;
  }

  lemma ElementsGoOn(cfg: Config, t: Text, pos: nat, events: seq<Event>, count: nat, p: nat)
    requires GoodLexers(cfg) && pos < |t| && t[pos] == ',' && p < |t| && t[p] != ']'
    requires Skip(cfg, t, pos + 1, events) == Ok(p, events)
    ensures AfterElement(cfg, t, pos, events, count) == Elements(cfg, t, p, events, count)
  {
    hide GoodLexers, Skip, Elements;
  }

  lemma {:induction false} ElementsRead(cfg: Config, t: Text, pos: nat, events: seq<Event>, count: nat,
                                        es: seq<ElementText>)
    requires GoodLexers(cfg) && AcceptsAll(cfg) && SpelledElements(cfg, es) && es != [] && count < SIZE_LIMIT
    requires Has(t, pos, WrittenElements(es))
    ensures ElementsAt(cfg, t, pos, events, count, es)
    decreases es, 1
  {
    hide Has, GoodLexers, SpelledElements, Spelled, Denoted, Written, WrittenElements, Elements, AfterElement,
      ParseValue, Skip;
    hide DelimitedAt, Shown, Increment, Space;
    var p := pos + |es[0].before|;
    var r := p + |Written(es[0].doc)| + |es[0].after|;
    ElementPlaces(t, pos, es);
    TailDelimits(t, r, ElementTail(es));
    ElementsSpelled(cfg, es);
    FirstElementRead(cfg, t, pos, events, count, es);
    ElementsReported(events, count, es);
    var more := events + Reported(Denoted(es[0].doc));
    if |es| == 1 {
      ElementsEnd(cfg, t, r, more, Increment(count));
    } else {
      assert ElementTail(es)[1..] == WrittenElements(es[1..]);
      IncrementFits(count);
      ElementsRead(cfg, t, r + 1, more, Increment(count), es[1..]);
      ElementsGoOn(cfg, t, r, more, Increment(count), Skip(cfg, t, r + 1, more).pos);
    }
  }

  /** A value with the white space behind it, up to a delimiter. */
  lemma {:induction false} ValueAndGapRead(cfg: Config, t: Text, p: nat, events: seq<Event>, d: Doc, gap: string,
                                           tail: string)
    requires GoodLexers(cfg) && AcceptsAll(cfg) && Spelled(cfg, d) && Space(gap)
    requires Has(t, p, Written(d)) && Has(t, p + |Written(d)|, gap) && Has(t, p + |Written(d)| + |gap|, tail)
    requires tail != "" && (tail[0] == ',' || tail[0] == ']' || tail[0] == '}')
    ensures var q, more := p + |Written(d)|, events + Reported(Denoted(d));
            && p < |t| && Begins(t[p]) && q <= |t| && ParseValue(cfg, t, p, events) == Ok(q, more)
            && q + |gap| < |t| && t[q + |gap|] == tail[0] && Skip(cfg, t, q, more) == Ok(q + |gap|, more)
    decreases d, 2
  {
    hide Has, GoodLexers, AcceptsAll, Spelled, Denoted, Written, Reported, ParseValue, Skip, DelimitedAt, Space;
    var q := p + |Written(d)|;
    TailDelimits(t, q + |gap|, tail);
    HasInside(t, q, gap);
    GapDelimits(t, q, gap);
    FirstCharacter(cfg, t, p, d);
    ValueRead(cfg, t, p, events, d);
    GapSkipped(cfg, t, q, gap, events + Reported(Denoted(d)));
  }

  /** The first element is read to what stands behind it. */
  lemma {:induction false} FirstElementRead(cfg: Config, t: Text, pos: nat, events: seq<Event>, count: nat,
                                            es: seq<ElementText>)
    requires GoodLexers(cfg) && AcceptsAll(cfg) && SpelledElements(cfg, es) && es != []
    requires Has(t, pos, WrittenElements(es))
    ensures var p := pos + |es[0].before|;
            var r := p + |Written(es[0].doc)| + |es[0].after|;
            && pos <= |t| && p < |t| && t[p] != ']' && r < |t| && Skip(cfg, t, pos, events) == Ok(p, events)
            && Elements(cfg, t, p, events, count) ==
                 AfterElement(cfg, t, r, events + Reported(Denoted(es[0].doc)), Increment(count))
    decreases es, 0
  {
    hide Has, GoodLexers, SpelledElements, Spelled, Denoted, Written, WrittenElements, Elements, AfterElement,
      ParseValue, Skip;
    hide DelimitedAt, Increment, Space;
    var e := es[0];
    var p := pos + |e.before|;
    var q := p + |Written(e.doc)|;
    var r := q + |e.after|;
    var more := events + Reported(Denoted(e.doc));
    ElementPlaces(t, pos, es);
    ElementsSpelled(cfg, es);
    HasInside(t, pos, e.before);
    ValueAndGapRead(cfg, t, p, events, e.doc, e.after, ElementTail(es));
    GapSkipped(cfg, t, pos, e.before, events);
    ElementPassed(cfg, t, p, events, count, q, more, r);
  }

  lemma IncrementFits(count: nat)
    ensures Increment(count) < SIZE_LIMIT
  {
  }

  /** The events of the elements and the count of them, one by one. */
  lemma ElementsReported(events: seq<Event>, count: nat, es: seq<ElementText>)
    requires es != []
    ensures var more, rest := events + Reported(Denoted(es[0].doc)), es[1..];
            && events + ReportedElements(DenotedElements(es)) + [EndArray(Shown(count + |es|))] ==
                 more + ReportedElements(DenotedElements(rest)) + [EndArray(Shown(Increment(count) + |rest|))]
            && (rest == [] ==> events + ReportedElements(DenotedElements(es)) + [EndArray(Shown(count + |es|))] ==
                                 more + [EndArray(Increment(count))])
  {
    hide Denoted, Reported, ReportedElements, DenotedElements, Shown, Increment;
    var v, vs := Denoted(es[0].doc), DenotedElements(es[1..]);
    ShownNext(count, |es[1..]|);
    ShownOnce(count);
    FirstElement(es);
    NothingReported();
    Grouped(events, Reported(v), ReportedElements(vs), [EndArray(Shown(count + |es|))]);
  }

  lemma FirstElement(es: seq<ElementText>)
    requires es != []
    ensures ReportedElements(DenotedElements(es)) ==
            Reported(Denoted(es[0].doc)) + ReportedElements(DenotedElements(es[1..]))
  {
    hide Denoted, Reported;
    var v, vs := Denoted(es[0].doc), DenotedElements(es[1..]);
    assert DenotedElements(es) == [v] + vs && ([v] + vs)[1..] == vs;
  }

  lemma Grouped<T>(a: seq<T>, b: seq<T>, c: seq<T>, d: seq<T>)
    ensures a + (b + c) + d == a + b + c + d
    ensures c == [] ==> a + (b + c) + d == a + b + d
  {
  }

  lemma ShownOnce(count: nat)
    ensures Shown(count + 1) == Increment(count)
  {
  }

  lemma {:induction false} ValueRead(cfg: Config, t: Text, pos: nat, events: seq<Event>, d: Doc)
    requires GoodLexers(cfg) && AcceptsAll(cfg) && Spelled(cfg, d)
    requires Has(t, pos, Written(d)) && DelimitedAt(t, pos + |Written(d)|)
    ensures ReadAt(cfg, t, pos, events, d)
    decreases d, 1
  {
    hide Has, GoodLexers, DelimitedAt, ReadAt;
    match d
    case ArrayText(space, es) =>
      ArrayRead(cfg, t, pos, events, d);
    case ObjectText(space, ms) =>
      ObjectRead(cfg, t, pos, events, d);
    case _ =>
      ScalarRead(cfg, t, pos, events, d);
  }

  lemma ArrayBegun(cfg: Config, t: Text, pos: nat, events: seq<Event>, p: nat)
    requires GoodLexers(cfg) && AcceptsAll(cfg) && pos < |t| && t[pos] == '[' && p < |t|
    requires Skip(cfg, t, pos + 1, events + [StartArray]) == Ok(p, events + [StartArray])
    ensures ParseValue(cfg, t, pos, events) ==
            if t[p] == ']' then Ok(p + 1, events + [StartArray] + [EndArray(0)])
            else Elements(cfg, t, p, events + [StartArray], 0)
  {
    hide GoodLexers, Skip, Elements;
  }

  lemma EmptyArrayRead(cfg: Config, t: Text, pos: nat, events: seq<Event>, d: Doc)
    requires GoodLexers(cfg) && AcceptsAll(cfg) && d.ArrayText? && d.elements == [] && Space(d.space)
    requires Has(t, pos, Written(d))
    ensures ReadAt(cfg, t, pos, events, d)
  {
    hide Has, GoodLexers, ParseValue, Elements, Skip, Denoted, Reported, Space;
    var begun := events + [StartArray];
    assert Written(d) == "[" + (d.space + "]");
    HasParts(t, pos, "[", d.space + "]");
    HasParts(t, pos + 1, d.space, "]");
    HasFirst(t, pos, "[");
    HasFirst(t, pos + 1 + |d.space|, "]");
    GapSkipped(cfg, t, pos + 1, d.space, begun);
    ArrayBegun(cfg, t, pos, events, pos + 1 + |d.space|);
    ArrayReports(events, d);
  }

  lemma {:induction false} ArrayRead(cfg: Config, t: Text, pos: nat, events: seq<Event>, d: Doc)
    requires GoodLexers(cfg) && AcceptsAll(cfg) && Spelled(cfg, d) && d.ArrayText?
    requires Has(t, pos, Written(d))
    ensures ReadAt(cfg, t, pos, events, d)
    decreases d, 0
  {
    hide Has, GoodLexers, ParseValue, Elements, Skip, WrittenElements, SpelledElements, DenotedElements, Space;
    hide ReportedElements, Denoted, Reported, Shown;
    var es, begun := d.elements, events + [StartArray];
    if es == [] {
      EmptyArrayRead(cfg, t, pos, events, d);
    } else {
      HasParts(t, pos, "[", WrittenElements(es));
      HasFirst(t, pos, "[");
      ElementsRead(cfg, t, pos + 1, begun, 0, es);
      ArrayBegun(cfg, t, pos, events, Skip(cfg, t, pos + 1, begun).pos);
      ArrayReports(events, d);
    }
  }

  lemma ArrayReports(events: seq<Event>, d: Doc)
    requires d.ArrayText?
    ensures events + Reported(Denoted(d)) ==
            events + [StartArray] + ReportedElements(DenotedElements(d.elements)) + [EndArray(Shown(|d.elements|))]
    ensures d.elements == [] ==> events + Reported(Denoted(d)) == events + [StartArray] + [EndArray(0)]
  {
    hide ReportedElements, DenotedElements, Shown;
    NothingReported();
    var inner := ReportedElements(DenotedElements(d.elements));
    assert Reported(Denoted(d)) == [StartArray] + inner + [EndArray(Shown(|d.elements|))];
    Joined(events, [StartArray] + inner, [EndArray(Shown(|d.elements|))]);
    Joined(events, [StartArray], inner);
    assert inner == [] ==> events + [StartArray] + inner == events + [StartArray];
  }

  lemma ObjectReports(events: seq<Event>, d: Doc)
    requires d.ObjectText?
    ensures events + Reported(Denoted(d)) ==
            events + [StartObject] + ReportedMembers(DenotedMembers(d.members)) + [EndObject(Shown(|d.members|))]
    ensures d.members == [] ==> events + Reported(Denoted(d)) == events + [StartObject] + [EndObject(0)]
  {
    hide ReportedMembers, DenotedMembers, Shown;
    NothingReported();
    var inner := ReportedMembers(DenotedMembers(d.members));
    assert Reported(Denoted(d)) == [StartObject] + inner + [EndObject(Shown(|d.members|))];
    Joined(events, [StartObject] + inner, [EndObject(Shown(|d.members|))]);
    Joined(events, [StartObject], inner);
    assert inner == [] ==> events + [StartObject] + inner == events + [StartObject];
  }

  lemma NothingReported()
    ensures DenotedElements([]) == [] && ReportedElements([]) == [] && DenotedMembers([]) == [] &&
            ReportedMembers([]) == [] && Shown(0) == 0
  {
  }

  // ---- Members ----------------------------------------------------------------------------------

  ghost predicate MembersAt(cfg: Config, t: Text, pos: nat, events: seq<Event>, count: nat, ms: seq<MemberText>)
    requires GoodLexers(cfg)
  {
    && pos <= |t|
    && var s := Skip(cfg, t, pos, events);
      && s.Ok? && s.events == events && s.pos < |t| && t[s.pos] == '"'
      && Members(cfg, t, s.pos, events, count) ==
           Ok(pos + |WrittenMembers(ms)|,
              events + ReportedMembers(DenotedMembers(ms)) + [EndObject(Shown(count + |ms|))])
  }

  lemma MembersSpelled(cfg: Config, ms: seq<MemberText>)
    requires SpelledMembers(cfg, ms) && ms != []
    ensures Space(ms[0].before) && SpellsString(cfg, ms[0].text, ms[0].name) && Space(ms[0].behindName)
    ensures Space(ms[0].beforeValue) && Spelled(cfg, ms[0].doc) && Space(ms[0].after) && SpelledMembers(cfg, ms[1..])
  {
  }

  /** What stands behind a member and its white space. */
  function MemberTail(ms: seq<MemberText>): string {
    if |ms| <= 1 then "}" else "," + WrittenMembers(ms[1..])
  }

  /** Where the parts of the first member are: name, colon, value, and what follows. */
  datatype Places = Places(name: nat, behindName: nat, colon: nat, value: nat, behindValue: nat, tail: nat)

  function PlacesOf(pos: nat, m: MemberText): Places {
    var name := pos + |m.before|;
    var behindName := name + |m.text|;
    var colon := behindName + |m.behindName|;
    var value := colon + 1 + |m.beforeValue|;
    var behindValue := value + |Written(m.doc)|;
    Places(name, behindName, colon, value, behindValue, behindValue + |m.after|)
  }

  lemma MemberPlaces(t: Text, pos: nat, ms: seq<MemberText>)
    requires ms != [] && Has(t, pos, WrittenMembers(ms))
    ensures var m, l := ms[0], PlacesOf(pos, ms[0]);
            && Has(t, pos, m.before) && Has(t, l.name, m.text) && Has(t, l.behindName, m.behindName)
            && Has(t, l.colon, ":") && Has(t, l.colon + 1, m.beforeValue) && Has(t, l.value, Written(m.doc))
            && Has(t, l.behindValue, m.after) && Has(t, l.tail, MemberTail(ms))
            && l.tail + |MemberTail(ms)| == pos + |WrittenMembers(ms)|
  {
    hide Has, Written;
    var m := ms[0];
    var a := m.before + m.text + m.behindName;
    var b := a + ":" + m.beforeValue + Written(m.doc);
    HasParts(t, pos, b + m.after, MemberTail(ms));
    HasParts(t, pos, b, m.after);
    HasParts(t, pos, a + ":" + m.beforeValue, Written(m.doc));
    HasParts(t, pos, a + ":", m.beforeValue);
    HasParts(t, pos, a, ":");
    HasParts(t, pos, m.before + m.text, m.behindName);
    HasParts(t, pos, m.before, m.text);
  }

  /** A member with its white space is passed. */
  lemma MemberPassed(cfg: Config, t: Text, pos: nat, events: seq<Event>, count: nat, name: string, a: nat, b: nat,
                     p: nat, q: nat, more: seq<Event>, r: nat)
    requires GoodLexers(cfg) && AcceptsAll(cfg) && pos < |t| && t[pos] == '"'
    requires cfg.parseString(t, pos) == Lexeme(name, a) && a <= |t|
    requires Skip(cfg, t, a, events + [Key(name)]) == Ok(b, events + [Key(name)]) && b < |t| && t[b] == ':'
    requires Skip(cfg, t, b + 1, events + [Key(name)]) == Ok(p, events + [Key(name)])
    requires ParseValue(cfg, t, p, events + [Key(name)]) == Ok(q, more) && q <= |t|
    requires Skip(cfg, t, q, more) == Ok(r, more)
    ensures Members(cfg, t, pos, events, count) == AfterMember(cfg, t, r, more, Increment(count))
  {
    hide GoodLexers, ParseValue, Skip, AfterMember;
  }

  lemma MembersEnd(cfg: Config, t: Text, pos: nat, events: seq<Event>, count: nat)
    requires GoodLexers(cfg) && AcceptsAll(cfg) && pos < |t| && t[pos] == '}'
    ensures AfterMember(cfg, t, pos, events, count) == Ok(pos + 1, events + [EndObject(count)])
  {
    hide GoodLexers;
  }

  lemma MembersGoOn(cfg: Config, t: Text, pos: nat, events: seq<Event>, count: nat, p: nat)
    requires GoodLexers(cfg) && pos < |t| && t[pos] == ',' && p < |t| && t[p] == '"'
    requires Skip(cfg, t, pos + 1, events) == Ok(p, events)
    ensures AfterMember(cfg, t, pos, events, count) == Members(cfg, t, p, events, count)
  {
    hide GoodLexers, Skip, Members;
  }

  lemma {:induction false} MembersRead(cfg: Config, t: Text, pos: nat, events: seq<Event>, count: nat,
                                       ms: seq<MemberText>)
    requires GoodLexers(cfg) && AcceptsAll(cfg) && SpelledMembers(cfg, ms) && ms != [] && count < SIZE_LIMIT
    requires Has(t, pos, WrittenMembers(ms))
    ensures MembersAt(cfg, t, pos, events, count, ms)
    decreases ms, 2
  {
    hide Has, GoodLexers, SpelledMembers, Spelled, Denoted, Written, WrittenMembers, Members, AfterMember, ParseValue,
      Skip;
    hide DelimitedAt, Shown, Increment, Space, SpellsString, PlacesOf;
    var rest, l := ms[1..], PlacesOf(pos, ms[0]);
    MemberPlaces(t, pos, ms);
    TailDelimits(t, l.tail, MemberTail(ms));
    MembersSpelled(cfg, ms);
    FirstMemberRead(cfg, t, pos, events, count, ms);
    MembersReported(events, count, ms);
    var more := events + [Key(ms[0].name)] + Reported(Denoted(ms[0].doc));
    if |ms| == 1 {
      MembersEnd(cfg, t, l.tail, more, Increment(count));
    } else {
      assert MemberTail(ms)[1..] == WrittenMembers(rest);
      IncrementFits(count);
      MembersRead(cfg, t, l.tail + 1, more, Increment(count), rest);
      MembersGoOn(cfg, t, l.tail, more, Increment(count), Skip(cfg, t, l.tail + 1, more).pos);
    }
  }

  /** The first member is read to what stands behind it. */
  lemma {:induction false} FirstMemberRead(cfg: Config, t: Text, pos: nat, events: seq<Event>, count: nat,
                                           ms: seq<MemberText>)
    requires GoodLexers(cfg) && AcceptsAll(cfg) && SpelledMembers(cfg, ms) && ms != []
    requires Has(t, pos, WrittenMembers(ms))
    ensures var l := PlacesOf(pos, ms[0]);
            && pos <= |t| && l.name < |t| && t[l.name] == '"' && l.tail < |t|
            && Skip(cfg, t, pos, events) == Ok(l.name, events)
            && Members(cfg, t, l.name, events, count) ==
                 AfterMember(cfg, t, l.tail, events + [Key(ms[0].name)] + Reported(Denoted(ms[0].doc)),
                             Increment(count))
    decreases ms, 1
  {
    hide Has, GoodLexers, SpelledMembers, Spelled, Denoted, Written, WrittenMembers, Members, AfterMember, ParseValue,
      Skip;
    hide DelimitedAt, Increment, Space, SpellsString;
    var m, l, named := ms[0], PlacesOf(pos, ms[0]), events + [Key(ms[0].name)];
    var more := named + Reported(Denoted(m.doc));
    NameRead(cfg, t, pos, events, ms);
    MemberValueRead(cfg, t, pos, named, ms);
    MemberPassed(cfg, t, l.name, events, count, m.name, l.behindName, l.colon, l.value, l.behindValue, more, l.tail);
  }

  lemma NameRead(cfg: Config, t: Text, pos: nat, events: seq<Event>, ms: seq<MemberText>)
    requires GoodLexers(cfg) && SpelledMembers(cfg, ms) && ms != [] && Has(t, pos, WrittenMembers(ms))
    ensures var l, named := PlacesOf(pos, ms[0]), events + [Key(ms[0].name)];
            && pos <= |t| && l.name < |t| && t[l.name] == '"' && l.behindName <= |t|
            && Skip(cfg, t, pos, events) == Ok(l.name, events)
            && cfg.parseString(t, l.name) == Lexeme(ms[0].name, l.behindName)
            && l.colon < |t| && t[l.colon] == ':' && Skip(cfg, t, l.behindName, named) == Ok(l.colon, named)
  {
    hide Has, GoodLexers, SpelledMembers, Spelled, Written, WrittenMembers, Skip, Space, SpellsString;
    var m, l, named := ms[0], PlacesOf(pos, ms[0]), events + [Key(ms[0].name)];
    MemberPlaces(t, pos, ms);
    MembersSpelled(cfg, ms);
    HasInside(t, pos, m.before);
    HasInside(t, l.name, m.text);
    StringRead(cfg, t, l.name, m.text, m.name);
    HasFirst(t, l.colon, ":");
    GapSkipped(cfg, t, pos, m.before, events);
    GapSkipped(cfg, t, l.behindName, m.behindName, named);
  }

  lemma {:induction false} MemberValueRead(cfg: Config, t: Text, pos: nat, named: seq<Event>, ms: seq<MemberText>)
    requires GoodLexers(cfg) && AcceptsAll(cfg) && SpelledMembers(cfg, ms) && ms != []
    requires Has(t, pos, WrittenMembers(ms))
    ensures var l, more := PlacesOf(pos, ms[0]), named + Reported(Denoted(ms[0].doc));
            && l.colon < |t| && Skip(cfg, t, l.colon + 1, named) == Ok(l.value, named) && l.value <= |t|
            && ParseValue(cfg, t, l.value, named) == Ok(l.behindValue, more) && l.behindValue <= |t|
            && Skip(cfg, t, l.behindValue, more) == Ok(l.tail, more) && l.tail < |t|
    decreases ms, 0
  {
    hide Has, GoodLexers, SpelledMembers, Spelled, Denoted, Written, WrittenMembers, ParseValue, Skip;
    hide DelimitedAt, Space, SpellsString;
    var m, l := ms[0], PlacesOf(pos, ms[0]);
    var more := named + Reported(Denoted(m.doc));
    MemberPlaces(t, pos, ms);
    MembersSpelled(cfg, ms);
    HasFirst(t, l.colon, ":");
    ValueAndGapRead(cfg, t, l.value, named, m.doc, m.after, MemberTail(ms));
    GapSkipped(cfg, t, l.colon + 1, m.beforeValue, named);
  }

  lemma MembersReported(events: seq<Event>, count: nat, ms: seq<MemberText>)
    requires ms != []
    ensures var more, rest := events + [Key(ms[0].name)] + Reported(Denoted(ms[0].doc)), ms[1..];
            && events + ReportedMembers(DenotedMembers(ms)) + [EndObject(Shown(count + |ms|))] ==
                 more + ReportedMembers(DenotedMembers(rest)) + [EndObject(Shown(Increment(count) + |rest|))]
            && (rest == [] ==> events + ReportedMembers(DenotedMembers(ms)) + [EndObject(Shown(count + |ms|))] ==
                                 more + [EndObject(Increment(count))])
  {
    hide Denoted, Reported, ReportedMembers, DenotedMembers, Shown, Increment;
    var v, vs := Denoted(ms[0].doc), DenotedMembers(ms[1..]);
    ShownNext(count, |ms[1..]|);
    ShownOnce(count);
    FirstMember(ms);
    NothingReported();
    Grouped(events, [Key(ms[0].name)] + Reported(v), ReportedMembers(vs), [EndObject(Shown(count + |ms|))]);
    Joined(events, [Key(ms[0].name)], Reported(v));
  }

  lemma FirstMember(ms: seq<MemberText>)
    requires ms != []
    ensures ReportedMembers(DenotedMembers(ms)) ==
            [Key(ms[0].name)] + Reported(Denoted(ms[0].doc)) + ReportedMembers(DenotedMembers(ms[1..]))
  {
    hide Denoted, Reported;
    var m, vs := Member(ms[0].name, Denoted(ms[0].doc)), DenotedMembers(ms[1..]);
    assert DenotedMembers(ms) == [m] + vs && ([m] + vs)[1..] == vs;
  }

  lemma Joined<T>(a: seq<T>, b: seq<T>, c: seq<T>)
    ensures a + (b + c) == a + b + c
  {
  }

  lemma ObjectBegun(cfg: Config, t: Text, pos: nat, events: seq<Event>, p: nat)
    requires GoodLexers(cfg) && AcceptsAll(cfg) && pos < |t| && t[pos] == '{' && p < |t|
    requires Skip(cfg, t, pos + 1, events + [StartObject]) == Ok(p, events + [StartObject])
    ensures ParseValue(cfg, t, pos, events) ==
            if t[p] == '}' then Ok(p + 1, events + [StartObject] + [EndObject(0)])
            else Members(cfg, t, p, events + [StartObject], 0)
  {
    hide GoodLexers, Skip, Members;
  }

  lemma EmptyObjectRead(cfg: Config, t: Text, pos: nat, events: seq<Event>, d: Doc)
    requires GoodLexers(cfg) && AcceptsAll(cfg) && d.ObjectText? && d.members == [] && Space(d.space)
    requires Has(t, pos, Written(d))
    ensures ReadAt(cfg, t, pos, events, d)
  {
    hide Has, GoodLexers, ParseValue, Members, Skip, Denoted, Reported, Space;
    var begun := events + [StartObject];
    assert Written(d) == "{" + (d.space + "}");
    HasParts(t, pos, "{", d.space + "}");
    HasParts(t, pos + 1, d.space, "}");
    HasFirst(t, pos, "{");
    HasFirst(t, pos + 1 + |d.space|, "}");
    GapSkipped(cfg, t, pos + 1, d.space, begun);
    ObjectBegun(cfg, t, pos, events, pos + 1 + |d.space|);
    ObjectReports(events, d);
  }

  lemma {:induction false} ObjectRead(cfg: Config, t: Text, pos: nat, events: seq<Event>, d: Doc)
    requires GoodLexers(cfg) && AcceptsAll(cfg) && Spelled(cfg, d) && d.ObjectText?
    requires Has(t, pos, Written(d))
    ensures ReadAt(cfg, t, pos, events, d)
    decreases d, 0
  {
    hide Has, GoodLexers, ParseValue, Members, Skip, WrittenMembers, SpelledMembers, DenotedMembers, Space;
    hide ReportedMembers, Denoted, Reported, Shown;
    var ms, begun := d.members, events + [StartObject];
    if ms == [] {
      EmptyObjectRead(cfg, t, pos, events, d);
    } else {
      HasParts(t, pos, "{", WrittenMembers(ms));
      HasFirst(t, pos, "{");
      MembersRead(cfg, t, pos + 1, begun, 0, ms);
      ObjectBegun(cfg, t, pos, events, Skip(cfg, t, pos + 1, begun).pos);
      ObjectReports(events, d);
    }
  }

  // ---- Documents --------------------------------------------------------------------------------

  /**
   Either parser, given such a text with a handler that accepts everything, stops behind the value, or behind the white
   space that follows it, and has reported the value; a document holds just that value exactly if its counts fit 32
   bits.
   */
  lemma DocumentRead(cfg: Config, before: string, d: Doc, after: string)
    requires GoodLexers(cfg) && AcceptsAll(cfg) && Spelled(cfg, d) && Space(before) && Space(after)
    ensures var t := before + Written(d) + after;
            var end := if cfg.stopWhenDone then |before| + |Written(d)| else |t|;
            ParseDocument(cfg, t) == JsonIterative.IterativeParse(cfg, t) == Ok(end, Reported(Denoted(d)))
    ensures Replayed([], Reported(Denoted(d))) == Stacked([Denoted(d)]) <==> CountsFit(Denoted(d))
  {
    hide GoodLexers, AcceptsAll, Space, Spelled, Written, Denoted, Reported, ParseDocument, Remains, Surplus;
    hide JsonIterative.IterativeParse, CountsFit, Replayed, OffsetsAgree, StrayFirst;
    var t, v := before + Written(d) + after, Denoted(d);
    WholeRead(cfg, before, d, after);
    ParsersAgree(cfg, t);
    ReplayReported([], v, []);
    assert Reported(v) + [] == Reported(v) && [] + Remains(v) == Remains(v);
    NothingLeft(Remains(v));
    FitLeavesOne(v);
  }

  lemma WholeRead(cfg: Config, before: string, d: Doc, after: string)
    requires GoodLexers(cfg) && AcceptsAll(cfg) && Spelled(cfg, d) && Space(before) && Space(after)
    ensures var t := before + Written(d) + after;
            var end := if cfg.stopWhenDone then |before| + |Written(d)| else |t|;
            ParseDocument(cfg, t) == Ok(end, Reported(Denoted(d)))
  {
    hide Has, GoodLexers, Space, Spelled, Written, Denoted, Reported, ParseDocument, ParseValue, Skip, DelimitedAt,
      IsSpace;
    var t, v := before + Written(d) + after, Denoted(d);
    var p := |before|;
    var q := p + |Written(d)|;
    WholeHas(t);
    HasParts(t, 0, before + Written(d), after);
    HasParts(t, 0, before, Written(d));
    EndDelimits(t);
    GapDelimits(t, q, after);
    FirstCharacter(cfg, t, p, d);
    NoSpace();
    GapSkipped(cfg, t, 0, before, []);
    ValueRead(cfg, t, p, [], d);
    assert [] + Reported(v) == Reported(v);
    GapSkipped(cfg, t, q, after, Reported(v));
    DocumentParts(cfg, t, p, q, Reported(v));
  }

  lemma DocumentParts(cfg: Config, t: Text, p: nat, q: nat, events: seq<Event>)
    requires GoodLexers(cfg) && p < |t| && t[p] != '\0' && q <= |t| && Skip(cfg, t, 0, []) == Ok(p, [])
    requires ParseValue(cfg, t, p, []) == Ok(q, events) && Skip(cfg, t, q, events) == Ok(|t|, events)
    ensures ParseDocument(cfg, t) == Ok(if cfg.stopWhenDone then q else |t|, events)
  {
    hide GoodLexers, ParseValue, Skip;
  }

  lemma WholeHas(t: Text)
    ensures Has(t, 0, t)
  {
  }

  lemma EndDelimits(t: Text)
    ensures DelimitedAt(t, |t|) && Peek(t, |t|) == '\0'
  {
  }

  lemma NoSpace()
    ensures !IsSpace('\0')
  {
  }

  lemma NothingLeft(stack: Stack)
    ensures Replayed(stack, []) == Stacked(stack)
  {
  }
}
