/**
 The converse of reading what was written: whatever either parser accepts, without comments and trailing commas, is a
 text of the grammar, and its events are those of the value it denotes.
 */
module JsonGrammar {
  import opened JsonTypes
  import opened JsonRecursive
  import JsonIterative
  import JsonEquivalence
  import opened JsonCounts
  import opened JsonText

  // ---- Texts within a text ----------------------------------------------------------------------

  /** Somewhere in the text these characters are a string lexeme with this value. */
  ghost predicate StringFound(cfg: Config, t: Text, text: string, s: string) {
    exists q: nat {:trigger cfg.parseString(t, q)} ::
      q < |t| && t[q] == '"' && Has(t, q, text) && cfg.parseString(t, q) == Lexeme(s, q + |text|)
  }

  ghost predicate NumberFound(cfg: Config, t: Text, text: string, n: Number) {
    exists q: nat {:trigger cfg.parseNumber(t, q)} :: Has(t, q, text) && cfg.parseNumber(t, q) == Lexeme(n, q + |text|)
  }

  /** White space between the tokens, and lexemes that are in the text. */
  ghost predicate Drawn(cfg: Config, t: Text, d: Doc) {
    match d
    case NumberText(n, text) => NumberFound(cfg, t, text, n)
    case StringText(s, text) => StringFound(cfg, t, text, s)
    case ObjectText(space, ms) => Space(space) && DrawnMembers(cfg, t, ms)
    case ArrayText(space, es) => Space(space) && DrawnElements(cfg, t, es)
    case _ => true
  }

  ghost predicate DrawnMembers(cfg: Config, t: Text, ms: seq<MemberText>) {
    ms == [] ||
    (&& Space(ms[0].before) && StringFound(cfg, t, ms[0].text, ms[0].name) && Space(ms[0].behindName)
     && Space(ms[0].beforeValue) && Drawn(cfg, t, ms[0].doc) && Space(ms[0].after) && DrawnMembers(cfg, t, ms[1..]))
  }

  ghost predicate DrawnElements(cfg: Config, t: Text, es: seq<ElementText>) {
    es == [] ||
    (&& Space(es[0].before) && Drawn(cfg, t, es[0].doc) && Space(es[0].after) && DrawnElements(cfg, t, es[1..]))
  }

  /** The flags for texts beyond the grammar are off. */
  predicate Strict(cfg: Config) {
    !cfg.comments && !cfg.trailingCommas
  }

  // ---- Places -----------------------------------------------------------------------------------

  lemma HasBoth(t: Text, pos: nat, a: string, b: string)
    requires Has(t, pos, a) && Has(t, pos + |a|, b)
    ensures Has(t, pos, a + b)
  {
    assert t[pos..pos + |a + b|] == t[pos..pos + |a|] + t[pos + |a|..pos + |a| + |b|];
  }

  lemma HasCut(t: Text, pos: nat, end: nat)
    requires pos <= end <= |t|
    ensures Has(t, pos, t[pos..end])
  {
  }

  lemma HasOne(t: Text, pos: nat)
    requires pos < |t|
    ensures Has(t, pos, [t[pos]])
  {
    assert t[pos..pos + 1] == [t[pos]];
  }

  lemma {:induction false} SkippedIsSpace(t: Text, pos: nat)
    requires pos <= |t|
    ensures Space(t[pos..SkipSpace(t, pos)])
    decreases |t| - pos
  {
    if pos < |t| && IsSpace(t[pos]) {
      SkippedIsSpace(t, pos + 1);
      assert t[pos..SkipSpace(t, pos)] == [t[pos]] + t[pos + 1..SkipSpace(t, pos + 1)];
    }
  }

  /** What is skipped is white space. */
  lemma GapDrawn(cfg: Config, t: Text, pos: nat, events: seq<Event>) returns (gap: string)
    requires pos <= |t| && Strict(cfg)
    ensures Skip(cfg, t, pos, events) == Ok(pos + |gap|, events) && pos + |gap| <= |t|
    ensures Has(t, pos, gap) && Space(gap)
  {
    gap := t[pos..SkipSpace(t, pos)];
    SkippedIsSpace(t, pos);
  }

  lemma {:induction false} MatchedIsWord(t: Text, pos: nat, word: string)
    requires pos <= |t| && Matched(t, pos, word) == |word|
    ensures Has(t, pos, word)
    decreases |word|
  {
    if word != "" {
      MatchedIsWord(t, pos + 1, word[1..]);
      HasOne(t, pos);
      assert word == [t[pos]] + word[1..];
      HasBoth(t, pos, [t[pos]], word[1..]);
    }
  }

  // ---- Values -----------------------------------------------------------------------------------

  /** A value was taken from a place to the end of it, and reported. */
  predicate TakenFrom(t: Text, pos: nat, events: seq<Event>, d: Doc, r: Result) {
    Has(t, pos, Written(d)) && r == Ok(pos + |Written(d)|, events + Reported(Denoted(d)))
  }

  lemma WordDrawn(cfg: Config, t: Text, pos: nat, events: seq<Event>, word: string, e: Event)
    requires pos <= |t| && |word| > 0 && ParseWord(cfg, t, pos, events, word, e).Ok?
    ensures Has(t, pos, word) && ParseWord(cfg, t, pos, events, word, e) == Ok(pos + |word|, events + [e])
  {
    MatchedIsWord(t, pos, word);
  }

  lemma ScalarDrawn(cfg: Config, t: Text, pos: nat, events: seq<Event>) returns (d: Doc)
    requires GoodLexers(cfg) && pos <= |t| && ParseScalar(cfg, t, pos, events).Ok?
    ensures Drawn(cfg, t, d) && TakenFrom(t, pos, events, d, ParseScalar(cfg, t, pos, events))
  {
    hide GoodLexers, Matched, Has;
    var c := Peek(t, pos);
    if c == 'n' {
      WordDrawn(cfg, t, pos, events, "null", Null);
      d := NullText;
    } else if c == 't' {
      WordDrawn(cfg, t, pos, events, "true", Bool(true));
      d := TrueText;
    } else if c == 'f' {
      WordDrawn(cfg, t, pos, events, "false", Bool(false));
      d := FalseText;
    } else if c == '"' {
      d := StringDrawn(cfg, t, pos);
    } else {
      d := NumberDrawn(cfg, t, pos);
    }
  }

  lemma StringDrawn(cfg: Config, t: Text, pos: nat) returns (d: Doc)
    requires GoodLexers(cfg) && pos < |t| && t[pos] == '"' && cfg.parseString(t, pos).Lexeme?
    ensures d.StringText? && Drawn(cfg, t, d) && Has(t, pos, d.text)
    ensures cfg.parseString(t, pos) == Lexeme(d.s, pos + |d.text|)
  {
    var l := cfg.parseString(t, pos);
    d := StringText(l.value, t[pos..l.next]);
    HasCut(t, pos, l.next);
  }

  lemma NumberDrawn(cfg: Config, t: Text, pos: nat) returns (d: Doc)
    requires GoodLexers(cfg) && pos <= |t| && cfg.parseNumber(t, pos).Lexeme?
    ensures d.NumberText? && Drawn(cfg, t, d) && Has(t, pos, d.text)
    ensures cfg.parseNumber(t, pos) == Lexeme(d.number, pos + |d.text|)
  {
    var l := cfg.parseNumber(t, pos);
    d := NumberText(l.value, t[pos..l.next]);
    HasCut(t, pos, l.next);
  }

  // ---- Elements ---------------------------------------------------------------------------------

  predicate ElementsTaken(t: Text, pos: nat, events: seq<Event>, count: nat, es: seq<ElementText>, r: Result) {
    && es != [] && Has(t, pos, WrittenElements(es))
    && r == Ok(pos + |WrittenElements(es)|,
               events + ReportedElements(DenotedElements(es)) + [EndArray(Shown(count + |es|))])
  }

  /** How the loop over elements goes when it succeeds. */
  lemma ElementsParts(cfg: Config, t: Text, pos: nat, events: seq<Event>, count: nat)
    requires GoodLexers(cfg) && pos <= |t| && Elements(cfg, t, pos, events, count).Ok?
    ensures var v := ParseValue(cfg, t, pos, events);
            && v.Ok?
            && var s := Skip(cfg, t, v.pos, v.events);
              && s.Ok? && AfterElement(cfg, t, s.pos, v.events, Increment(count)).Ok?
              && Elements(cfg, t, pos, events, count) == AfterElement(cfg, t, s.pos, v.events, Increment(count))
  {
    hide GoodLexers, ParseValue, Skip, AfterElement;
  }

  lemma AfterElementParts(cfg: Config, t: Text, pos: nat, events: seq<Event>, count: nat)
    requires GoodLexers(cfg) && Strict(cfg) && pos <= |t| && AfterElement(cfg, t, pos, events, count).Ok?
    ensures pos < |t| && (t[pos] == ',' || t[pos] == ']')
    ensures t[pos] == ']' ==> AfterElement(cfg, t, pos, events, count) == Ok(pos + 1, events + [EndArray(count)])
    ensures t[pos] == ',' ==>
              var s := Skip(cfg, t, pos + 1, events);
              && s.Ok? && s.events == events
              && AfterElement(cfg, t, pos, events, count) == Elements(cfg, t, s.pos, events, count)
  {
    hide GoodLexers, Skip, Elements;
  }

  lemma {:induction false} ElementsDrawn(cfg: Config, t: Text, pos: nat, events: seq<Event>, count: nat)
    returns (es: seq<ElementText>)
    requires GoodLexers(cfg) && Strict(cfg) && pos <= |t| && count < SIZE_LIMIT
    requires var s := Skip(cfg, t, pos, events); s.Ok? && Elements(cfg, t, s.pos, events, count).Ok?
    ensures DrawnElements(cfg, t, es)
    ensures ElementsTaken(t, pos, events, count, es, Elements(cfg, t, Skip(cfg, t, pos, events).pos, events, count))
    decreases |t| - pos, 2
  {
    hide GoodLexers, Strict, Has, Space, Drawn, Written, Denoted, Skip, ParseValue, Elements, AfterElement, Shown,
      Increment;
    var before := GapDrawn(cfg, t, pos, events);
    var p := pos + |before|;
    ElementsParts(cfg, t, p, events, count);
    var d := ValueDrawn(cfg, t, p, events);
    var v := ParseValue(cfg, t, p, events);
    var after := GapDrawn(cfg, t, v.pos, v.events);
    var q := v.pos + |after|;
    AfterElementParts(cfg, t, q, v.events, Increment(count));
    var rest: seq<ElementText> := [];
    IncrementFits(count);
    if t[q] == ',' {
      rest := ElementsDrawn(cfg, t, q + 1, v.events, Increment(count));
    }
    es := [ElementText(before, d, after)] + rest;
    ElementsReported(events, count, es);
    assert es[1..] == rest;
    ElementPlaced(t, pos, es, q);
  }

  /** An element with its white space, and what stands behind it. */
  lemma ElementPlaced(t: Text, pos: nat, es: seq<ElementText>, q: nat)
    requires es != []
    requires var e := es[0];
             && Has(t, pos, e.before) && Has(t, pos + |e.before|, Written(e.doc))
             && Has(t, pos + |e.before| + |Written(e.doc)|, e.after)
             && q == pos + |e.before| + |Written(e.doc)| + |e.after| && q < |t|
    requires t[q] == ',' || t[q] == ']'
    requires if t[q] == ']' then |es| == 1 else |es| > 1 && Has(t, q + 1, WrittenElements(es[1..]))
    ensures Has(t, pos, WrittenElements(es))
    ensures pos + |WrittenElements(es)| == if t[q] == ']' then q + 1 else q + 1 + |WrittenElements(es[1..])|
  {
    hide Has, Written;
    var e := es[0];
    HasBoth(t, pos, e.before, Written(e.doc));
    HasBoth(t, pos, e.before + Written(e.doc), e.after);
    HasOne(t, q);
    if t[q] == ',' {
      HasBoth(t, q, ",", WrittenElements(es[1..]));
      HasBoth(t, pos, e.before + Written(e.doc) + e.after, "," + WrittenElements(es[1..]));
    } else {
      HasBoth(t, pos, e.before + Written(e.doc) + e.after, "]");
    }
  }

  // ---- Members ----------------------------------------------------------------------------------

  predicate MembersTaken(t: Text, pos: nat, events: seq<Event>, count: nat, ms: seq<MemberText>, r: Result) {
    && ms != [] && Has(t, pos, WrittenMembers(ms))
    && r == Ok(pos + |WrittenMembers(ms)|,
               events + ReportedMembers(DenotedMembers(ms)) + [EndObject(Shown(count + |ms|))])
  }

  /** How the loop over members goes when it succeeds: up to the value. */
  lemma MembersParts(cfg: Config, t: Text, pos: nat, events: seq<Event>, count: nat)
    requires GoodLexers(cfg) && pos <= |t| && Members(cfg, t, pos, events, count).Ok?
    ensures pos < |t| && t[pos] == '"' && cfg.parseString(t, pos).Lexeme?
    ensures var l := cfg.parseString(t, pos);
            var named := events + [Key(l.value)];
            var s := Skip(cfg, t, l.next, named);
            && s.Ok? && s.pos < |t| && t[s.pos] == ':'
            && var v := Skip(cfg, t, s.pos + 1, named);
              v.Ok? && Members(cfg, t, pos, events, count) == AfterColon(cfg, t, v.pos, named, count)
  {
    hide GoodLexers, ParseValue, AfterMember;
  }

  /** From the value of a member on. */
  function AfterColon(cfg: Config, t: Text, pos: nat, events: seq<Event>, count: nat): Result
    requires GoodLexers(cfg) && pos <= |t|
  {
    match ParseValue(cfg, t, pos, events)
    case Err(c, o, e) => Err(c, o, e)
    case Ok(p, e) =>
      match Skip(cfg, t, p, e)
      case Err(c, o, e') => Err(c, o, e')
      case Ok(q, e') => AfterMember(cfg, t, q, e', Increment(count))
  }

  lemma AfterColonParts(cfg: Config, t: Text, pos: nat, events: seq<Event>, count: nat)
    requires GoodLexers(cfg) && pos <= |t| && AfterColon(cfg, t, pos, events, count).Ok?
    ensures var v := ParseValue(cfg, t, pos, events);
            && v.Ok?
            && var s := Skip(cfg, t, v.pos, v.events);
              && s.Ok? && AfterMember(cfg, t, s.pos, v.events, Increment(count)).Ok?
              && AfterColon(cfg, t, pos, events, count) == AfterMember(cfg, t, s.pos, v.events, Increment(count))
  {
    hide GoodLexers, ParseValue, Skip, AfterMember;
  }

  lemma AfterMemberParts(cfg: Config, t: Text, pos: nat, events: seq<Event>, count: nat)
    requires GoodLexers(cfg) && Strict(cfg) && pos <= |t| && AfterMember(cfg, t, pos, events, count).Ok?
    ensures pos < |t| && (t[pos] == ',' || t[pos] == '}')
    ensures t[pos] == '}' ==> AfterMember(cfg, t, pos, events, count) == Ok(pos + 1, events + [EndObject(count)])
    ensures t[pos] == ',' ==>
              var s := Skip(cfg, t, pos + 1, events);
              && s.Ok? && s.events == events
              && AfterMember(cfg, t, pos, events, count) == Members(cfg, t, s.pos, events, count)
  {
    hide GoodLexers, Skip, Members;
  }

  /** The value of a member, with the white space behind it. */
  lemma {:induction false} MemberValueDrawn(cfg: Config, t: Text, pos: nat, events: seq<Event>, count: nat)
    returns (d: Doc, after: string)
    requires GoodLexers(cfg) && Strict(cfg) && pos <= |t| && AfterColon(cfg, t, pos, events, count).Ok?
    ensures Drawn(cfg, t, d) && Space(after) && Has(t, pos, Written(d)) && Has(t, pos + |Written(d)|, after)
    ensures var q, more := pos + |Written(d)| + |after|, events + Reported(Denoted(d));
            && pos < q <= |t| && AfterMember(cfg, t, q, more, Increment(count)).Ok?
            && AfterColon(cfg, t, pos, events, count) == AfterMember(cfg, t, q, more, Increment(count))
    decreases |t| - pos, 2
  {
    hide GoodLexers, Strict, Has, Space, Drawn, Written, Denoted, Skip, ParseValue, AfterColon, AfterMember;
    AfterColonParts(cfg, t, pos, events, count);
    d := ValueDrawn(cfg, t, pos, events);
    var v := ParseValue(cfg, t, pos, events);
    after := GapDrawn(cfg, t, v.pos, v.events);
  }

  /** A name with the white space around the colon behind it. */
  lemma NameDrawn(cfg: Config, t: Text, pos: nat, events: seq<Event>, count: nat)
    returns (name: string, text: string, behindName: string, beforeValue: string)
    requires GoodLexers(cfg) && Strict(cfg) && pos <= |t| && Members(cfg, t, pos, events, count).Ok?
    ensures StringFound(cfg, t, text, name) && Space(behindName) && Space(beforeValue)
    ensures var colon := pos + |text| + |behindName|;
            var p := colon + 1 + |beforeValue|;
            && Has(t, pos, text) && Has(t, pos + |text|, behindName) && colon < |t| && t[colon] == ':'
            && Has(t, colon + 1, beforeValue) && pos < p <= |t|
            && AfterColon(cfg, t, p, events + [Key(name)], count).Ok?
            && Members(cfg, t, pos, events, count) == AfterColon(cfg, t, p, events + [Key(name)], count)
  {
    hide GoodLexers, Strict, Has, Space, Skip, Members, AfterColon;
    MembersParts(cfg, t, pos, events, count);
    var d := StringDrawn(cfg, t, pos);
    name, text := d.s, d.text;
    var l := cfg.parseString(t, pos);
    LexemeInside(cfg, t, pos);
    behindName := GapDrawn(cfg, t, l.next, events + [Key(name)]);
    beforeValue := GapDrawn(cfg, t, l.next + |behindName| + 1, events + [Key(name)]);
  }

  lemma LexemeInside(cfg: Config, t: Text, pos: nat)
    requires GoodLexers(cfg) && pos < |t| && cfg.parseString(t, pos).Lexeme?
    ensures pos < cfg.parseString(t, pos).next <= |t|
  {
  }

  /** The parts of a member are where they should be. */
  predicate InPlace(t: Text, pos: nat, m: MemberText) {
    var l := PlacesOf(pos, m);
    && Has(t, pos, m.before) && Has(t, l.name, m.text) && Has(t, l.behindName, m.behindName)
    && l.colon < |t| && t[l.colon] == ':' && Has(t, l.colon + 1, m.beforeValue)
    && Has(t, l.value, Written(m.doc)) && Has(t, l.behindValue, m.after) && l.tail <= |t|
  }

  lemma {:induction false} FirstMemberDrawn(cfg: Config, t: Text, pos: nat, events: seq<Event>, count: nat)
    returns (m: MemberText)
    requires GoodLexers(cfg) && Strict(cfg) && pos <= |t|
    requires var s := Skip(cfg, t, pos, events); s.Ok? && Members(cfg, t, s.pos, events, count).Ok?
    ensures DrawnMembers(cfg, t, [m]) && InPlace(t, pos, m) && PlacesOf(pos, m).tail > pos
    ensures var q, more := PlacesOf(pos, m).tail, events + [Key(m.name)] + Reported(Denoted(m.doc));
            && AfterMember(cfg, t, q, more, Increment(count)).Ok?
            && Members(cfg, t, Skip(cfg, t, pos, events).pos, events, count) ==
                 AfterMember(cfg, t, q, more, Increment(count))
    decreases |t| - pos, 3
  {
    hide GoodLexers, Strict, Has, Space, Drawn, Written, Denoted, Reported, Skip, Members, AfterColon, AfterMember,
      Increment, StringFound;
    var before := GapDrawn(cfg, t, pos, events);
    var n := pos + |before|;
    var name, text, behindName, beforeValue := NameDrawn(cfg, t, n, events, count);
    var p := n + |text| + |behindName| + 1 + |beforeValue|;
    var d, after := MemberValueDrawn(cfg, t, p, events + [Key(name)], count);
    m := MemberText(before, name, text, behindName, beforeValue, d, after);
    assert [m][1..] == [];
  }

  lemma DrawnNext(cfg: Config, t: Text, m: MemberText, rest: seq<MemberText>)
    requires DrawnMembers(cfg, t, [m]) && DrawnMembers(cfg, t, rest)
    ensures DrawnMembers(cfg, t, [m] + rest)
  {
    hide Space, Drawn, StringFound;
    assert ([m] + rest)[1..] == rest;
  }

  lemma {:induction false} MembersDrawn(cfg: Config, t: Text, pos: nat, events: seq<Event>, count: nat)
    returns (ms: seq<MemberText>)
    requires GoodLexers(cfg) && Strict(cfg) && pos <= |t| && count < SIZE_LIMIT
    requires var s := Skip(cfg, t, pos, events); s.Ok? && Members(cfg, t, s.pos, events, count).Ok?
    ensures DrawnMembers(cfg, t, ms)
    ensures MembersTaken(t, pos, events, count, ms, Members(cfg, t, Skip(cfg, t, pos, events).pos, events, count))
    decreases |t| - pos, 4
  {
    hide GoodLexers, Strict, Has, Denoted, Reported, Skip, Members, AfterMember, Shown, Increment, DrawnMembers,
      InPlace, WrittenMembers, DenotedMembers, ReportedMembers, PlacesOf;
    var m := FirstMemberDrawn(cfg, t, pos, events, count);
    var more, q := events + [Key(m.name)] + Reported(Denoted(m.doc)), PlacesOf(pos, m).tail;
    TailInside(t, pos, m);
    AfterMemberParts(cfg, t, q, more, Increment(count));
    var rest: seq<MemberText> := [];
    IncrementFits(count);
    NoMembersDrawn(cfg, t);
    if t[q] == ',' {
      rest := MembersDrawn(cfg, t, q + 1, more, Increment(count));
    }
    ms := [m] + rest;
    DrawnNext(cfg, t, m, rest);
    MembersReported(events, count, ms);
    assert ms[1..] == rest && ms[0] == m;
    MemberPlaced(t, pos, ms);
  }

  lemma NoMembersDrawn(cfg: Config, t: Text)
    ensures DrawnMembers(cfg, t, [])
  {
  }

  lemma TailInside(t: Text, pos: nat, m: MemberText)
    requires InPlace(t, pos, m)
    ensures PlacesOf(pos, m).tail <= |t|
  {
    hide Has, Written;
  }

  /** A member with all its white space. */
  function Whole(m: MemberText): string {
    m.before + m.text + m.behindName + ":" + m.beforeValue + Written(m.doc) + m.after
  }

  lemma WholePlaced(t: Text, pos: nat, m: MemberText)
    requires InPlace(t, pos, m)
    ensures Has(t, pos, Whole(m)) && pos + |Whole(m)| == PlacesOf(pos, m).tail
  {
    hide Has, Written;
    var a := m.before + m.text + m.behindName;
    HasBoth(t, pos, m.before, m.text);
    HasBoth(t, pos, m.before + m.text, m.behindName);
    HasOne(t, PlacesOf(pos, m).colon);
    HasBoth(t, pos, a, ":");
    HasBoth(t, pos, a + ":", m.beforeValue);
    HasBoth(t, pos, a + ":" + m.beforeValue, Written(m.doc));
    HasBoth(t, pos, a + ":" + m.beforeValue + Written(m.doc), m.after);
  }

  lemma WrittenWhole(ms: seq<MemberText>)
    requires ms != []
    ensures WrittenMembers(ms) == Whole(ms[0]) + if |ms| == 1 then "}" else "," + WrittenMembers(ms[1..])
  {
    hide Written;
  }

  /** A member, and what stands behind it. */
  lemma MemberPlaced(t: Text, pos: nat, ms: seq<MemberText>)
    requires ms != [] && InPlace(t, pos, ms[0])
    requires var q := PlacesOf(pos, ms[0]).tail;
             && q < |t| && (t[q] == ',' || t[q] == '}')
             && if t[q] == '}' then |ms| == 1 else |ms| > 1 && Has(t, q + 1, WrittenMembers(ms[1..]))
    ensures Has(t, pos, WrittenMembers(ms))
    ensures var q := PlacesOf(pos, ms[0]).tail;
            pos + |WrittenMembers(ms)| == if t[q] == '}' then q + 1 else q + 1 + |WrittenMembers(ms[1..])|
  {
    hide Has, InPlace, WrittenMembers, Whole, PlacesOf;
    var q := PlacesOf(pos, ms[0]).tail;
    WholePlaced(t, pos, ms[0]);
    WrittenWhole(ms);
    HasOne(t, q);
    if t[q] == ',' {
      HasBoth(t, q, ",", WrittenMembers(ms[1..]));
      HasBoth(t, pos, Whole(ms[0]), "," + WrittenMembers(ms[1..]));
    } else {
      HasBoth(t, pos, Whole(ms[0]), "}");
    }
  }

  // ---- Any value --------------------------------------------------------------------------------

  lemma ArrayParts(cfg: Config, t: Text, pos: nat, events: seq<Event>)
    requires GoodLexers(cfg) && Strict(cfg) && pos < |t| && t[pos] == '[' && ParseValue(cfg, t, pos, events).Ok?
    ensures var begun := events + [StartArray];
            var s := Skip(cfg, t, pos + 1, begun);
            && s.Ok? && s.events == begun
            && ParseValue(cfg, t, pos, events) ==
                 if Peek(t, s.pos) == ']' then Ok(s.pos + 1, begun + [EndArray(0)])
                 else Elements(cfg, t, s.pos, begun, 0)
  {
    hide GoodLexers, Skip, Elements;
  }

  lemma ObjectParts(cfg: Config, t: Text, pos: nat, events: seq<Event>)
    requires GoodLexers(cfg) && Strict(cfg) && pos < |t| && t[pos] == '{' && ParseValue(cfg, t, pos, events).Ok?
    ensures var begun := events + [StartObject];
            var s := Skip(cfg, t, pos + 1, begun);
            && s.Ok? && s.events == begun
            && ParseValue(cfg, t, pos, events) ==
                 if Peek(t, s.pos) == '}' then Ok(s.pos + 1, begun + [EndObject(0)])
                 else Members(cfg, t, s.pos, begun, 0)
  {
    hide GoodLexers, Skip, Members;
  }

  /** Brackets with nothing but white space between them. */
  lemma BracketsPlaced(t: Text, pos: nat, open: char, space: string, close: char)
    requires pos < |t| && t[pos] == open && Has(t, pos + 1, space) && pos + 1 + |space| < |t|
    requires t[pos + 1 + |space|] == close
    ensures Has(t, pos, [open] + (space + [close]))
  {
    hide Has;
    HasOne(t, pos);
    HasOne(t, pos + 1 + |space|);
    HasBoth(t, pos + 1, space, [close]);
    HasBoth(t, pos, [open], space + [close]);
  }

  lemma {:induction false} ArrayDrawn(cfg: Config, t: Text, pos: nat, events: seq<Event>) returns (d: Doc)
    requires GoodLexers(cfg) && Strict(cfg) && pos < |t| && t[pos] == '[' && ParseValue(cfg, t, pos, events).Ok?
    ensures Drawn(cfg, t, d) && TakenFrom(t, pos, events, d, ParseValue(cfg, t, pos, events))
    decreases |t| - pos, 0
  {
    hide GoodLexers, Strict, Has, Space, Skip, ParseValue, Elements, Denoted, Reported, WrittenElements,
      DenotedElements, ReportedElements, Shown;
    ArrayParts(cfg, t, pos, events);
    var begun := events + [StartArray];
    var space := GapDrawn(cfg, t, pos + 1, begun);
    var p := pos + 1 + |space|;
    if Peek(t, p) == ']' {
      d := ArrayText(space, []);
      BracketsPlaced(t, pos, '[', space, ']');
    } else {
      var es := ElementsDrawn(cfg, t, pos + 1, begun, 0);
      d := ArrayText("", es);
      HasOne(t, pos);
      HasBoth(t, pos, "[", WrittenElements(es));
      NoSpaceIsSpace();
    }
    ArrayReports(events, d);
  }

  lemma NoSpaceIsSpace()
    ensures Space("")
  {
  }

  lemma {:induction false} ObjectDrawn(cfg: Config, t: Text, pos: nat, events: seq<Event>) returns (d: Doc)
    requires GoodLexers(cfg) && Strict(cfg) && pos < |t| && t[pos] == '{' && ParseValue(cfg, t, pos, events).Ok?
    ensures Drawn(cfg, t, d) && TakenFrom(t, pos, events, d, ParseValue(cfg, t, pos, events))
    decreases |t| - pos, 0
  {
    hide GoodLexers, Strict, Has, Space, Skip, ParseValue, Members, Denoted, Reported, WrittenMembers, DenotedMembers,
      ReportedMembers, Shown;
    ObjectParts(cfg, t, pos, events);
    var begun := events + [StartObject];
    var space := GapDrawn(cfg, t, pos + 1, begun);
    var p := pos + 1 + |space|;
    if Peek(t, p) == '}' {
      d := ObjectText(space, []);
      BracketsPlaced(t, pos, '{', space, '}');
    } else {
      var ms := MembersDrawn(cfg, t, pos + 1, begun, 0);
      d := ObjectText("", ms);
      HasOne(t, pos);
      HasBoth(t, pos, "{", WrittenMembers(ms));
      NoSpaceIsSpace();
    }
    ObjectReports(events, d);
  }

  lemma ScalarOnly(cfg: Config, t: Text, pos: nat, events: seq<Event>)
    requires GoodLexers(cfg) && pos <= |t| && Peek(t, pos) != '{' && Peek(t, pos) != '['
    ensures ParseValue(cfg, t, pos, events) == ParseScalar(cfg, t, pos, events)
  {
    hide GoodLexers, ParseScalar, ParseObject, ParseArray;
  }

  lemma {:induction false} ValueDrawn(cfg: Config, t: Text, pos: nat, events: seq<Event>) returns (d: Doc)
    requires GoodLexers(cfg) && Strict(cfg) && pos <= |t| && ParseValue(cfg, t, pos, events).Ok?
    ensures Drawn(cfg, t, d) && TakenFrom(t, pos, events, d, ParseValue(cfg, t, pos, events))
    decreases |t| - pos, 1
  {
    hide GoodLexers, Strict, ParseValue, ParseScalar, Drawn, TakenFrom;
    if Peek(t, pos) == '[' {
      d := ArrayDrawn(cfg, t, pos, events);
    } else if Peek(t, pos) == '{' {
      d := ObjectDrawn(cfg, t, pos, events);
    } else {
      ScalarOnly(cfg, t, pos, events);
      d := ScalarDrawn(cfg, t, pos, events);
    }
  }

  // ---- Documents --------------------------------------------------------------------------------

  /** How the parse of a document goes when it succeeds. */
  lemma DocumentSteps(cfg: Config, t: Text)
    requires GoodLexers(cfg) && ParseDocument(cfg, t).Ok?
    ensures var s := Skip(cfg, t, 0, []);
            && s.Ok? && s.events == [] && ParseValue(cfg, t, s.pos, []).Ok?
            && var v, r := ParseValue(cfg, t, s.pos, []), ParseDocument(cfg, t);
              if cfg.stopWhenDone then r == v
              else Skip(cfg, t, v.pos, v.events) == r && Peek(t, r.pos) == '\0'
  {
    hide GoodLexers, ParseValue, Skip;
  }

  /**
   Whatever text either parser accepts, up to where it stops it is white space, one text of the grammar, and white
   space; the events are those of the value that it denotes.
   */
  lemma AcceptedIsWritten(cfg: Config, t: Text) returns (before: string, d: Doc, after: string)
    requires GoodLexers(cfg) && Strict(cfg) && ParseDocument(cfg, t).Ok?
    ensures Space(before) && Drawn(cfg, t, d) && Space(after)
    ensures Has(t, 0, before + Written(d) + after)
    ensures ParseDocument(cfg, t) == JsonIterative.IterativeParse(cfg, t) ==
              Ok(|before + Written(d) + after|, Reported(Denoted(d)))
    ensures if cfg.stopWhenDone then after == "" else Peek(t, |before + Written(d) + after|) == '\0'
  {
    hide GoodLexers, Strict, Has, Space, Drawn, Written, Denoted, Reported, Skip, ParseValue, ParseDocument, Peek,
      JsonIterative.IterativeParse, JsonEquivalence.OffsetsAgree, JsonEquivalence.StrayFirst;
    DocumentSteps(cfg, t);
    JsonEquivalence.ParsersAgree(cfg, t);
    before := GapDrawn(cfg, t, 0, []);
    var p := |before|;
    d := ValueDrawn(cfg, t, p, []);
    assert [] + Reported(Denoted(d)) == Reported(Denoted(d));
    HasBoth(t, 0, before, Written(d));
    after := "";
    NoSpaceIsSpace();
    if !cfg.stopWhenDone {
      var v := ParseValue(cfg, t, p, []);
      after := GapDrawn(cfg, t, v.pos, v.events);
      HasBoth(t, 0, before + Written(d), after);
    } else {
      assert before + Written(d) + "" == before + Written(d);
    }
  }
}
