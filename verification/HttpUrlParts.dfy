/**
 URLs put together from their parts, and what the splitter makes of them.
 */
module HttpUrlParts {
  import opened HttpTypes
  import opened HttpStep
  import opened HttpUrl

  datatype Optional = Absent | Present(text: Text)

  datatype HostPart = Name(name: Text) | Bracketed(address: Text, zone: Text)

  /** An authority; no userinfo and no port are empty. */
  datatype Authority = Authority(userinfo: Text, host: HostPart, port: Text)

  /** An absolute URL, or only a path and what follows it. */
  datatype Parts =
    | Absolute(scheme: Text, authority: Authority, path: Text, query: Optional, fragment: Optional)
    | Origin(path: Text, query: Optional, fragment: Optional)

  const COLON: Byte := 58
  const SLASH: Byte := 47
  const AT_SIGN: Byte := 64
  const QUESTION: Byte := 63
  const NUMBER_SIGN: Byte := 35
  const OPEN: Byte := 91
  const CLOSE: Byte := 93
  const PERCENT: Byte := 37
  const STAR: Byte := 42

  // ---- Putting a URL together (section 3 of RFC 3986) -------------------------------------------

  function Before(t: Text, mark: Byte): Text {
    if t == [] then [] else t + [mark]
  }

  function Behind(mark: Byte, t: Text): Text {
    if t == [] then [] else [mark] + t
  }

  function Marked(mark: Byte, t: Optional): Text {
    if t.Absent? then [] else [mark] + t.text
  }

  function HostText(h: HostPart): Text {
    match h
    case Name(n) => n
    case Bracketed(a, z) => [OPEN] + (a + z) + [CLOSE]
  }

  function AuthorityText(a: Authority): Text {
    Before(a.userinfo, AT_SIGN) + (HostText(a.host) + Behind(COLON, a.port))
  }

  function Tail(u: Parts): Text {
    u.path + (Marked(QUESTION, u.query) + Marked(NUMBER_SIGN, u.fragment))
  }

  function UrlText(u: Parts): Text {
    if u.Absolute? then u.scheme + ([COLON, SLASH, SLASH] + (AuthorityText(u.authority) + Tail(u))) else Tail(u)
  }

  // ---- Parts that are right ---------------------------------------------------------------------

  predicate All(t: Text, p: Byte -> bool) {
    forall i :: 0 <= i < |t| ==> p(t[i])
  }

  predicate GoodHost(strict: bool, h: HostPart) {
    match h
    case Name(n) => n != [] && All(n, (ch: Byte) => IsHostChar(strict, ch))
    case Bracketed(a, z) =>
      && a != [] && All(a, IsV6Char)
      && (z == [] || (|z| > 1 && z[0] == PERCENT && All(z, IsZoneChar)))
  }

  predicate GoodAuthority(strict: bool, a: Authority) {
    && All(a.userinfo, IsUserinfoChar)
    && GoodHost(strict, a.host)
    && All(a.port, IsNum) && Number(a.port) <= 0xFFFF
  }

  predicate IsQueryChar(strict: bool, ch: Byte) {
    IsUrlChar(strict, ch) || ch == QUESTION
  }

  predicate IsFragmentChar(strict: bool, ch: Byte) {
    IsUrlChar(strict, ch) || ch == QUESTION || ch == NUMBER_SIGN
  }

  /** A fragment does not begin with a number sign: any number of those are taken for one. */
  predicate GoodTail(strict: bool, u: Parts) {
    && All(u.path, (ch: Byte) => IsUrlChar(strict, ch))
    && (u.query.Present? ==> All(u.query.text, (ch: Byte) => IsQueryChar(strict, ch)))
    && (u.fragment.Present? ==> All(u.fragment.text, (ch: Byte) => IsFragmentChar(strict, ch))
                                && (u.fragment.text == [] || u.fragment.text[0] != NUMBER_SIGN))
  }

  predicate Good(strict: bool, u: Parts) {
    && GoodTail(strict, u)
    && (if u.Absolute? then
          && u.scheme != [] && All(u.scheme, IsAlpha)
          && GoodAuthority(strict, u.authority)
          && (u.path == [] || u.path[0] == SLASH)
        else
          u.path != [] && (u.path[0] == SLASH || u.path[0] == STAR))
  }

  /** A fragment right behind the authority. */
  predicate BareFragment(u: Parts) {
    u.Absolute? && u.fragment.Present? && u.path == [] && u.query.Absent?
  }

  // ---- Characters (section 2 of RFC 3986) -------------------------------------------------------

  predicate Letter(ch: Byte) {
    'A' as int <= ch <= 'Z' as int || 'a' as int <= ch <= 'z' as int
  }

  predicate Unreserved(ch: Byte) {
    || Letter(ch) || '0' as int <= ch <= '9' as int
    || ch == '-' as int || ch == '.' as int || ch == '_' as int || ch == '~' as int
  }

  predicate SubDelimiter(ch: Byte) {
    || ch == '!' as int || ch == '$' as int || ch == '&' as int || ch == '\'' as int || ch == '(' as int
    || ch == ')' as int || ch == '*' as int || ch == '+' as int || ch == ',' as int || ch == ';' as int
    || ch == '=' as int
  }

  /** What the parts may be made of, in the classes of the standard. */
  lemma CharactersAre(strict: bool, ch: Byte)
    ensures IsAlpha(ch) <==> Letter(ch)
    ensures IsUserinfoChar(ch) <==> Unreserved(ch) || SubDelimiter(ch) || ch == COLON || ch == PERCENT
    ensures IsHostChar(strict, ch) <==> Unreserved(ch) && ch != '~' as int && (strict ==> ch != '_' as int)
    ensures IsZoneChar(ch) <==> Unreserved(ch) || ch == PERCENT
    ensures IsV6Char(ch) <==> Unhex(ch) >= 0 || ch == COLON || ch == '.' as int
    ensures Unreserved(ch) || SubDelimiter(ch) || ch == COLON || ch == AT_SIGN || ch == PERCENT || ch == SLASH ==>
              IsUrlChar(strict, ch)
    ensures strict && IsUrlChar(strict, ch) ==> 33 <= ch <= 126 && ch != QUESTION && ch != NUMBER_SIGN
  {
  }

  // ---- The first pass, piece by piece -----------------------------------------------------------

  lemma {:induction false} ScanJoin(strict: bool, scan: Scan, p: nat, a: Text, b: Text)
    ensures ScanAll(strict, scan, p, a + b) == ScanAll(strict, ScanAll(strict, scan, p, a), p + |a|, b)
    decreases |a|
  {
    hide ScanStep;
    if a == [] {
      assert a + b == b;
    } else {
      assert (a + b)[1..] == a[1..] + b;
      ScanJoin(strict, ScanStep(strict, scan, p, a[0]), p + 1, a[1..], b);
    }
  }

  /** All bytes of a piece belong to one field. */
  predicate Stays(strict: bool, s: State, t: Text, f: Field, end: State)
    decreases |t|
  {
    if t == [] then s == end
    else PlaceOf(ParseUrlChar(strict, s, t[0])) == In(f) && Stays(strict, ParseUrlChar(strict, s, t[0]), t[1..], f, end)
  }

  predicate MeetsAt(strict: bool, s: State, t: Text)
    decreases |t|
  {
    t != [] && (ParseUrlChar(strict, s, t[0]).ReqServerWithAt? ||
                MeetsAt(strict, ParseUrlChar(strict, s, t[0]), t[1..]))
  }

  /** One byte of a field, the first or one more. */
  lemma StepIn(strict: bool, s: State, last: Field, fields: Fields, foundAt: bool, p: nat, ch: Byte, f: Field)
    requires PlaceOf(ParseUrlChar(strict, s, ch)) == In(f)
    ensures var next := ParseUrlChar(strict, s, ch);
            ScanStep(strict, Scan(s, last, fields, foundAt), p, ch) ==
              Scan(next, f, if f == last then Longer(fields, f) else fields[f := At(p, 1)],
                   foundAt || next.ReqServerWithAt?)
  {
    hide ParseUrlChar, PlaceOf;
  }

  lemma StaysSome(strict: bool, s: State, t: Text, f: Field, end: State)
    requires Stays(strict, s, t, f, end) && t != []
    ensures var next := ParseUrlChar(strict, s, t[0]);
            && PlaceOf(next) == In(f) && Stays(strict, next, t[1..], f, end)
            && MeetsAt(strict, s, t) == (next.ReqServerWithAt? || MeetsAt(strict, next, t[1..]))
  {
    hide ParseUrlChar, PlaceOf;
  }

  lemma StaysNone(strict: bool, s: State, f: Field, end: State, scan: Scan, p: nat)
    requires Stays(strict, s, [], f, end)
    ensures s == end && !MeetsAt(strict, s, []) && ScanAll(strict, scan, p, []) == scan
  {
  }

  lemma ScanSome(strict: bool, scan: Scan, p: nat, t: Text)
    requires t != []
    ensures ScanAll(strict, scan, p, t) == ScanAll(strict, ScanStep(strict, scan, p, t[0]), p + 1, t[1..])
  {
    hide ScanStep;
  }

  lemma LongerByOne(fields: Fields, f: Field, off: nat, len: nat)
    requires len + 1 < U16
    ensures Longer(fields[f := Slice(off, len)], f) == fields[f := Slice(off, len + 1)]
  {
    MapSetTwice(fields, f, Slice(off, len), Slice(off, len + 1));
  }

  lemma MapSetTwice(fields: Fields, f: Field, a: Slice, b: Slice)
    ensures fields[f := a][f := b] == fields[f := b]
  {
  }

  lemma {:induction false} ScanMore(strict: bool, s: State, fields: Fields, off: nat, len: nat, foundAt: bool, p: nat,
                                    t: Text, f: Field, end: State)
    requires Stays(strict, s, t, f, end) && len + |t| < U16
    ensures ScanAll(strict, Scan(s, f, fields[f := Slice(off, len)], foundAt), p, t) ==
              Scan(end, f, fields[f := Slice(off, len + |t|)], foundAt || MeetsAt(strict, s, t))
    decreases |t|
  {
    hide ParseUrlChar, PlaceOf, ScanStep, ScanAll, Stays, MeetsAt, Longer;
    if t == [] {
      StaysNone(strict, s, f, end, Scan(s, f, fields[f := Slice(off, len)], foundAt), p);
    } else {
      var next := ParseUrlChar(strict, s, t[0]);
      StaysSome(strict, s, t, f, end);
      ScanSome(strict, Scan(s, f, fields[f := Slice(off, len)], foundAt), p, t);
      StepIn(strict, s, f, fields[f := Slice(off, len)], foundAt, p, t[0], f);
      LongerByOne(fields, f, off, len);
      MapSetTwice(fields, f, Slice(off, len), Slice(off, len + 1));
      ScanMore(strict, next, fields, off, len + 1, foundAt || next.ReqServerWithAt?, p + 1, t[1..], f, end);
    }
  }

  /** A piece that is all of one field, after another field, is that field. */
  lemma ScanField(strict: bool, s: State, last: Field, fields: Fields, foundAt: bool, p: nat, t: Text, f: Field,
                  end: State)
    requires Stays(strict, s, t, f, end) && t != [] && last != f && p + |t| < U16
    ensures ScanAll(strict, Scan(s, last, fields, foundAt), p, t) ==
              Scan(end, f, fields[f := Slice(p, |t|)], foundAt || MeetsAt(strict, s, t))
  {
    hide ParseUrlChar, PlaceOf, ScanStep, ScanAll, Stays, MeetsAt, Longer;
    var next := ParseUrlChar(strict, s, t[0]);
    StaysSome(strict, s, t, f, end);
    ScanSome(strict, Scan(s, last, fields, foundAt), p, t);
    StepIn(strict, s, last, fields, foundAt, p, t[0], f);
    ScanMore(strict, next, fields, p, 1, foundAt || next.ReqServerWithAt?, p + 1, t[1..], f, end);
  }

  lemma {:induction false} StaysPut(strict: bool, s: State, t: Text, f: Field)
    requires PlaceOf(s) == In(f) && !s.ReqServerWithAt? && forall i :: 0 <= i < |t| ==>
             ParseUrlChar(strict, s, t[i]) == s
    ensures Stays(strict, s, t, f, s) && !MeetsAt(strict, s, t)
    decreases |t|
  {
    hide ParseUrlChar, PlaceOf;
    if t != [] {
      assert ParseUrlChar(strict, s, t[0]) == s;
      StaysPut(strict, s, t[1..], f);
    }
  }

  /** A delimiter changes nothing but the state. */
  lemma ScanDelimiter(strict: bool, scan: Scan, p: nat, ch: Byte)
    requires scan.Scan? && PlaceOf(ParseUrlChar(strict, scan.s, ch)) == Delimiter
    ensures ScanAll(strict, scan, p, [ch]) == scan.(s := ParseUrlChar(strict, scan.s, ch))
  {
    hide ParseUrlChar, PlaceOf;
    assert [ch][1..] == [];
  }

  predicate InServer(s: State) {
    s.ReqServerStart? || s.ReqServer? || s.ReqServerWithAt?
  }

  predicate IsServerChar(ch: Byte) {
    IsUserinfoChar(ch) || ch == OPEN || ch == CLOSE
  }

  lemma {:induction false} ServerStays(strict: bool, s: State, t: Text)
    requires InServer(s) && t != [] && All(t, IsServerChar)
    ensures Stays(strict, s, t, Host, ReqServer) && !MeetsAt(strict, s, t)
    decreases |t|
  {
    ServerCharStep(strict, s, t[0]);
    hide ParseUrlChar, PlaceOf, IsServerChar;
    ReqServerIsHost();
    if |t| > 1 {
      ServerStays(strict, ReqServer, t[1..]);
    }
  }

  lemma ReqServerIsHost()
    ensures PlaceOf(ReqServer) == In(Host) && PlaceOf(ReqServerWithAt) == In(Host)
  {
  }

  lemma ServerCharStep(strict: bool, s: State, ch: Byte)
    requires InServer(s) && IsServerChar(ch)
    ensures ParseUrlChar(strict, s, ch) == ReqServer
  {
  }

  lemma AtSignStep(strict: bool, s: State)
    requires s.ReqServerStart? || s.ReqServer?
    ensures ParseUrlChar(strict, s, AT_SIGN) == ReqServerWithAt
  {
  }

  // ---- Where the parts are ----------------------------------------------------------------------

  function TextOf(t: Optional): Text {
    if t.Absent? then [] else t.text
  }

  /** A part is a field unless it is empty. */
  function Laid(fields: Fields, f: Field, p: nat, t: Text): Fields {
    if t == [] then fields else fields[f := Slice(p, |t|)]
  }

  function LaidTail(fields: Fields, p: nat, u: Parts): Fields {
    var q := p + |u.path|;
    var r := q + |Marked(QUESTION, u.query)|;
    Laid(Laid(Laid(fields, Path, p, u.path), Query, q + 1, TextOf(u.query)), Fragment, r + 1, TextOf(u.fragment))
  }

  lemma EnterStays(strict: bool, s: State, x: State, t: Text, f: Field)
    requires t != [] && ParseUrlChar(strict, s, t[0]) == x && PlaceOf(x) == In(f) && !x.ReqServerWithAt?
    requires forall i :: 0 < i < |t| ==> ParseUrlChar(strict, x, t[i]) == x
    ensures Stays(strict, s, t, f, x) && !MeetsAt(strict, s, t)
  {
    hide ParseUrlChar, PlaceOf;
    StaysPut(strict, x, t[1..], f);
  }

  lemma PathSteps(strict: bool, ch: Byte)
    requires IsUrlChar(strict, ch)
    ensures ParseUrlChar(strict, ReqPath, ch) == ReqPath
    ensures ch == SLASH ==> ParseUrlChar(strict, ReqServer, ch) == ReqPath
    ensures ch == SLASH || ch == STAR ==> ParseUrlChar(strict, ReqSpacesBeforeUrl, ch) == ReqPath
  {
  }

  lemma QuerySteps(strict: bool, ch: Byte)
    requires IsQueryChar(strict, ch)
    ensures ParseUrlChar(strict, ReqQueryString, ch) == ReqQueryString
    ensures ParseUrlChar(strict, ReqQueryStringStart, ch) == ReqQueryString
  {
  }

  lemma FragmentSteps(strict: bool, ch: Byte)
    requires IsFragmentChar(strict, ch)
    ensures ParseUrlChar(strict, ReqFragment, ch) == ReqFragment
    ensures ch != NUMBER_SIGN ==> ParseUrlChar(strict, ReqFragmentStart, ch) == ReqFragment
  {
  }

  lemma MarkSteps(strict: bool)
    ensures ParseUrlChar(strict, ReqServer, QUESTION) == ReqQueryStringStart
    ensures ParseUrlChar(strict, ReqPath, QUESTION) == ReqQueryStringStart
    ensures ParseUrlChar(strict, ReqPath, NUMBER_SIGN) == ReqFragmentStart
    ensures ParseUrlChar(strict, ReqQueryStringStart, NUMBER_SIGN) == ReqFragmentStart
    ensures ParseUrlChar(strict, ReqQueryString, NUMBER_SIGN) == ReqFragmentStart
    ensures PlaceOf(ReqQueryStringStart) == Delimiter && PlaceOf(ReqFragmentStart) == Delimiter
  {
  }

  lemma ScanPath(strict: bool, scan: Scan, p: nat, path: Text)
    requires scan.Scan? && scan.last != Path && All(path, (ch: Byte) => IsUrlChar(strict, ch)) && p + |path| < U16
    requires if scan.s.ReqServer? then path == [] || path[0] == SLASH
             else scan.s.ReqSpacesBeforeUrl? && path != [] && (path[0] == SLASH || path[0] == STAR)
    ensures ScanAll(strict, scan, p, path) ==
              if path == [] then scan else Scan(ReqPath, Path, Laid(scan.fields, Path, p, path), scan.foundAt)
  {
    hide ParseUrlChar, PlaceOf, ScanStep, IsUrlChar;
    if path != [] {
      forall i | 0 <= i < |path| ensures ParseUrlChar(strict, ReqPath, path[i]) == ReqPath {
        PathSteps(strict, path[i]);
      }
      PathSteps(strict, path[0]);
      Places();
      EnterStays(strict, scan.s, ReqPath, path, Path);
      ScanField(strict, scan.s, scan.last, scan.fields, scan.foundAt, p, path, Path, ReqPath);
    }
  }

  lemma Places()
    ensures PlaceOf(ReqPath) == In(Path) && PlaceOf(ReqQueryString) == In(Query) && PlaceOf(ReqFragment) == In(Fragment)
    ensures PlaceOf(ReqSchema) == In(Schema)
  {
  }

  lemma ScanQuery(strict: bool, scan: Scan, p: nat, query: Optional)
    requires scan.Scan? && scan.last != Query && (scan.s.ReqServer? || scan.s.ReqPath?) &&
             p + |Marked(QUESTION, query)| < U16
    requires query.Present? ==> All(query.text, (ch: Byte) => IsQueryChar(strict, ch))
    ensures ScanAll(strict, scan, p, Marked(QUESTION, query)) ==
              if query.Absent? then scan
              else if query.text == [] then scan.(s := ReqQueryStringStart)
              else Scan(ReqQueryString, Query, Laid(scan.fields, Query, p + 1, query.text), scan.foundAt)
  {
    hide ParseUrlChar, PlaceOf, ScanStep, IsQueryChar, ScanAll;
    if query.Absent? {
      ScanNothing(strict, scan, p);
    } else {
      var t := query.text;
      MarkSteps(strict);
      ScanDelimiter(strict, scan, p, QUESTION);
      ScanJoin(strict, scan, p, [QUESTION], t);
      var next := scan.(s := ReqQueryStringStart);
      if t == [] {
        ScanNothing(strict, next, p + 1);
      } else {
        forall i | 0 <= i < |t| ensures ParseUrlChar(strict, ReqQueryString, t[i]) == ReqQueryString {
          QuerySteps(strict, t[i]);
        }
        QuerySteps(strict, t[0]);
        Places();
        EnterStays(strict, ReqQueryStringStart, ReqQueryString, t, Query);
        ScanField(strict, ReqQueryStringStart, scan.last, scan.fields, scan.foundAt, p + 1, t, Query, ReqQueryString);
      }
    }
  }

  lemma ScanNothing(strict: bool, scan: Scan, p: nat)
    ensures ScanAll(strict, scan, p, []) == scan
  {
  }

  lemma ScanFragment(strict: bool, scan: Scan, p: nat, fragment: Optional)
    requires scan.Scan? && scan.last != Fragment && p + |Marked(NUMBER_SIGN, fragment)| < U16
    requires fragment.Present? ==> scan.s.ReqPath? || scan.s.ReqQueryStringStart? || scan.s.ReqQueryString?
    requires fragment.Present? ==> All(fragment.text, (ch: Byte) => IsFragmentChar(strict, ch))
    requires fragment.Present? && fragment.text != [] ==> fragment.text[0] != NUMBER_SIGN
    ensures var r := ScanAll(strict, scan, p, Marked(NUMBER_SIGN, fragment));
            r.Scan? && r.fields == Laid(scan.fields, Fragment, p + 1, TextOf(fragment)) && r.foundAt == scan.foundAt
  {
    hide ParseUrlChar, PlaceOf, ScanStep, IsFragmentChar, ScanAll;
    if fragment.Absent? {
      ScanNothing(strict, scan, p);
    } else {
      var t := fragment.text;
      MarkSteps(strict);
      ScanDelimiter(strict, scan, p, NUMBER_SIGN);
      ScanJoin(strict, scan, p, [NUMBER_SIGN], t);
      var next := scan.(s := ReqFragmentStart);
      if t == [] {
        ScanNothing(strict, next, p + 1);
      } else {
        forall i | 0 <= i < |t| ensures ParseUrlChar(strict, ReqFragment, t[i]) == ReqFragment {
          FragmentSteps(strict, t[i]);
        }
        FragmentSteps(strict, t[0]);
        Places();
        EnterStays(strict, ReqFragmentStart, ReqFragment, t, Fragment);
        ScanField(strict, ReqFragmentStart, scan.last, scan.fields, scan.foundAt, p + 1, t, Fragment, ReqFragment);
      }
    }
  }

  /** Path, query and fragment. */
  lemma ScanTail(strict: bool, scan: Scan, p: nat, u: Parts)
    requires scan.Scan? && (scan.last == Host || scan.last == Max) && GoodTail(strict, u) && p + |Tail(u)| < U16
    requires if scan.s.ReqServer?
             then (u.path == [] || u.path[0] == SLASH) && (u.fragment.Present? ==> u.path != [] || u.query.Present?)
             else scan.s.ReqSpacesBeforeUrl? && u.path != [] && (u.path[0] == SLASH || u.path[0] == STAR)
    ensures var r := ScanAll(strict, scan, p, Tail(u));
            r.Scan? && r.fields == LaidTail(scan.fields, p, u) && r.foundAt == scan.foundAt
  {
    hide ScanAll, All;
    var q := Marked(QUESTION, u.query);
    var f := Marked(NUMBER_SIGN, u.fragment);
    ScanJoin(strict, scan, p, u.path, q + f);
    ScanPath(strict, scan, p, u.path);
    var s1 := ScanAll(strict, scan, p, u.path);
    ScanJoin(strict, s1, p + |u.path|, q, f);
    ScanQuery(strict, s1, p + |u.path|, u.query);
    var s2 := ScanAll(strict, s1, p + |u.path|, q);
    ScanFragment(strict, s2, p + |u.path| + |q|, u.fragment);
  }

  lemma HostIsServer(strict: bool, h: HostPart)
    requires GoodHost(strict, h)
    ensures HostText(h) != [] && All(HostText(h), IsServerChar)
  {
  }

  lemma ScanAuthority(strict: bool, last: Field, fields: Fields, p: nat, a: Authority)
    requires GoodAuthority(strict, a) && last != Host && p + |AuthorityText(a)| < U16
    ensures ScanAll(strict, Scan(ReqServerStart, last, fields, false), p, AuthorityText(a)) ==
              Scan(ReqServer, Host, fields[Host := Slice(p, |AuthorityText(a)|)], a.userinfo != [])
  {
    hide ScanAll, Stays, MeetsAt, ParseUrlChar, PlaceOf, GoodHost, IsServerChar;
    var ui, rest := a.userinfo, HostText(a.host) + Behind(COLON, a.port);
    var n := |ui|;
    HostIsServer(strict, a.host);
    PortIsServer(a.port);
    assert All(rest, IsServerChar);
    if ui == [] {
      assert AuthorityText(a) == rest;
      ServerStays(strict, ReqServerStart, rest);
      ScanField(strict, ReqServerStart, last, fields, false, p, rest, Host, ReqServer);
    } else {
      UserinfoIsServer(ui);
      var scan := Scan(ReqServerStart, last, fields, false);
      ServerStays(strict, ReqServerStart, ui);
      ScanField(strict, ReqServerStart, last, fields, false, p, ui, Host, ReqServer);
      ScanJoin(strict, scan, p, ui, [AT_SIGN]);
      AtSignStays(strict);
      ScanMore(strict, ReqServer, fields, p, n, false, p + n, [AT_SIGN], Host, ReqServerWithAt);
      ScanJoin(strict, scan, p, ui + [AT_SIGN], rest);
      ServerStays(strict, ReqServerWithAt, rest);
      ScanMore(strict, ReqServerWithAt, fields, p, n + 1, true, p + n + 1, rest, Host, ReqServer);
    }
  }

  lemma PortIsServer(port: Text)
    requires All(port, IsNum)
    ensures All(Behind(COLON, port), IsServerChar)
  {
  }

  lemma UserinfoIsServer(t: Text)
    requires All(t, IsUserinfoChar)
    ensures All(t, IsServerChar)
  {
  }

  lemma AtSignStays(strict: bool)
    ensures Stays(strict, ReqServer, [AT_SIGN], Host, ReqServerWithAt) && MeetsAt(strict, ReqServer, [AT_SIGN])
  {
    hide ParseUrlChar;
    AtSignStep(strict, ReqServer);
    assert [AT_SIGN][1..] == [];
  }

  // ---- The second pass, piece by piece ----------------------------------------------------------

  lemma {:induction false} HostJoin(strict: bool, h: HostScan, p: nat, a: Text, b: Text)
    ensures HostAll(strict, h, p, a + b) == HostAll(strict, HostAll(strict, h, p, a), p + |a|, b)
    decreases |a|
  {
    hide HostStep;
    if a == [] {
      assert a + b == b;
    } else if !h.s.HostDead? {
      assert (a + b)[1..] == a[1..] + b;
      HostJoin(strict, HostStep(strict, h, p, a[0]), p + 1, a[1..], b);
    }
  }

  lemma HostNothing(strict: bool, h: HostScan, p: nat)
    ensures HostAll(strict, h, p, []) == h
  {
  }

  lemma HostOne(strict: bool, h: HostScan, p: nat, ch: Byte)
    requires !h.s.HostDead?
    ensures HostAll(strict, h, p, [ch]) == HostStep(strict, h, p, ch)
  {
    hide HostStep;
    assert [ch][1..] == [];
  }

  predicate Counts(x: HostState) {
    x.InHost? || x.InV6? || x.InZone? || x.InPort? || x.InUserinfo?
  }

  function FieldOf(x: HostState): Field {
    if x.InPort? then Port else if x.InUserinfo? then Userinfo else Host
  }

  lemma StepOn(strict: bool, x: HostState, fields: Fields, off: nat, len: nat, p: nat, ch: Byte)
    requires Counts(x) && ParseHostChar(strict, x, ch) == x && len + 1 < U16
    ensures HostStep(strict, HostScan(x, fields[FieldOf(x) := Slice(off, len)]), p, ch) ==
              HostScan(x, fields[FieldOf(x) := Slice(off, len + 1)])
  {
    hide ParseHostChar;
    MapSetTwice(fields, FieldOf(x), Slice(off, len), Slice(off, len + 1));
  }

  lemma {:induction false} HostRun(strict: bool, x: HostState, fields: Fields, off: nat, len: nat, p: nat, t: Text)
    requires Counts(x) && len + |t| < U16 && forall i :: 0 <= i < |t| ==> ParseHostChar(strict, x, t[i]) == x
    ensures HostAll(strict, HostScan(x, fields[FieldOf(x) := Slice(off, len)]), p, t) ==
              HostScan(x, fields[FieldOf(x) := Slice(off, len + |t|)])
    decreases |t|
  {
    hide ParseHostChar, HostStep, Counts, FieldOf;
    if t != [] {
      StepOn(strict, x, fields, off, len, p, t[0]);
      CountsAlive(x);
      HostRun(strict, x, fields, off, len + 1, p + 1, t[1..]);
    }
  }

  lemma CountsAlive(x: HostState)
    requires Counts(x)
    ensures !x.HostDead?
  {
  }

  lemma StepInto(strict: bool, s: HostState, x: HostState, fields: Fields, p: nat, ch: Byte)
    requires Counts(x) && !x.InZone? && s != x && ParseHostChar(strict, s, ch) == x && p < U16
    requires FieldOf(x) == Host ==> Host in fields && fields[Host].len == 0
    ensures HostStep(strict, HostScan(s, fields), p, ch) == HostScan(x, fields[FieldOf(x) := Slice(p, 1)])
  {
    hide ParseHostChar;
    MapSetTwice(fields, FieldOf(x), Slice(p, 0), Slice(p, 1));
  }

  /** A piece of an authority behind another. */
  lemma HostEnter(strict: bool, s: HostState, x: HostState, fields: Fields, p: nat, t: Text)
    requires Counts(x) && !x.InZone? && s != x && !s.HostDead? && t != [] && p + |t| < U16
    requires ParseHostChar(strict, s, t[0]) == x && forall i :: 0 <= i < |t| ==> ParseHostChar(strict, x, t[i]) == x
    requires FieldOf(x) == Host ==> Host in fields && fields[Host].len == 0
    ensures HostAll(strict, HostScan(s, fields), p, t) == HostScan(x, fields[FieldOf(x) := Slice(p, |t|)])
  {
    hide ParseHostChar, HostStep, Counts, FieldOf;
    StepInto(strict, s, x, fields, p, t[0]);
    HostRun(strict, x, fields, p, 1, p + 1, t[1..]);
  }

  function HostInner(h: HostPart): Text {
    match h
    case Name(n) => n
    case Bracketed(a, z) => a + z
  }

  function HostBegin(h: HostPart): nat {
    if h.Bracketed? then 1 else 0
  }

  function HostEnd(h: HostPart): HostState {
    if h.Bracketed? then V6End else InHost
  }

  lemma NameSteps(strict: bool, ch: Byte)
    requires IsHostChar(strict, ch)
    ensures ParseHostChar(strict, HostStart, ch) == InHost && ParseHostChar(strict, InHost, ch) == InHost
  {
  }

  lemma AddressSteps(strict: bool, ch: Byte)
    requires IsV6Char(ch)
    ensures ParseHostChar(strict, V6Start, ch) == InV6 && ParseHostChar(strict, InV6, ch) == InV6
  {
  }

  lemma ZoneSteps(strict: bool, ch: Byte)
    requires IsZoneChar(ch)
    ensures ParseHostChar(strict, ZoneStart, ch) == InZone && ParseHostChar(strict, InZone, ch) == InZone
    ensures ParseHostChar(strict, InV6, PERCENT) == ZoneStart
  {
  }

  lemma UserinfoSteps(strict: bool, ch: Byte)
    requires IsUserinfoChar(ch)
    ensures ParseHostChar(strict, UserinfoStart, ch) == InUserinfo &&
            ParseHostChar(strict, InUserinfo, ch) == InUserinfo
  {
  }

  lemma PortSteps(strict: bool, ch: Byte)
    requires IsNum(ch)
    ensures ParseHostChar(strict, PortStart, ch) == InPort && ParseHostChar(strict, InPort, ch) == InPort
  {
  }

  lemma HostMarks(strict: bool, fields: Fields, p: nat)
    ensures HostStep(strict, HostScan(InUserinfo, fields), p, AT_SIGN) == HostScan(HostStart, fields)
    ensures HostStep(strict, HostScan(HostStart, fields), p, OPEN) == HostScan(V6Start, fields)
    ensures HostStep(strict, HostScan(InV6, fields), p, CLOSE) == HostScan(V6End, fields)
    ensures HostStep(strict, HostScan(InZone, fields), p, CLOSE) == HostScan(V6End, fields)
    ensures HostStep(strict, HostScan(InHost, fields), p, COLON) == HostScan(PortStart, fields)
    ensures HostStep(strict, HostScan(V6End, fields), p, COLON) == HostScan(PortStart, fields)
  {
  }

  lemma HostZone(strict: bool, fields: Fields, off: nat, len: nat, p: nat, z: Text)
    requires z == [] || (|z| > 1 && z[0] == PERCENT && All(z, IsZoneChar))
    requires len + |z| < U16
    ensures HostAll(strict, HostScan(InV6, fields[Host := Slice(off, len)]), p, z) ==
              HostScan(if z == [] then InV6 else InZone, fields[Host := Slice(off, len + |z|)])
  {
    hide ParseHostChar, HostStep, IsZoneChar;
    var h := HostScan(InV6, fields[Host := Slice(off, len)]);
    if z == [] {
      HostNothing(strict, h, p);
    } else {
      forall i | 0 <= i < |z| ensures ParseHostChar(strict, InZone, z[i]) == InZone {
        ZoneSteps(strict, z[i]);
      }
      ZoneSteps(strict, z[1]);
      ZoneStarts(strict, fields, off, len, p, z[1]);
      assert z[1..][1..] == z[2..];
      HostRun(strict, InZone, fields, off, len + 2, p + 2, z[2..]);
    }
  }

  lemma ZoneStarts(strict: bool, fields: Fields, off: nat, len: nat, p: nat, ch: Byte)
    requires len + 2 < U16 && ParseHostChar(strict, ZoneStart, ch) == InZone
    requires ParseHostChar(strict, InV6, PERCENT) == ZoneStart
    ensures var h := HostStep(strict, HostScan(InV6, fields[Host := Slice(off, len)]), p, PERCENT);
            && h == HostScan(ZoneStart, fields[Host := Slice(off, len + 1)])
            && HostStep(strict, h, p + 1, ch) == HostScan(InZone, fields[Host := Slice(off, len + 2)])
  {
    hide ParseHostChar;
    MapSetTwice(fields, Host, Slice(off, len), Slice(off, len + 1));
    MapSetTwice(fields, Host, Slice(off, len + 1), Slice(off, len + 2));
  }

  lemma HostName(strict: bool, fields: Fields, p: nat, n: Text)
    requires n != [] && All(n, (ch: Byte) => IsHostChar(strict, ch)) && Host in fields && fields[Host].len == 0 &&
             p + |n| < U16
    ensures HostAll(strict, HostScan(HostStart, fields), p, n) == HostScan(InHost, fields[Host := Slice(p, |n|)])
  {
    hide ParseHostChar, HostStep, HostAll, IsHostChar;
    forall i | 0 <= i < |n| ensures ParseHostChar(strict, InHost, n[i]) == InHost {
      NameSteps(strict, n[i]);
    }
    NameSteps(strict, n[0]);
    HostEnter(strict, HostStart, InHost, fields, p, n);
  }

  lemma HostAddress(strict: bool, fields: Fields, p: nat, a: Text, z: Text)
    requires a != [] && All(a, IsV6Char) && Host in fields && fields[Host].len == 0 && p + |a| + |z| < U16
    requires z == [] || (|z| > 1 && z[0] == PERCENT && All(z, IsZoneChar))
    ensures HostAll(strict, HostScan(V6Start, fields), p, a + z) ==
              HostScan(if z == [] then InV6 else InZone, fields[Host := Slice(p, |a + z|)])
  {
    hide ParseHostChar, HostStep, HostAll, IsV6Char, IsZoneChar;
    forall i | 0 <= i < |a| ensures ParseHostChar(strict, InV6, a[i]) == InV6 {
      AddressSteps(strict, a[i]);
    }
    AddressSteps(strict, a[0]);
    HostEnter(strict, V6Start, InV6, fields, p, a);
    HostZone(strict, fields, p, |a|, p + |a|, z);
    HostJoin(strict, HostScan(V6Start, fields), p, a, z);
  }

  lemma HostHost(strict: bool, fields: Fields, p: nat, h: HostPart)
    requires GoodHost(strict, h) && Host in fields && fields[Host].len == 0 && p + |HostText(h)| < U16
    ensures HostAll(strict, HostScan(HostStart, fields), p, HostText(h)) ==
              HostScan(HostEnd(h), fields[Host := Slice(p + HostBegin(h), |HostInner(h)|)])
  {
    hide ParseHostChar, HostStep, HostAll, IsHostChar, IsV6Char, IsZoneChar, All;
    match h
    case Name(n) =>
      HostName(strict, fields, p, n);
    case Bracketed(a, z) =>
      var start := HostScan(HostStart, fields);
      var after := fields[Host := Slice(p + 1, |a + z|)];
      HostMarks(strict, fields, p);
      HostOne(strict, start, p, OPEN);
      HostAddress(strict, fields, p + 1, a, z);
      HostJoin(strict, start, p, [OPEN], a + z);
      HostMarks(strict, after, p + 1 + |a + z|);
      HostJoin(strict, start, p, [OPEN] + (a + z), [CLOSE]);
      HostOne(strict, HostScan(if z == [] then InV6 else InZone, after), p + 1 + |a + z|, CLOSE);
  }

  function LaidAuthority(fields: Fields, p: nat, a: Authority): Fields {
    var h := p + |Before(a.userinfo, AT_SIGN)|;
    Laid(Laid(fields, Userinfo, p, a.userinfo)[Host := Slice(h + HostBegin(a.host), |HostInner(a.host)|)],
         Port, h + |HostText(a.host)| + 1, a.port)
  }

  lemma HostAuthority(strict: bool, fields: Fields, p: nat, a: Authority)
    requires GoodAuthority(strict, a) && Host in fields && fields[Host].len == 0 && p + |AuthorityText(a)| < U16
    ensures var r := HostAll(strict, HostScan(if a.userinfo != [] then UserinfoStart else HostStart, fields), p,
                             AuthorityText(a));
            MayEnd(r.s) && r.fields == LaidAuthority(fields, p, a)
  {
    hide ParseHostChar, HostStep, HostAll, GoodHost, HostText, HostInner;
    var ui := Before(a.userinfo, AT_SIGN);
    var start := HostScan(if a.userinfo != [] then UserinfoStart else HostStart, fields);
    var f1 := Laid(fields, Userinfo, p, a.userinfo);
    var h := p + |ui|;
    HostUserinfo(strict, fields, p, a.userinfo);
    HostJoin(strict, start, p, ui, HostText(a.host) + Behind(COLON, a.port));
    HostHost(strict, f1, h, a.host);
    HostJoin(strict, HostScan(HostStart, f1), h, HostText(a.host), Behind(COLON, a.port));
    var f2 := f1[Host := Slice(h + HostBegin(a.host), |HostInner(a.host)|)];
    HostPort(strict, f2, h + |HostText(a.host)|, HostEnd(a.host), a.port);
  }

  lemma HostUserinfo(strict: bool, fields: Fields, p: nat, t: Text)
    requires All(t, IsUserinfoChar) && p + |t| < U16
    ensures HostAll(strict, HostScan(if t != [] then UserinfoStart else HostStart, fields), p, Before(t, AT_SIGN)) ==
              HostScan(HostStart, Laid(fields, Userinfo, p, t))
  {
    hide ParseHostChar, HostStep, HostAll, IsUserinfoChar;
    if t == [] {
      HostNothing(strict, HostScan(HostStart, fields), p);
    } else {
      forall i | 0 <= i < |t| ensures ParseHostChar(strict, InUserinfo, t[i]) == InUserinfo {
        UserinfoSteps(strict, t[i]);
      }
      UserinfoSteps(strict, t[0]);
      HostEnter(strict, UserinfoStart, InUserinfo, fields, p, t);
      HostJoin(strict, HostScan(UserinfoStart, fields), p, t, [AT_SIGN]);
      HostMarks(strict, fields[Userinfo := Slice(p, |t|)], p + |t|);
      HostOne(strict, HostScan(InUserinfo, fields[Userinfo := Slice(p, |t|)]), p + |t|, AT_SIGN);
    }
  }

  lemma HostPort(strict: bool, fields: Fields, p: nat, s: HostState, t: Text)
    requires All(t, IsNum) && p + |Behind(COLON, t)| < U16 && (s.InHost? || s.V6End?)
    ensures var r := HostAll(strict, HostScan(s, fields), p, Behind(COLON, t));
            MayEnd(r.s) && r.fields == Laid(fields, Port, p + 1, t)
  {
    hide ParseHostChar, HostStep, HostAll, IsNum;
    if t == [] {
      HostNothing(strict, HostScan(s, fields), p);
    } else {
      forall i | 0 <= i < |t| ensures ParseHostChar(strict, InPort, t[i]) == InPort {
        PortSteps(strict, t[i]);
      }
      PortSteps(strict, t[0]);
      HostMarks(strict, fields, p);
      HostOne(strict, HostScan(s, fields), p, COLON);
      HostJoin(strict, HostScan(s, fields), p, [COLON], t);
      HostEnter(strict, PortStart, InPort, fields, p + 1, t);
    }
  }

  // ---- The whole --------------------------------------------------------------------------------

  /** Where the parts of a URL are in its text. */
  function Layout(u: Parts): Fields {
    if u.Origin? then LaidTail(map[], 0, u)
    else
      var p, n := |u.scheme| + 3, |AuthorityText(u.authority)|;
      LaidAuthority(LaidTail(map[Schema := Slice(0, |u.scheme|), Host := Slice(p, n)], p + n, u)[Host := Slice(p, 0)],
                    p, u.authority)
  }

  function PortOf(u: Parts): nat {
    if u.Origin? then 0 else Number(u.authority.port)
  }

  lemma ScanScheme(strict: bool, scheme: Text)
    requires scheme != [] && All(scheme, IsAlpha) && |scheme| + 3 < U16
    ensures ScanAll(strict, Scan(ReqSpacesBeforeUrl, Max, map[], false), 0, scheme + [COLON, SLASH, SLASH]) ==
              Scan(ReqServerStart, Schema, map[Schema := Slice(0, |scheme|)], false)
  {
    hide ParseUrlChar, PlaceOf, ScanStep, ScanAll, IsAlpha;
    var start := Scan(ReqSpacesBeforeUrl, Max, map[], false);
    forall i | 0 <= i < |scheme| ensures ParseUrlChar(strict, ReqSchema, scheme[i]) == ReqSchema {
      SchemeSteps(strict, scheme[i]);
    }
    SchemeSteps(strict, scheme[0]);
    Places();
    EnterStays(strict, ReqSpacesBeforeUrl, ReqSchema, scheme, Schema);
    ScanField(strict, ReqSpacesBeforeUrl, Max, map[], false, 0, scheme, Schema, ReqSchema);
    ScanJoin(strict, start, 0, scheme, [COLON, SLASH, SLASH]);
    ScanSlashes(strict, Scan(ReqSchema, Schema, map[Schema := Slice(0, |scheme|)], false), |scheme|);
  }

  lemma SchemeSteps(strict: bool, ch: Byte)
    requires IsAlpha(ch)
    ensures ParseUrlChar(strict, ReqSpacesBeforeUrl, ch) == ReqSchema &&
            ParseUrlChar(strict, ReqSchema, ch) == ReqSchema
  {
  }

  lemma ScanSlashes(strict: bool, scan: Scan, p: nat)
    requires scan.Scan? && scan.s.ReqSchema?
    ensures ScanAll(strict, scan, p, [COLON, SLASH, SLASH]) == scan.(s := ReqServerStart)
  {
    hide ScanAll;
    ScanDelimiter(strict, scan, p, COLON);
    ScanDelimiter(strict, scan.(s := ReqSchemaSlash), p + 1, SLASH);
    ScanDelimiter(strict, scan.(s := ReqSchemaSlashSlash), p + 2, SLASH);
    ScanJoin(strict, scan, p, [COLON], [SLASH]);
    ScanJoin(strict, scan, p, [COLON] + [SLASH], [SLASH]);
    assert [COLON, SLASH, SLASH] == [COLON] + [SLASH] + [SLASH];
  }

  /** The first pass over an absolute URL. */
  lemma ScanAbsolute(strict: bool, u: Parts)
    requires Good(strict, u) && !BareFragment(u) && u.Absolute? && |UrlText(u)| < U16
    ensures var p, n := |u.scheme| + 3, |AuthorityText(u.authority)|;
            var r := ScanAll(strict, Scan(ReqSpacesBeforeUrl, Max, map[], false), 0, UrlText(u));
            && r.Scan? && r.foundAt == (u.authority.userinfo != [])
            && r.fields == LaidTail(map[Schema := Slice(0, |u.scheme|), Host := Slice(p, n)], p + n, u)
  {
    hide ScanAll, GoodTail, GoodAuthority, All, Tail, AuthorityText, LaidTail;
    var start := Scan(ReqSpacesBeforeUrl, Max, map[], false);
    var head, auth, tail := u.scheme + [COLON, SLASH, SLASH], AuthorityText(u.authority), Tail(u);
    var p := |u.scheme| + 3;
    assert UrlText(u) == head + (auth + tail);
    ScanScheme(strict, u.scheme);
    ScanJoin(strict, start, 0, head, auth + tail);
    var s1 := Scan(ReqServerStart, Schema, map[Schema := Slice(0, |u.scheme|)], false);
    ScanAuthority(strict, Schema, s1.fields, p, u.authority);
    ScanJoin(strict, s1, p, auth, tail);
    var s2 := ScanAll(strict, s1, p, auth);
    ScanTail(strict, s2, p + |auth|, u);
    assert s1.fields[Host := Slice(p, |auth|)] == map[Schema := Slice(0, |u.scheme|), Host := Slice(p, |auth|)];
  }

  lemma TailKeeps(fields: Fields, p: nat, u: Parts, f: Field)
    requires f != Path && f != Query && f != Fragment
    ensures f in LaidTail(fields, p, u) <==> f in fields
    ensures f in fields ==> LaidTail(fields, p, u)[f] == fields[f]
  {
  }

  /**
   Splitting undoes putting together: for every URL from good parts, shorter than 2^16 bytes, the fields are exactly its
   parts, each where it was put, and the port is the value of its digits. Only a fragment right behind the authority is
   not taken, though RFC 3986 has it.
   */
  lemma SplitAssembled(strict: bool, u: Parts)
    requires Good(strict, u) && |UrlText(u)| < U16
    ensures Split(strict, UrlText(u), false) == if BareFragment(u) then Invalid else Pieces(Layout(u), PortOf(u))
  {
    if BareFragment(u) {
      FragmentRejected(strict, u);
    } else {
      SplitTaken(strict, u);
    }
  }

  lemma FragmentRejected(strict: bool, u: Parts)
    requires Good(strict, u) && BareFragment(u) && |UrlText(u)| < U16
    ensures Split(strict, UrlText(u), false) == Invalid
  {
    hide ScanAll, GoodTail, GoodAuthority, All, AuthorityText;
    var start := Scan(ReqSpacesBeforeUrl, Max, map[], false);
    var head, auth, tail := u.scheme + [COLON, SLASH, SLASH], AuthorityText(u.authority), Tail(u);
    var p := |u.scheme| + 3;
    assert UrlText(u) == head + (auth + tail);
    ScanScheme(strict, u.scheme);
    ScanJoin(strict, start, 0, head, auth + tail);
    var s1 := Scan(ReqServerStart, Schema, map[Schema := Slice(0, |u.scheme|)], false);
    ScanAuthority(strict, Schema, s1.fields, p, u.authority);
    ScanJoin(strict, s1, p, auth, tail);
    var s2 := ScanAll(strict, s1, p, auth);
    assert tail == [NUMBER_SIGN] + u.fragment.text;
    NumberSignInServer(strict, s2, p + |auth|, u.fragment.text);
  }

  lemma NumberSignInServer(strict: bool, scan: Scan, p: nat, t: Text)
    requires scan.Scan? && scan.s.ReqServer?
    ensures ScanAll(strict, scan, p, [NUMBER_SIGN] + t) == BadUrl
  {
    assert ScanStep(strict, scan, p, NUMBER_SIGN) == BadUrl;
    assert ([NUMBER_SIGN] + t)[1..] == t;
    ScanBadUrl(strict, p + 1, t);
  }

  lemma SplitTaken(strict: bool, u: Parts)
    requires Good(strict, u) && !BareFragment(u) && |UrlText(u)| < U16
    ensures Split(strict, UrlText(u), false) == Pieces(Layout(u), PortOf(u))
  {
    hide ScanAll, HostAll, GoodTail, GoodHost, All, LaidTail, LaidAuthority, Number, Finish;
    var buf := UrlText(u);
    if u.Origin? {
      ScanTail(strict, Scan(ReqSpacesBeforeUrl, Max, map[], false), 0, u);
      TailKeeps(map[], 0, u, Schema);
      TailKeeps(map[], 0, u, Host);
      TailKeeps(map[], 0, u, Port);
      FinishPlain(buf, Layout(u));
    } else {
      var p, a := |u.scheme| + 3, u.authority;
      var n := |AuthorityText(a)|;
      var first := map[Schema := Slice(0, |u.scheme|), Host := Slice(p, n)];
      var fields := LaidTail(first, p + n, u);
      ScanAbsolute(strict, u);
      TailKeeps(first, p + n, u, Host);
      TailKeeps(first, p + n, u, Port);
      CutAuthority(u);
      HostAuthority(strict, fields[Host := Slice(p, 0)], p, a);
      TextNotEmpty(u);
      FinishAuthority(u, fields[Host := Slice(p, 0)]);
    }
  }

  lemma TextNotEmpty(u: Parts)
    requires u.Absolute?
    ensures UrlText(u) != []
  {
  }

  lemma CutAuthority(u: Parts)
    requires u.Absolute?
    ensures Cut(UrlText(u), Slice(|u.scheme| + 3, |AuthorityText(u.authority)|)) == AuthorityText(u.authority)
  {
    hide AuthorityText, Tail;
    CutMiddle(u.scheme + [COLON, SLASH, SLASH], AuthorityText(u.authority), Tail(u));
    assert UrlText(u) == u.scheme + [COLON, SLASH, SLASH] + AuthorityText(u.authority) + Tail(u);
  }

  lemma CutMiddle(a: Text, t: Text, b: Text)
    ensures Cut(a + t + b, Slice(|a|, |t|)) == t
  {
  }

  lemma FinishPlain(buf: Text, fields: Fields)
    requires Port !in fields
    ensures Finish(buf, false, fields) == Pieces(fields, 0)
  {
  }

  lemma FinishAuthority(u: Parts, fields: Fields)
    requires u.Absolute? && Port !in fields
    requires All(u.authority.port, IsNum) && Number(u.authority.port) <= 0xFFFF
    ensures var r := LaidAuthority(fields, |u.scheme| + 3, u.authority);
            Finish(UrlText(u), false, r) == Pieces(r, Number(u.authority.port))
  {
    hide Number, Tail, HostText, UrlText;
    var a := u.authority;
    if a.port == [] {
      NoDigits();
    } else {
      CutPort(u);
      assert Number([]) == 0 && a.port[..0] == [] && a.port[0..] == a.port by { NoDigits(); }
      DigitsConverted(a.port, 0);
    }
  }

  lemma NoDigits()
    ensures Number([]) == 0
  {
  }

  lemma CutPort(u: Parts)
    requires u.Absolute? && u.authority.port != []
    ensures var a := u.authority;
            Cut(UrlText(u), Slice(|u.scheme| + 3 + |Before(a.userinfo, AT_SIGN)| + |HostText(a.host)| + 1, |a.port|)) ==
                a.port
  {
    hide Tail, HostText, Before;
    var a := u.authority;
    var head := u.scheme + [COLON, SLASH, SLASH] + Before(a.userinfo, AT_SIGN) + HostText(a.host) + [COLON];
    CutMiddle(head, a.port, Tail(u));
    assert UrlText(u) == head + a.port + Tail(u);
  }

  // ---- What the fields show ---------------------------------------------------------------------

  /** A field is set if and only if its part is there, and then it cuts out just that part. */
  predicate Shows(buf: Text, fields: Fields, f: Field, t: Text) {
    if t == [] then f !in fields else f in fields && Cut(buf, fields[f]) == t
  }

  lemma CutIs(buf: Text, a: Text, t: Text, b: Text)
    requires buf == a + t + b
    ensures Cut(buf, Slice(|a|, |t|)) == t
  {
    CutMiddle(a, t, b);
  }

  lemma CutPath(buf: Text, head: Text, u: Parts)
    requires buf == head + Tail(u)
    ensures Cut(buf, Slice(|head|, |u.path|)) == u.path
  {
    hide Cut, Marked;
    var more := Marked(QUESTION, u.query) + Marked(NUMBER_SIGN, u.fragment);
    assert buf == head + u.path + more;
    CutIs(buf, head, u.path, more);
  }

  lemma CutQuery(buf: Text, head: Text, u: Parts)
    requires buf == head + Tail(u) && u.query.Present?
    ensures Cut(buf, Slice(|head| + |u.path| + 1, |u.query.text|)) == u.query.text
  {
    hide Cut;
    var before, more := head + u.path + [QUESTION], Marked(NUMBER_SIGN, u.fragment);
    assert buf == before + u.query.text + more;
    CutIs(buf, before, u.query.text, more);
  }

  lemma CutFragment(buf: Text, head: Text, u: Parts)
    requires buf == head + Tail(u) && u.fragment.Present?
    ensures Cut(buf, Slice(|head| + |u.path| + |Marked(QUESTION, u.query)| + 1, |u.fragment.text|)) == u.fragment.text
  {
    hide Cut;
    var before := head + u.path + Marked(QUESTION, u.query) + [NUMBER_SIGN];
    assert buf == before + u.fragment.text + [];
    CutIs(buf, before, u.fragment.text, []);
  }

  lemma TailShows(buf: Text, head: Text, fields: Fields, u: Parts)
    requires buf == head + Tail(u)
    requires Path !in fields && Query !in fields && Fragment !in fields
    ensures var r := LaidTail(fields, |head|, u);
            Shows(buf, r, Path, u.path) && Shows(buf, r, Query, TextOf(u.query)) &&
                Shows(buf, r, Fragment, TextOf(u.fragment))
  {
    hide Cut, Tail;
    CutPath(buf, head, u);
    if u.query.Present? {
      CutQuery(buf, head, u);
    }
    if u.fragment.Present? {
      CutFragment(buf, head, u);
    }
  }

  lemma CutUserinfo(u: Parts)
    requires u.Absolute?
    ensures Cut(UrlText(u), Slice(|u.scheme| + 3, |u.authority.userinfo|)) == u.authority.userinfo
  {
    hide Cut, Tail, HostText;
    var a := u.authority;
    var before, more := u.scheme + [COLON, SLASH, SLASH],
        (if a.userinfo == [] then [] else [AT_SIGN]) + (HostText(a.host) + Behind(COLON, a.port)) + Tail(u);
    assert UrlText(u) == before + a.userinfo + more;
    CutIs(UrlText(u), before, a.userinfo, more);
  }

  lemma CutHost(u: Parts)
    requires u.Absolute?
    ensures var a := u.authority;
            Cut(UrlText(u), Slice(|u.scheme| + 3 + |Before(a.userinfo, AT_SIGN)| + HostBegin(a.host),
                                  |HostInner(a.host)|)) ==
              HostInner(a.host)
  {
    hide Cut, Tail, Before, Behind, UrlText;
    var a := u.authority;
    var before, more := u.scheme + [COLON, SLASH, SLASH] + Before(a.userinfo, AT_SIGN), Behind(COLON, a.port) + Tail(u);
    HostInText(u);
    if a.host.Bracketed? {
      var inner := HostInner(a.host);
      BracketsAround(before, inner, more);
      CutIs(UrlText(u), before + [OPEN], inner, [CLOSE] + more);
    } else {
      CutIs(UrlText(u), before, a.host.name, more);
    }
  }

  lemma HostInText(u: Parts)
    requires u.Absolute?
    ensures var a := u.authority;
            UrlText(u) == u.scheme + [COLON, SLASH, SLASH] + Before(a.userinfo, AT_SIGN) + HostText(a.host) +
                (Behind(COLON, a.port) + Tail(u))
  {
    hide Tail, Before, Behind, HostText;
  }

  lemma BracketsAround(before: Text, inner: Text, more: Text)
    ensures before + ([OPEN] + inner + [CLOSE]) + more == before + [OPEN] + inner + ([CLOSE] + more)
  {
  }

  lemma CutScheme(u: Parts)
    requires u.Absolute?
    ensures Cut(UrlText(u), Slice(0, |u.scheme|)) == u.scheme
  {
    hide Cut, Tail, AuthorityText;
    var more := [COLON, SLASH, SLASH] + (AuthorityText(u.authority) + Tail(u));
    assert UrlText(u) == [] + u.scheme + more;
    CutIs(UrlText(u), [], u.scheme, more);
  }

  /** The layout shows every part of the URL, and nothing that is not there. */
  lemma LayoutShows(strict: bool, u: Parts)
    requires Good(strict, u)
    ensures var buf, r := UrlText(u), Layout(u);
            && Shows(buf, r, Schema, if u.Absolute? then u.scheme else [])
            && Shows(buf, r, Userinfo, if u.Absolute? then u.authority.userinfo else [])
            && Shows(buf, r, Host, if u.Absolute? then HostInner(u.authority.host) else [])
            && Shows(buf, r, Port, if u.Absolute? then u.authority.port else [])
            && Shows(buf, r, Path, u.path) && Shows(buf, r, Query, TextOf(u.query)) &&
               Shows(buf, r, Fragment, TextOf(u.fragment))
  {
    hide Cut, Tail, LaidTail, AuthorityText, HostText, Before, UrlText, GoodTail, All;
    if u.Origin? {
      OriginText(u);
      TailShows(UrlText(u), [], map[], u);
      TailKeeps(map[], 0, u, Schema);
      TailKeeps(map[], 0, u, Host);
      TailKeeps(map[], 0, u, Port);
      TailKeeps(map[], 0, u, Userinfo);
    } else {
      AbsoluteShows(strict, u);
    }
  }

  lemma OriginText(u: Parts)
    requires u.Origin?
    ensures UrlText(u) == [] + Tail(u)
  {
  }

  lemma AbsoluteShows(strict: bool, u: Parts)
    requires Good(strict, u) && u.Absolute?
    ensures var buf, r := UrlText(u), Layout(u);
            && Shows(buf, r, Schema, u.scheme) && Shows(buf, r, Userinfo, u.authority.userinfo)
            && Shows(buf, r, Host, HostInner(u.authority.host)) && Shows(buf, r, Port, u.authority.port)
            && Shows(buf, r, Path, u.path) && Shows(buf, r, Query, TextOf(u.query)) &&
               Shows(buf, r, Fragment, TextOf(u.fragment))
  {
    hide Cut, Tail, LaidTail, AuthorityText, HostText, Before, UrlText, GoodTail, All;
    var a := u.authority;
    var p, n := |u.scheme| + 3, |AuthorityText(a)|;
    var first := map[Schema := Slice(0, |u.scheme|), Host := Slice(p, n)];
    AbsoluteText(u);
    TailShows(UrlText(u), u.scheme + [COLON, SLASH, SLASH] + AuthorityText(a), first, u);
    TailKeeps(first, p + n, u, Schema);
    TailKeeps(first, p + n, u, Userinfo);
    TailKeeps(first, p + n, u, Port);
    CutScheme(u);
    CutUserinfo(u);
    CutHost(u);
    InnerNotEmpty(strict, a.host);
    if a.port != [] {
      CutPort(u);
    }
  }

  lemma AbsoluteText(u: Parts)
    requires u.Absolute?
    ensures UrlText(u) == u.scheme + [COLON, SLASH, SLASH] + AuthorityText(u.authority) + Tail(u)
  {
    hide AuthorityText, Tail;
  }

  lemma InnerNotEmpty(strict: bool, h: HostPart)
    requires GoodHost(strict, h)
    ensures HostInner(h) != []
  {
  }
}
