/**
 The URL splitter: one pass with the states of the request parser, a second one over the authority, and the port.
 */
module HttpUrl {
  import opened HttpTypes
  import opened HttpStep

  type Text = seq<Byte>

  const U16: nat := 0x1_0000

  datatype Field = Schema | Host | Port | Path | Query | Fragment | Userinfo | Max

  /** A piece of the URL, in 16 bits. */
  datatype Slice = Slice(off: nat, len: nat)

  type Fields = map<Field, Slice>

  function At(p: nat, n: nat): Slice {
    Slice(p % U16, n % U16)
  }

  /** One more byte of a field. */
  function Longer(fields: Fields, f: Field): Fields {
    if f in fields then fields[f := Slice(fields[f].off, (fields[f].len + 1) % U16)] else fields
  }

  // ---- The first pass ---------------------------------------------------------------------------

  datatype Place = Nowhere | Delimiter | In(field: Field)

  function PlaceOf(s: State): Place {
    match s
    case ReqSchemaSlash => Delimiter
    case ReqSchemaSlashSlash => Delimiter
    case ReqServerStart => Delimiter
    case ReqQueryStringStart => Delimiter
    case ReqFragmentStart => Delimiter
    case ReqSchema => In(Schema)
    case ReqServerWithAt => In(Host)
    case ReqServer => In(Host)
    case ReqPath => In(Path)
    case ReqQueryString => In(Query)
    case ReqFragment => In(Fragment)
    case _ => Nowhere
  }

  /**
   The state of the pass: the parser's, the field of the byte before, the fields so far, and whether there was
   an @.
   */
  datatype Scan = Scan(s: State, last: Field, fields: Fields, foundAt: bool) | BadUrl

  function ScanStep(strict: bool, scan: Scan, p: nat, ch: Byte): Scan {
    if scan.BadUrl? then BadUrl
    else
      var s := ParseUrlChar(strict, scan.s, ch);
      match PlaceOf(s)
      case Nowhere => BadUrl
      case Delimiter => scan.(s := s)
      case In(f) =>
        var foundAt := scan.foundAt || s.ReqServerWithAt?;
        if f == scan.last then Scan(s, f, Longer(scan.fields, f), foundAt)
        else Scan(s, f, scan.fields[f := At(p, 1)], foundAt)
  }

  function ScanAll(strict: bool, scan: Scan, p: nat, t: Text): Scan
    decreases |t|
  {
    if t == [] then scan else ScanAll(strict, ScanStep(strict, scan, p, t[0]), p + 1, t[1..])
  }

  // ---- The second pass --------------------------------------------------------------------------

  datatype HostState =
    | HostDead
    | UserinfoStart | InUserinfo
    | HostStart | V6Start | InHost | InV6 | V6End | ZoneStart | InZone
    | PortStart | InPort

  predicate IsHostChar(strict: bool, ch: Byte) {
    IsAlphaNum(ch) || ch == '.' as int || ch == '-' as int || (!strict && ch == '_' as int)
  }

  predicate IsZoneChar(ch: Byte) {
    IsAlphaNum(ch) || ch == '%' as int || ch == '.' as int || ch == '-' as int || ch == '_' as int || ch == '~' as int
  }

  predicate IsV6Char(ch: Byte) {
    IsHex(ch) || ch == ':' as int || ch == '.' as int
  }

  /** http_parse_host_char. */
  function ParseHostChar(strict: bool, s: HostState, ch: Byte): HostState {
    match s
    case InUserinfo => UserinfoChar(ch)
    case UserinfoStart => UserinfoChar(ch)
    case HostStart => if ch == '[' as int then V6Start else if IsHostChar(strict, ch) then InHost else HostDead
    case InHost => if IsHostChar(strict, ch) then InHost else if ch == ':' as int then PortStart else HostDead
    case V6End => if ch == ':' as int then PortStart else HostDead
    case InV6 =>
      if ch == ']' as int then V6End else if IsV6Char(ch) then InV6 else if ch == '%' as int then ZoneStart
          else HostDead
    case V6Start => if IsV6Char(ch) then InV6 else HostDead
    case InZone => if ch == ']' as int then V6End else if IsZoneChar(ch) then InZone else HostDead
    case ZoneStart => if IsZoneChar(ch) then InZone else HostDead
    case InPort => if IsNum(ch) then InPort else HostDead
    case PortStart => if IsNum(ch) then InPort else HostDead
    case HostDead => HostDead
  }

  function UserinfoChar(ch: Byte): HostState {
    if ch == '@' as int then HostStart else if IsUserinfoChar(ch) then InUserinfo else HostDead
  }

  datatype HostScan = HostScan(s: HostState, fields: Fields)

  function HostStep(strict: bool, h: HostScan, p: nat, ch: Byte): HostScan {
    var s := ParseHostChar(strict, h.s, ch);
    match s
    case InHost => HostScan(s, Longer(if h.s != s then Moved(h.fields, p) else h.fields, Host))
    case InV6 => HostScan(s, Longer(if h.s != s then Moved(h.fields, p) else h.fields, Host))
    case ZoneStart => HostScan(s, Longer(h.fields, Host))
    case InZone => HostScan(s, Longer(h.fields, Host))
    case InPort => HostScan(s, Longer(if h.s != s then h.fields[Port := At(p, 0)] else h.fields, Port))
    case InUserinfo => HostScan(s, Longer(if h.s != s then h.fields[Userinfo := At(p, 0)] else h.fields, Userinfo))
    case _ => HostScan(s, h.fields)
  }

  /** The host begins here after all. */
  function Moved(fields: Fields, p: nat): Fields {
    if Host in fields then fields[Host := Slice(p % U16, fields[Host].len)] else fields
  }

  function HostAll(strict: bool, h: HostScan, p: nat, t: Text): HostScan
    decreases |t|
  {
    if t == [] || h.s.HostDead? then h else HostAll(strict, HostStep(strict, h, p, t[0]), p + 1, t[1..])
  }

  /** Where an authority may end. */
  predicate MayEnd(s: HostState) {
    s.InHost? || s.V6End? || s.InPort?
  }

  // ---- The whole --------------------------------------------------------------------------------

  datatype Result = Pieces(fields: Fields, port: nat) | Invalid

  const U64: int := 0x1_0000_0000_0000_0000

  /** A byte as a char, which is signed, less '0'. */
  function CharLessZero(ch: Byte): int {
    (if ch < 128 then ch else ch - 256) - '0' as int
  }

  /** The value of digits, or that it is too big. */
  datatype PortNumber = PortNumber(value: nat) | TooBig

  /** One more byte of the port, taken for a digit whatever it is, in 64 bits. */
  function PortStep(v: nat, ch: Byte): PortNumber {
    var n := (v * 10 + CharLessZero(ch)) % U64;
    if n > 0xFFFF then TooBig else PortNumber(n)
  }

  /** The conversion of the bytes of a port, which ends where it becomes too big. */
  function Converted(v: nat, bytes: Text): PortNumber
    decreases |bytes|
  {
    if bytes == [] then PortNumber(v)
    else
      match PortStep(v, bytes[0])
      case TooBig => TooBig
      case PortNumber(n) => Converted(n, bytes[1..])
  }

  /** Of digits it gives their value, if that is at most 65535. */
  lemma {:induction false} DigitsConverted(digits: Text, k: nat)
    requires k <= |digits| && (forall i :: 0 <= i < |digits| ==> IsNum(digits[i])) && Number(digits[..k]) <= 0xFFFF
    ensures Converted(Number(digits[..k]), digits[k..]) ==
              if Number(digits) <= 0xFFFF then PortNumber(Number(digits)) else TooBig
    decreases |digits| - k
  {
    hide PortStep;
    if k == |digits| {
      assert digits[..k] == digits;
    } else {
      NumberGrows(digits, k + 1);
      assert digits[..k + 1][..k] == digits[..k];
      assert digits[k..][1..] == digits[k + 1..];
      DigitStep(Number(digits[..k]), digits[k]);
      if Number(digits[..k + 1]) <= 0xFFFF {
        DigitsConverted(digits, k + 1);
      }
    }
  }

  lemma DigitStep(v: nat, ch: Byte)
    requires v <= 0xFFFF && IsNum(ch)
    ensures var n := v * 10 + (ch - '0' as int);
            PortStep(v, ch) == if n > 0xFFFF then TooBig else PortNumber(n)
  {
  }

  /** Two bytes that are no digits: a 16-bit slice of a longer URL may hold them. */
  lemma LettersConverted()
    ensures Converted(0, ['p' as int, ':' as int]) == PortNumber(650)
  {
    assert PortStep(0, 'p' as int) == PortNumber(64) && PortStep(64, ':' as int) == PortNumber(650);
    var bytes: Text := ['p' as int, ':' as int];
    assert bytes[1..] == [':' as int] && bytes[1..][1..] == [];
    assert Converted(64, bytes[1..]) == PortNumber(650);
  }

  /** The bytes of a slice, as far as they are there. */
  function Cut(buf: Text, s: Slice): Text {
    if s.off + s.len <= |buf| then buf[s.off..s.off + s.len] else []
  }

  function SplitHost(strict: bool, buf: Text, scan: Scan): HostScan
    requires scan.Scan? && Host in scan.fields
  {
    var f := scan.fields[Host];
    HostAll(strict, HostScan(if scan.foundAt then UserinfoStart else HostStart, scan.fields[Host := Slice(f.off, 0)]),
            f.off, Cut(buf, f))
  }

  function Finish(buf: Text, isConnect: bool, fields: Fields): Result {
    if isConnect && fields.Keys != {Host, Port} then Invalid
    else if Port !in fields then Pieces(fields, 0)
    else
      match Converted(0, Cut(buf, fields[Port]))
      case TooBig => Invalid
      case PortNumber(port) => Pieces(fields, port)
  }

  function Split(strict: bool, buf: Text, isConnect: bool): Result {
    if buf == [] then Invalid
    else
      var scan := ScanAll(strict, Scan(if isConnect then ReqServerStart else ReqSpacesBeforeUrl, Max, map[], false), 0,
                          buf);
      if scan.BadUrl? || (Schema in scan.fields && Host !in scan.fields) then Invalid
      else if Host !in scan.fields then Finish(buf, isConnect, scan.fields)
      else
        var h := SplitHost(strict, buf, scan);
        if !MayEnd(h.s) then Invalid else Finish(buf, isConnect, h.fields)
  }

  // ---- In place ---------------------------------------------------------------------------------

  /** http_parser_url: the fields that are set, and the port. */
  class ParsedUrl {
    var fields: Fields
    var port: nat

    constructor ()
      ensures fields == map[] && port == 0
    {
      fields, port := map[], 0;
    }

    /** http_parse_host. */
    method ParseHost(strict: bool, buf: Text, foundAt: bool) returns (ok: bool)
      requires Host in fields && fields[Host].off + fields[Host].len <= |buf|
      modifies `fields
      ensures var f := old(fields)[Host];
              var start := if foundAt then UserinfoStart else HostStart;
              var h := HostAll(strict, HostScan(start, old(fields)[Host := Slice(f.off, 0)]), f.off, Cut(buf, f));
              ok == MayEnd(h.s) && (ok ==> fields == h.fields)
      ensures Port !in old(fields) && Port in fields ==> fields[Port].off + fields[Port].len <= |buf|
    {
      hide ParseHostChar, HostStep;
      var off, end := fields[Host].off, fields[Host].off + fields[Host].len;
      ghost var t := Cut(buf, fields[Host]);
      fields := fields[Host := Slice(off, 0)];
      var s := if foundAt then UserinfoStart else HostStart;
      ghost var whole := HostAll(strict, HostScan(s, fields), off, t);
      assert buf[off..end] == t;
      var p := off;
      while p < end
        invariant off <= p <= end && !s.HostDead?
        invariant Port !in old(fields) && Port in fields ==> fields[Port].off + fields[Port].len <= p
        invariant HostAll(strict, HostScan(s, fields), p, buf[p..end]) == whole
      {
        HostAllStep(strict, HostScan(s, fields), p, buf[p..end]);
        assert buf[p..end][1..] == buf[p + 1..end];
        if Port !in old(fields) {
          PortInBounds(strict, HostScan(s, fields), p, buf[p]);
        }
        var h := HostStep(strict, HostScan(s, fields), p, buf[p]);
        s, fields := h.s, h.fields;
        if s.HostDead? {
          HostDeadEnds(strict, h, p + 1, buf[p + 1..end]);
          return false;
        }
        p := p + 1;
      }
      ok := MayEnd(s);
    }

    /** The conversion of the port, which ends as soon as it is too big. */
    method ParsePort(bytes: Text) returns (ok: bool)
      modifies `port
      ensures ok == Converted(0, bytes).PortNumber? && (ok ==> port == Converted(0, bytes).value)
      ensures (forall i :: 0 <= i < |bytes| ==> IsNum(bytes[i])) ==>
                ok == (Number(bytes) <= 0xFFFF) && (ok ==> port == Number(bytes))
    {
      if forall i :: 0 <= i < |bytes| ==> IsNum(bytes[i]) {
        assert Number(bytes[..0]) == 0 && bytes[0..] == bytes;
        DigitsConverted(bytes, 0);
      }
      var v: nat, k: nat := 0, 0;
      while k < |bytes|
        invariant 0 <= k <= |bytes| && v <= 0xFFFF && Converted(v, bytes[k..]) == Converted(0, bytes)
      {
        assert bytes[k..][1..] == bytes[k + 1..];
        v := (v * 10 + CharLessZero(bytes[k])) % U64;
        if v > 0xFFFF {
          return false;
        }
        k := k + 1;
      }
      port := v;
      ok := true;
    }

    /** http_parser_parse_url. The fields are 16 bits wide, but nothing outside the buffer is looked at. */
    method ParseUrl(strict: bool, buf: Text, isConnect: bool) returns (ok: bool)
      modifies this
      ensures ok == Split(strict, buf, isConnect).Pieces?
      ensures ok ==> Split(strict, buf, isConnect) == Pieces(fields, port)
    {
      hide ParseUrlChar, PlaceOf, ScanStep, HostAll, Number;
      if |buf| == 0 {
        return false;
      }
      port, fields := 0, map[];
      var scan := Scan(if isConnect then ReqServerStart else ReqSpacesBeforeUrl, Max, map[], false);
      ghost var whole := ScanAll(strict, scan, 0, buf);
      assert buf[0..] == buf;
      var p := 0;
      while p < |buf|
        invariant 0 <= p <= |buf| && scan.Scan? && InBounds(scan.fields, p) && Port !in scan.fields && port == 0
        invariant ScanAll(strict, scan, p, buf[p..]) == whole
      {
        assert buf[p..][1..] == buf[p + 1..];
        StaysInBounds(strict, scan, p, buf[p]);
        scan := ScanStep(strict, scan, p, buf[p]);
        if scan.BadUrl? {
          ScanBadUrl(strict, p + 1, buf[p + 1..]);
          return false;
        }
        p := p + 1;
      }
      fields := scan.fields;
      if Schema in fields && Host !in fields {
        return false;
      }
      if Host in fields {
        assert InBounds(fields, |buf|);
        var good := ParseHost(strict, buf, scan.foundAt);
        if !good {
          return false;
        }
      }
      if isConnect && fields.Keys != {Host, Port} {
        return false;
      }
      if Port in fields {
        assert fields[Port].off + fields[Port].len <= |buf|;
        var good := ParsePort(Cut(buf, fields[Port]));
        return good;
      }
      ok := true;
    }
  }

  /** All fields lie in the first `p` bytes. */
  predicate InBounds(fields: Fields, p: nat) {
    forall f :: f in fields ==> fields[f].off + fields[f].len <= p
  }

  lemma StaysInBounds(strict: bool, scan: Scan, p: nat, ch: Byte)
    requires scan.Scan? && InBounds(scan.fields, p) && Port !in scan.fields
    ensures var r := ScanStep(strict, scan, p, ch); r.Scan? ==> InBounds(r.fields, p + 1) && Port !in r.fields
  {
    hide ParseUrlChar, PlaceOf;
    NoPortPlace(ParseUrlChar(strict, scan.s, ch));
  }

  lemma NoPortPlace(s: State)
    ensures PlaceOf(s) != In(Port)
  {
  }

  lemma PortInBounds(strict: bool, h: HostScan, p: nat, ch: Byte)
    requires Port in h.fields ==> h.fields[Port].off + h.fields[Port].len <= p
    ensures var r := HostStep(strict, h, p, ch);
            Port in r.fields ==> r.fields[Port].off + r.fields[Port].len <= p + 1
  {
    hide ParseHostChar;
  }

  lemma {:induction false} ScanBadUrl(strict: bool, p: nat, t: Text)
    ensures ScanAll(strict, BadUrl, p, t) == BadUrl
    decreases |t|
  {
    if t != [] {
      ScanBadUrl(strict, p + 1, t[1..]);
    }
  }

  lemma HostAllStep(strict: bool, h: HostScan, p: nat, t: Text)
    requires t != [] && !h.s.HostDead?
    ensures HostAll(strict, h, p, t) == HostAll(strict, HostStep(strict, h, p, t[0]), p + 1, t[1..])
  {
    hide HostStep;
  }

  lemma HostDeadEnds(strict: bool, h: HostScan, p: nat, t: Text)
    requires h.s.HostDead?
    ensures HostAll(strict, h, p, t) == h
  {
  }

  lemma {:induction false} NumberGrows(digits: Text, k: nat)
    requires k <= |digits|
    ensures Number(digits[..k]) <= Number(digits)
    decreases |digits|
  {
    if k < |digits| {
      var front := digits[..|digits| - 1];
      assert front[..k] == digits[..k];
      NumberGrows(front, k);
    } else {
      assert digits[..k] == digits;
    }
  }
}
