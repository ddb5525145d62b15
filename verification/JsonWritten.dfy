/**
 Values written as texts with the lexers the parsers have: strings escaped, integers in decimal. Both parsers give back
 the value.
 */
module JsonWritten {
  import opened JsonTypes
  import opened JsonLexers
  import JsonRecursive
  import JsonIterative
  import opened JsonDocument
  import JsonCounts
  import opened JsonText
  import JsonNumber
  import JsonString
  import JsonQuoted
  import Utf8
  import opened Ascii

  // ---- Numbers ----------------------------------------------------------------------------------

  function IntegerText(n: int): string {
    if n < 0 then "-" + Decimal(-n) else Decimal(n)
  }

  lemma DigitAt(d: nat)
    requires d < 10
    ensures JsonNumber.IsDigit(DigitOf(d)) && JsonNumber.DigitValue(DigitOf(d)) == d
    ensures DigitOf(d) == '0' <==> d == 0
  {
  }

  /** The digits at a position have the value of the number, and only zero begins with a zero. */
  lemma {:induction false} DecimalBack(t: Text, i: nat, n: nat)
    requires Has(t, i, Decimal(n))
    ensures forall k :: i <= k < i + |Decimal(n)| ==> JsonNumber.IsDigit(Peek(t, k))
    ensures JsonNumber.Value(t, i, i + |Decimal(n)|) == n
    ensures Decimal(n)[0] == '0' <==> n == 0
    decreases n
  {
    hide Has;
    HasInside(t, i, Decimal(n));
    if n < 10 {
      DigitAt(n);
      HasFirst(t, i, Decimal(n));
      assert JsonNumber.Value(t, i, i) == 0;
    } else {
      var s := Decimal(n / 10);
      HasParts(t, i, s, [DigitOf(n % 10)]);
      HasFirst(t, i + |s|, [DigitOf(n % 10)]);
      DigitAt(n % 10);
      DecimalBack(t, i, n / 10);
    }
  }

  // ---- A number wherever it stands --------------------------------------------------------------

  /** The text has `s` at `pos` and nothing of a number behind it. */
  predicate Stands(t: Text, pos: nat, s: string) {
    Has(t, pos, s) && DelimitedAt(t, pos + |s|)
  }

  lemma PeekInside(t: Text, pos: nat, s: string, k: nat)
    requires Stands(t, pos, s) && k <= |s|
    ensures k < |s| ==> Peek(t, pos + k) == Peek(s, k)
    ensures k == |s| ==> PastNumber(Peek(t, pos + k)) && PastNumber(Peek(s, k))
  {
    if k < |s| {
      assert t[pos + k] == t[pos..pos + |s|][k];
    }
  }

  predicate PastNumber(c: char) {
    !JsonNumber.IsDigit(c) && c != '.' && c != 'e' && c != 'E' && c != '+' && c != '-'
  }

  lemma {:induction false} DigitsStand(t: Text, pos: nat, s: string, k: nat)
    requires Stands(t, pos, s) && k <= |s|
    ensures JsonNumber.DigitsEnd(t, pos + k) == pos + JsonNumber.DigitsEnd(s, k)
    decreases |s| - k
  {
    hide Stands;
    PeekInside(t, pos, s, k);
    if k < |s| && JsonNumber.IsDigit(s[k]) {
      StandsInside(t, pos, s);
      DigitsStand(t, pos, s, k + 1);
    }
  }

  lemma StandsInside(t: Text, pos: nat, s: string)
    requires Stands(t, pos, s)
    ensures pos + |s| <= |t|
  {
  }

  /** What a shape is elsewhere. */
  function Moved(shape: JsonNumber.Shape, pos: nat): JsonNumber.Shape {
    match shape
    case Malformed(code, offset) => JsonNumber.Malformed(code, pos + offset)
    case Integer(next) => JsonNumber.Integer(pos + next)
    case Decimal(next) => JsonNumber.Decimal(pos + next)
  }

  predicate Whole(s: string) {
    JsonNumber.ShapeOf(s, 0) == JsonNumber.Integer(|s|) || JsonNumber.ShapeOf(s, 0) == JsonNumber.Decimal(|s|)
  }

  lemma IntegerStands(t: Text, pos: nat, s: string)
    requires Stands(t, pos, s) && Whole(s)
    ensures var a := JsonNumber.IntBegin(s, 0);
            && JsonNumber.IntBegin(t, pos) == pos + a && a < |s| && JsonNumber.IsDigit(Peek(s, a))
            && Peek(t, pos + a) == Peek(s, a) && Peek(t, pos) == Peek(s, 0)
            && JsonNumber.IntEnd(t, pos + a) == pos + JsonNumber.IntEnd(s, a) && JsonNumber.IntEnd(s, a) <= |s|
  {
    hide Stands, JsonNumber.FractionEnd, JsonNumber.HasExponent, JsonNumber.ExponentBegin;
    var a := JsonNumber.IntBegin(s, 0);
    PeekInside(t, pos, s, 0);
    PeekInside(t, pos, s, a);
    DigitsStand(t, pos, s, a);
  }

  lemma FractionStands(t: Text, pos: nat, s: string, b: nat)
    requires Stands(t, pos, s) && b <= |s|
    ensures Peek(t, pos + b) == '.' <==> Peek(s, b) == '.'
    ensures Peek(s, b) == '.' ==>
              (JsonNumber.IsDigit(Peek(t, pos + b + 1)) <==> JsonNumber.IsDigit(Peek(s, b + 1)))
    ensures JsonNumber.FractionEnd(t, pos + b) == pos + JsonNumber.FractionEnd(s, b)
    ensures JsonNumber.FractionEnd(s, b) <= |s|
  {
    hide Stands;
    PeekInside(t, pos, s, b);
    if Peek(s, b) == '.' {
      PeekInside(t, pos, s, b + 1);
      DigitsStand(t, pos, s, b + 1);
    }
  }

  lemma ExponentStands(t: Text, pos: nat, s: string, c: nat)
    requires Stands(t, pos, s) && c <= |s|
    ensures JsonNumber.HasExponent(t, pos + c) <==> JsonNumber.HasExponent(s, c)
    ensures JsonNumber.HasExponent(s, c) ==>
              var x := JsonNumber.ExponentBegin(s, c);
              && JsonNumber.ExponentBegin(t, pos + c) == pos + x
              && (JsonNumber.IsDigit(Peek(t, pos + x)) <==> JsonNumber.IsDigit(Peek(s, x)))
              && JsonNumber.DigitsEnd(t, pos + x) == pos + JsonNumber.DigitsEnd(s, x)
  {
    hide Stands;
    PeekInside(t, pos, s, c);
    if JsonNumber.HasExponent(s, c) {
      PeekInside(t, pos, s, c + 1);
      var x := JsonNumber.ExponentBegin(s, c);
      PeekInside(t, pos, s, x);
      DigitsStand(t, pos, s, x);
    }
  }

  lemma ShapeStands(t: Text, pos: nat, s: string)
    requires Stands(t, pos, s) && Whole(s)
    ensures JsonNumber.ShapeOf(t, pos) == Moved(JsonNumber.ShapeOf(s, 0), pos)
  {
    hide Stands, JsonNumber.IntEnd, JsonNumber.IntBegin, JsonNumber.FractionEnd, JsonNumber.HasExponent;
    hide JsonNumber.ExponentBegin, JsonNumber.DigitsEnd, Peek;
    IntegerStands(t, pos, s);
    var b := JsonNumber.IntEnd(s, JsonNumber.IntBegin(s, 0));
    FractionStands(t, pos, s, b);
    ExponentStands(t, pos, s, JsonNumber.FractionEnd(s, b));
  }

  lemma {:induction false} ValueStands(t: Text, pos: nat, s: string, i: nat, j: nat)
    requires Stands(t, pos, s) && i <= j <= |s| && forall k :: i <= k < j ==> JsonNumber.IsDigit(Peek(s, k))
    ensures forall k :: pos + i <= k < pos + j ==> JsonNumber.IsDigit(Peek(t, k))
    ensures JsonNumber.Value(t, pos + i, pos + j) == JsonNumber.Value(s, i, j)
    decreases j
  {
    hide Stands;
    if i < j {
      PeekInside(t, pos, s, j - 1);
      ValueStands(t, pos, s, i, j - 1);
    }
  }

  /** A number by itself is the same number within any text that does not continue it. */
  lemma NumberStands(tooBig: string -> bool, t: Text, pos: nat, s: string, n: Number)
    requires Stands(t, pos, s) && NumberAt(tooBig, s, 0) == Lexeme(n, |s|)
    ensures NumberAt(tooBig, t, pos) == Lexeme(n, pos + |s|)
  {
    hide Stands, JsonNumber.ShapeOf, JsonNumber.Value, JsonNumber.IntEnd, JsonNumber.IntBegin, JsonNumber.IntegerEvent;
    ShapeStands(t, pos, s);
    IntegerStands(t, pos, s);
    var a := JsonNumber.IntBegin(s, 0);
    ValueStands(t, pos, s, a, JsonNumber.IntEnd(s, a));
    CutStands(t, pos, s);
    KindOnly(Peek(s, 0) == '-', JsonNumber.Value(s, a, JsonNumber.IntEnd(s, a)), |s|, pos + |s|);
  }

  lemma CutStands(t: Text, pos: nat, s: string)
    requires Stands(t, pos, s)
    ensures Cut(t, pos, pos + |s|) == s == Cut(s, 0, |s|)
  {
  }

  lemma KindOnly(minus: bool, n: int, next: nat, next': nat)
    ensures JsonNumber.IntegerEvent(minus, n, next).DoubleEvent? <==>
            JsonNumber.IntegerEvent(minus, n, next').DoubleEvent?
  {
  }

  /** Every integer of 64 bits, signed or not, is read from its decimal digits. */
  lemma IntegerBack(tooBig: string -> bool, n: int)
    requires -0x8000_0000_0000_0000 <= n < 0x1_0000_0000_0000_0000
    ensures NumberAt(tooBig, IntegerText(n), 0) == Lexeme(Int(n), |IntegerText(n)|)
  {
    var s := IntegerText(n);
    var m: nat := if n < 0 then -n else n;
    var a := if n < 0 then 1 else 0;
    assert Has(s, a, Decimal(m));
    DecimalBack(s, a, m);
    IntegerShape(s, a, m);
  }

  lemma IntegerShape(s: string, a: nat, m: nat)
    requires a <= 1 && Has(s, a, Decimal(m)) && |s| == a + |Decimal(m)| && (a == 1 ==> s[0] == '-')
    requires forall k :: a <= k < |s| ==> JsonNumber.IsDigit(Peek(s, k))
    requires Decimal(m)[0] == '0' <==> m == 0
    ensures JsonNumber.IntBegin(s, 0) == a && JsonNumber.IntEnd(s, a) == |s|
    ensures JsonNumber.ShapeOf(s, 0) == JsonNumber.Integer(|s|)
  {
    HasFirst(s, a, Decimal(m));
    if m != 0 {
      JsonNumber.DigitsEndFrom(s, a, |s|);
    }
  }

  // ---- Strings ----------------------------------------------------------------------------------

  /** A string between quotation marks, escaped. */
  function Quotation(s: string): string {
    "\"" + ToChars(JsonQuoted.Written(ToBytes(s))) + "\""
  }

  /** The string is one of bytes, and where the flag has them validated, of UTF-8. */
  ghost predicate Bytes(flags: JsonString.Flags, s: string) {
    ToChars(ToBytes(s)) == s && (flags.validate ==> Utf8.Utf8Text(ToBytes(s)))
  }

  lemma StringBack(flags: JsonString.Flags, s: string, a: string, b: string)
    requires Bytes(flags, s)
    ensures StringAt(flags, a + Quotation(s) + b, |a|) == Lexeme(s, |a| + |Quotation(s)|)
  {
    hide JsonString.Parsed, JsonQuoted.Written, Utf8.Utf8Text, ToBytes, ToChars;
    var w := JsonQuoted.Written(ToBytes(s));
    BehindQuote(a, ToChars(w), b);
    BytesOfText(w, b);
    JsonQuoted.WrittenBack(ToBytes(s), ToBytes(b), flags);
  }

  lemma BehindQuote(a: string, w: string, b: string)
    ensures (a + ("\"" + w + "\"") + b)[|a| + 1..] == w + "\"" + b
  {
  }

  lemma BytesOfText(w: seq<Byte>, b: string)
    ensures ToBytes(ToChars(w) + "\"" + b) == w + [JsonString.QUOTE] + ToBytes(b)
  {
    hide ToBytes, ToChars;
    BytesJoined(ToChars(w) + "\"", b);
    BytesJoined(ToChars(w), "\"");
    BytesBack(w);
    QuoteByte();
  }

  lemma QuoteByte()
    ensures ToBytes("\"") == [JsonString.QUOTE]
  {
  }

  // ---- Values -----------------------------------------------------------------------------------

  /** The compact text of a value. */
  function DocOf(v: Value): Doc {
    match v
    case NullValue => NullText
    case BoolValue(b) => if b then TrueText else FalseText
    case NumberValue(n) => NumberText(n, match n case Int(i) => IntegerText(i) case Double(digits) => digits)
    case StringValue(s) => StringText(s, Quotation(s))
    case ObjectValue(ms) => ObjectText("", DocsOfMembers(ms))
    case ArrayValue(es) => ArrayText("", DocsOfElements(es))
  }

  function DocsOfMembers(ms: seq<Member>): seq<MemberText> {
    if ms == [] then []
    else [MemberText("", ms[0].name, Quotation(ms[0].name), "", "", DocOf(ms[0].value), "")] + DocsOfMembers(ms[1..])
  }

  function DocsOfElements(es: seq<Value>): seq<ElementText> {
    if es == [] then [] else [ElementText("", DocOf(es[0]), "")] + DocsOfElements(es[1..])
  }

  /** Strings of bytes, integers of 64 bits, and doubles by digits of their own. */
  ghost predicate Writable(flags: JsonString.Flags, tooBig: string -> bool, v: Value) {
    match v
    case NumberValue(Int(n)) => -0x8000_0000_0000_0000 <= n < 0x1_0000_0000_0000_0000
    case NumberValue(Double(digits)) => NumberAt(tooBig, digits, 0) == Lexeme(Double(digits), |digits|)
    case StringValue(s) => Bytes(flags, s)
    case ObjectValue(ms) => WritableMembers(flags, tooBig, ms)
    case ArrayValue(es) => WritableElements(flags, tooBig, es)
    case _ => true
  }

  ghost predicate WritableMembers(flags: JsonString.Flags, tooBig: string -> bool, ms: seq<Member>) {
    ms == [] || (Bytes(flags, ms[0].name) && Writable(flags, tooBig, ms[0].value) &&
                 WritableMembers(flags, tooBig, ms[1..]))
  }

  ghost predicate WritableElements(flags: JsonString.Flags, tooBig: string -> bool, es: seq<Value>) {
    es == [] || (Writable(flags, tooBig, es[0]) && WritableElements(flags, tooBig, es[1..]))
  }

  lemma {:induction false} DocDenotes(v: Value)
    ensures Denoted(DocOf(v)) == v
    decreases v, 1
  {
    hide DocsOfMembers, DocsOfElements, DenotedMembers, DenotedElements, Quotation, IntegerText;
    match v
    case ObjectValue(ms) => MembersDenote(ms);
    case ArrayValue(es) => ElementsDenote(es);
    case _ =>
  }

  lemma {:induction false} MembersDenote(ms: seq<Member>)
    ensures DenotedMembers(DocsOfMembers(ms)) == ms
    decreases ms, 0
  {
    hide DocOf, Denoted, Quotation;
    if ms != [] {
      DocDenotes(ms[0].value);
      MembersDenote(ms[1..]);
      assert DocsOfMembers(ms)[1..] == DocsOfMembers(ms[1..]);
    }
  }

  lemma {:induction false} ElementsDenote(es: seq<Value>)
    ensures DenotedElements(DocsOfElements(es)) == es
    decreases es, 0
  {
    hide DocOf, Denoted;
    if es != [] {
      DocDenotes(es[0]);
      ElementsDenote(es[1..]);
      assert DocsOfElements(es)[1..] == DocsOfElements(es[1..]);
    }
  }

  /** The configuration has the parsers' own lexers. */
  ghost predicate OwnLexers(cfg: Config, flags: JsonString.Flags, tooBig: string -> bool) {
    && (forall t, i {:trigger cfg.parseString(t, i)} :: cfg.parseString(t, i) == StringAt(flags, t, i))
    && (forall t, i {:trigger cfg.parseNumber(t, i)} :: cfg.parseNumber(t, i) == NumberAt(tooBig, t, i))
  }

  lemma StringSpelled(cfg: Config, flags: JsonString.Flags, tooBig: string -> bool, s: string)
    requires OwnLexers(cfg, flags, tooBig) && Bytes(flags, s)
    ensures SpellsString(cfg, Quotation(s), s)
  {
    hide Bytes, StringAt, NumberAt;
    forall a, b
      ensures cfg.parseString(a + Quotation(s) + b, |a|) == Lexeme(s, |a| + |Quotation(s)|)
    {
      StringBack(flags, s, a, b);
    }
  }

  lemma StandsBetween(a: string, s: string, b: string)
    requires Delimited(b)
    ensures Stands(a + s + b, |a|, s)
  {
    assert (a + s + b)[|a|..|a| + |s|] == s && (a + s + b)[|a| + |s|..] == b;
  }

  lemma NumberSpelled(cfg: Config, flags: JsonString.Flags, tooBig: string -> bool, s: string, n: Number)
    requires OwnLexers(cfg, flags, tooBig) && NumberAt(tooBig, s, 0) == Lexeme(n, |s|)
    ensures SpellsNumber(cfg, s, n)
  {
    hide OwnLexers, NumberAt, Delimited;
    forall a, b | Delimited(b)
      ensures cfg.parseNumber(a + s + b, |a|) == Lexeme(n, |a| + |s|)
    {
      NumberSpelledIn(cfg, flags, tooBig, s, n, a, b);
    }
  }

  lemma NumberSpelledIn(cfg: Config, flags: JsonString.Flags, tooBig: string -> bool, s: string, n: Number,
                        a: string, b: string)
    requires OwnLexers(cfg, flags, tooBig) && NumberAt(tooBig, s, 0) == Lexeme(n, |s|) && Delimited(b)
    ensures cfg.parseNumber(a + s + b, |a|) == Lexeme(n, |a| + |s|)
  {
    hide StringAt, NumberAt, Delimited, Stands;
    StandsBetween(a, s, b);
    NumberStands(tooBig, a + s + b, |a|, s, n);
  }

  lemma {:induction false} DocSpelled(cfg: Config, flags: JsonString.Flags, tooBig: string -> bool, v: Value)
    requires OwnLexers(cfg, flags, tooBig) && Writable(flags, tooBig, v)
    ensures Spelled(cfg, DocOf(v))
    decreases v, 1
  {
    hide OwnLexers, SpellsNumber, SpellsString, SpelledMembers, SpelledElements, Quotation, IntegerText, NumberAt;
    hide DocsOfMembers, DocsOfElements, Bytes;
    match v
    case NumberValue(Int(n)) =>
      IntegerBack(tooBig, n);
      NumberSpelled(cfg, flags, tooBig, IntegerText(n), Int(n));
    case NumberValue(Double(digits)) =>
      NumberSpelled(cfg, flags, tooBig, digits, Double(digits));
    case StringValue(s) => StringSpelled(cfg, flags, tooBig, s);
    case ObjectValue(ms) => MembersSpelledOut(cfg, flags, tooBig, ms);
    case ArrayValue(es) => ElementsSpelledOut(cfg, flags, tooBig, es);
    case _ =>
  }

  lemma {:induction false} MembersSpelledOut(cfg: Config, flags: JsonString.Flags, tooBig: string -> bool,
                                             ms: seq<Member>)
    requires OwnLexers(cfg, flags, tooBig) && WritableMembers(flags, tooBig, ms)
    ensures SpelledMembers(cfg, DocsOfMembers(ms))
    decreases ms, 0
  {
    hide OwnLexers, SpellsString, Spelled, Quotation, Writable, Bytes, DocOf;
    if ms != [] {
      StringSpelled(cfg, flags, tooBig, ms[0].name);
      DocSpelled(cfg, flags, tooBig, ms[0].value);
      MembersSpelledOut(cfg, flags, tooBig, ms[1..]);
      assert DocsOfMembers(ms)[1..] == DocsOfMembers(ms[1..]);
    }
  }

  lemma {:induction false} ElementsSpelledOut(cfg: Config, flags: JsonString.Flags, tooBig: string -> bool,
                                              es: seq<Value>)
    requires OwnLexers(cfg, flags, tooBig) && WritableElements(flags, tooBig, es)
    ensures SpelledElements(cfg, DocsOfElements(es))
    decreases es, 0
  {
    hide OwnLexers, Spelled, Writable, DocOf;
    if es != [] {
      DocSpelled(cfg, flags, tooBig, es[0]);
      ElementsSpelledOut(cfg, flags, tooBig, es[1..]);
      assert DocsOfElements(es)[1..] == DocsOfElements(es[1..]);
    }
  }

  /**
   Any value, written down, is what both parsers read, with any flags and with nothing assumed of their lexers; the
   document that is built holds it exactly if its counts fit 32 bits.
   */
  lemma WrittenIsRead(comments: bool, trailingCommas: bool, stopWhenDone: bool, flags: JsonString.Flags,
                      tooBig: string -> bool, v: Value)
    requires Writable(flags, tooBig, v)
    ensures var cfg := ConfigOf(comments, trailingCommas, stopWhenDone, flags, tooBig, _ => true);
            var t := Written(DocOf(v));
            && GoodLexers(cfg)
            && JsonRecursive.ParseDocument(cfg, t) == JsonIterative.IterativeParse(cfg, t) ==
                 Ok(|t|, JsonCounts.Reported(v))
    ensures Replayed([], JsonCounts.Reported(v)) == Stacked([v]) <==> JsonCounts.CountsFit(v)
  {
    hide GoodLexers, JsonRecursive.ParseDocument, JsonIterative.IterativeParse, Spelled, Written, Denoted, Writable;
    hide StringAt, NumberAt, Replayed, JsonCounts.Reported, JsonCounts.CountsFit, DocOf;
    var cfg := ConfigOf(comments, trailingCommas, stopWhenDone, flags, tooBig, _ => true);
    LexersAreGood(comments, trailingCommas, stopWhenDone, flags, tooBig, _ => true);
    DocSpelled(cfg, flags, tooBig, v);
    DocDenotes(v);
    var t := Written(DocOf(v));
    assert "" + t + "" == t;
    DocumentRead(cfg, "", DocOf(v), "");
  }
}
