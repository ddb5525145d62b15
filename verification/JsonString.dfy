/**
 The string parser of the JSON reader: escapes, UTF-16 escapes and surrogate pairs, with the result written to a
 buffer of its own or over the text that is being read.
 */
module JsonString {
  import opened Ascii
  import opened Utf8

  type Text = seq<Byte>

  const QUOTE: Byte := 0x22
  const APOSTROPHE: Byte := 0x27
  const BACKSLASH: Byte := 0x5C
  const LETTER_U: Byte := 0x75

  /** kParseValidateEncodingFlag and kParseEscapedApostropheFlag. */
  datatype Flags = Flags(validate: bool, apostrophe: bool)

  datatype ErrorCode =
    | MissQuotationMark
    | EscapeInvalid
    | UnicodeEscapeInvalidHex
    | UnicodeSurrogateInvalid
    | InvalidEncoding

  // ---- What a string means ----------------------------------------------------------------------

  /** The escape table: NUL where there is no such escape. */
  function Escape(e: Byte): Byte {
    if e == QUOTE || e == 0x2F || e == BACKSLASH then e
    else if e == 0x62 then 8
    else if e == 0x66 then 12
    else if e == 0x6E then 10
    else if e == 0x72 then 13
    else if e == 0x74 then 9
    else 0
  }

  predicate AreHex(t: Text, n: nat) {
    n <= |t| && forall k :: 0 <= k < n ==> IsHex(t[k])
  }

  function WithDigit(codepoint: bv32, h: Byte): bv32 {
    (codepoint << 4) + (HexValue(h) as bv32)
  }

  function HexNumber(t: Text, n: nat): bv32
    requires AreHex(t, n)
  {
    if n == 0 then 0 else WithDigit(HexNumber(t, n - 1), t[n - 1])
  }

  function From(t: Text, n: nat): Text {
    if n <= |t| then t[n..] else []
  }

  /** The code point of a surrogate pair. */
  function Paired(high: bv32, low: bv32): bv32 {
    (((high - 0xD800) << 10) | (low - 0xDC00)) + 0x1_0000
  }

  /** Bytes of the string and how much of the text they take, the closing quote, or an error and its offset. */
  datatype Unit = Unit(bytes: seq<Byte>, length: nat) | Closing | BadUnit(code: ErrorCode, offset: nat)

  /** A \u escape, from its backslash on. */
  function UnicodeUnit(t: Text): Unit {
    if !AreHex(From(t, 2), 4) then BadUnit(UnicodeEscapeInvalidHex, 0)
    else
      var first := HexNumber(From(t, 2), 4);
      if !(0xD800 <= first <= 0xDFFF) then Unit(Encoded(first), 6)
      else if first > 0xDBFF || ByteAt(t, 6) != BACKSLASH || ByteAt(t, 7) != LETTER_U
          then BadUnit(UnicodeSurrogateInvalid, 0)
      else if !AreHex(From(t, 8), 4) then BadUnit(UnicodeEscapeInvalidHex, 0)
      else
        var second := HexNumber(From(t, 8), 4);
        if !(0xDC00 <= second <= 0xDFFF) then BadUnit(UnicodeSurrogateInvalid, 0)
        else Unit(Encoded(Paired(first, second)), 12)
  }

  function NextUnit(t: Text, flags: Flags): (u: Unit)
    ensures u.Unit? ==> 0 < u.length <= |t|
  {
    var c := ByteAt(t, 0);
    if c == BACKSLASH then
      var e := ByteAt(t, 1);
      if Escape(e) != 0 then Unit([Escape(e)], 2)
      else if flags.apostrophe && e == APOSTROPHE then Unit([e], 2)
      else if e == LETTER_U then UnicodeUnit(t)
      else BadUnit(EscapeInvalid, 0)
    else if c == QUOTE then Closing
    else if c < 0x20 then BadUnit(if c == 0 then MissQuotationMark else InvalidEncoding, 0)
    else if flags.validate then
      var d := Decoded(t, 0);
      if d.ok && 0 < d.next <= |t| then Unit(t[..d.next], d.next) else BadUnit(InvalidEncoding, 0)
    else Unit([c], 1)
  }

  datatype Outcome = Str(bytes: seq<Byte>, length: nat) | BadString(code: ErrorCode, offset: nat)

  /** The string that a text begins with, behind its opening quote. */
  function Parsed(t: Text, flags: Flags): Outcome
    decreases |t|
  {
    match NextUnit(t, flags)
    case Closing => Str([], 1)
    case BadUnit(code, offset) => BadString(code, offset)
    case Unit(b, n) =>
      match Parsed(t[n..], flags)
      case BadString(code, offset) => BadString(code, n + offset)
      case Str(s, m) => Str(b + s, n + m)
  }

  // ---- Laws -------------------------------------------------------------------------------------

  lemma PairedRange(high: bv32, low: bv32)
    requires 0xD800 <= high <= 0xDBFF && 0xDC00 <= low <= 0xDFFF
    ensures 0x1_0000 <= Paired(high, low) <= LAST
  {
  }

  /** A surrogate pair, as section 7 of RFC 8259 has it. */
  lemma PairedIs(high: bv32, low: bv32)
    requires 0xD800 <= high <= 0xDBFF && 0xDC00 <= low <= 0xDFFF
    ensures Paired(high, low) == 0x1_0000 + (high - 0xD800) * 0x400 + (low - 0xDC00)
  {
  }

  /** The number of four hexadecimal digits, the highest first. */
  function FourDigits(a: Byte, b: Byte, c: Byte, d: Byte): bv32 {
    (HexValue(a) as bv32 << 12) + (HexValue(b) as bv32 << 8) + (HexValue(c) as bv32 << 4) + HexValue(d) as bv32
  }

  lemma HexNumberIs(t: Text)
    requires AreHex(t, 4)
    ensures HexNumber(t, 4) == FourDigits(t[0], t[1], t[2], t[3])
  {
    hide WithDigit, HexNumber, HexValue, FourDigits;
    HexNumberRange(t);
    DigitsAre(t[0], t[1], t[2], t[3]);
  }

  lemma DigitsAre(a: Byte, b: Byte, c: Byte, d: Byte)
    requires IsHex(a) && IsHex(b) && IsHex(c) && IsHex(d)
    ensures WithDigit(WithDigit(WithDigit(WithDigit(0, a), b), c), d) == FourDigits(a, b, c, d)
  {
    hide HexValue;
    SmallDigit(a);
    SmallDigit(b);
    SmallDigit(c);
    SmallDigit(d);
  }

  lemma SmallDigit(h: Byte)
    requires IsHex(h)
    ensures HexValue(h) < 16
  {
  }

  lemma HexNumberRange(t: Text)
    requires AreHex(t, 4)
    ensures HexNumber(t, 4) == WithDigit(WithDigit(WithDigit(WithDigit(0, t[0]), t[1]), t[2]), t[3]) <= 0xFFFF
  {
    hide WithDigit;
    assert HexNumber(t, 1) == WithDigit(0, t[0]);
    assert HexNumber(t, 2) == WithDigit(WithDigit(0, t[0]), t[1]);
    DigitsRange(t[0], t[1], t[2], t[3]);
  }

  lemma DigitsRange(a: Byte, b: Byte, c: Byte, d: Byte)
    requires IsHex(a) && IsHex(b) && IsHex(c) && IsHex(d)
    ensures WithDigit(WithDigit(WithDigit(WithDigit(0, a), b), c), d) <= 0xFFFF
  {
  }

  /** What an escape stands for is never longer than the escape, nor is anything else. */
  lemma UnitIsShorter(t: Text, flags: Flags)
    requires NextUnit(t, flags).Unit?
    ensures 0 < |NextUnit(t, flags).bytes| <= NextUnit(t, flags).length
  {
    hide Decoded, HexNumber, Paired;
  }

  /** Encode's own assertion holds: a \u escape never stands for more than the last code point. */
  lemma EscapedCodepoint(t: Text)
    requires UnicodeUnit(t).Unit?
    ensures exists cp :: Scalar(cp) && UnicodeUnit(t).bytes == Encoded(cp)
  {
    hide HexNumber, Encoded, Paired;
    var first := HexNumber(From(t, 2), 4);
    HexNumberRange(From(t, 2));
    if 0xD800 <= first <= 0xDFFF {
      var second := HexNumber(From(t, 8), 4);
      PairedRange(first, second);
      assert Scalar(Paired(first, second));
    } else {
      assert Scalar(first);
    }
  }

  lemma UnitIsUtf8(t: Text, flags: Flags)
    requires flags.validate && NextUnit(t, flags).Unit?
    ensures Utf8Char(NextUnit(t, flags).bytes)
  {
    hide Decoded, Encoded, HexNumber, Utf8Two, Utf8Three, Utf8Four, UnicodeUnit;
    if ByteAt(t, 0) == BACKSLASH {
      if ByteAt(t, 1) == LETTER_U {
        EscapedCodepoint(t);
        var cp :| Scalar(cp) && UnicodeUnit(t).bytes == Encoded(cp);
        EncodedIsUtf8(cp);
      }
    } else {
      DecodedTail(t);
    }
  }

  /** With the validation flag, whatever string is accepted is UTF-8, however it was escaped. */
  lemma {:induction false} ParsedIsUtf8(t: Text, flags: Flags)
    requires flags.validate && Parsed(t, flags).Str?
    ensures Utf8Text(Parsed(t, flags).bytes)
    decreases |t|
  {
    hide NextUnit, Utf8Text, Utf8Char;
    var u := NextUnit(t, flags);
    if u.Unit? {
      UnitIsUtf8(t, flags);
      ParsedIsUtf8(t[u.length..], flags);
      Utf8Joined(u.bytes, Parsed(t[u.length..], flags).bytes);
    } else {
      EmptyText();
    }
  }

  // ---- Escaping ---------------------------------------------------------------------------------

  function HexText(n: bv32): (t: Text)
    ensures |t| == 6
  {
    [BACKSLASH, LETTER_U, Nibble(n >> 12), Nibble(n >> 8), Nibble(n >> 4), Nibble(n)]
  }

  function Nibble(n: bv32): Byte {
    HexDigit((n & 15) as Byte)
  }

  /** The twenty bits of a code point above 0xFFFF, in two halves. */
  function TopTen(cp: bv32): bv32 {
    (cp - 0x1_0000) >> 10
  }

  function LowTen(cp: bv32): bv32 {
    (cp - 0x1_0000) & 0x3FF
  }

  function HighSurrogate(cp: bv32): bv32 {
    0xD800 + TopTen(cp)
  }

  function LowSurrogate(cp: bv32): bv32 {
    0xDC00 + LowTen(cp)
  }

  /** A code point as section 7 of RFC 8259 has it escaped. */
  function Escaped(cp: bv32): Text {
    if cp <= 0xFFFF then HexText(cp) else HexText(HighSurrogate(cp)) + HexText(LowSurrogate(cp))
  }

  function EscapedAll(cps: seq<bv32>): Text {
    if cps == [] then [] else Escaped(cps[0]) + EscapedAll(cps[1..])
  }

  lemma NibbleBack(cp: bv32, n: bv32)
    ensures IsHex(Nibble(n)) && WithDigit(cp, Nibble(n)) == (cp << 4) + (n & 15)
  {
  }

  lemma NibblesBack(n: bv32)
    requires n <= 0xFFFF
    ensures IsHex(Nibble(n >> 12)) && IsHex(Nibble(n >> 8)) && IsHex(Nibble(n >> 4)) && IsHex(Nibble(n))
    ensures WithDigit(WithDigit(WithDigit(WithDigit(0, Nibble(n >> 12)), Nibble(n >> 8)), Nibble(n >> 4)), Nibble(n)) ==
            n
  {
    hide Nibble, IsHex, WithDigit;
    var a := WithDigit(0, Nibble(n >> 12));
    var b := WithDigit(a, Nibble(n >> 8));
    var c := WithDigit(b, Nibble(n >> 4));
    NibbleBack(0, n >> 12);
    NibbleBack(a, n >> 8);
    NibbleBack(b, n >> 4);
    NibbleBack(c, n);
    FourNibbles(n);
  }

  lemma FourNibbles(n: bv32)
    requires n <= 0xFFFF
    ensures ((((((0 << 4) + ((n >> 12) & 15)) << 4) + ((n >> 8) & 15)) << 4) + ((n >> 4) & 15) << 4) + (n & 15) == n
  {
  }

  lemma HexTextBack(n: bv32, t: Text)
    requires n <= 0xFFFF && |t| >= 4 && [BACKSLASH, LETTER_U] + t[..4] == HexText(n)
    ensures AreHex(t, 4) && HexNumber(t, 4) == n
  {
    hide Nibble, WithDigit, IsHex;
    NibblesBack(n);
    var h := HexText(n);
    assert forall k :: 0 <= k < 4 ==> t[k] == ([BACKSLASH, LETTER_U] + t[..4])[k + 2];
    assert t[0] == h[2] && t[1] == h[3] && t[2] == h[4] && t[3] == h[5];
    HexNumberRange(t);
  }

  lemma SurrogatesBack(cp: bv32)
    requires 0x1_0000 <= cp <= LAST
    ensures 0xD800 <= HighSurrogate(cp) <= 0xDBFF && 0xDC00 <= LowSurrogate(cp) <= 0xDFFF
    ensures Paired(HighSurrogate(cp), LowSurrogate(cp)) == cp
  {
    hide Paired, TopTen, LowTen, Joined;
    TenBits(cp);
    PairedOffsets(TopTen(cp), LowTen(cp));
  }

  function Joined(h: bv32, l: bv32): bv32 {
    ((h << 10) | l) + 0x1_0000
  }

  lemma TenBits(cp: bv32)
    requires 0x1_0000 <= cp <= LAST
    ensures TopTen(cp) <= 0x3FF && LowTen(cp) <= 0x3FF && Joined(TopTen(cp), LowTen(cp)) == cp
  {
  }

  lemma PairedOffsets(h: bv32, l: bv32)
    requires h <= 0x3FF && l <= 0x3FF
    ensures 0xD800 <= 0xD800 + h <= 0xDBFF && 0xDC00 <= 0xDC00 + l <= 0xDFFF
    ensures Paired(0xD800 + h, 0xDC00 + l) == Joined(h, l)
  {
  }

  lemma EscapeBack(cp: bv32, rest: Text, flags: Flags)
    requires Scalar(cp)
    ensures NextUnit(Escaped(cp) + rest, flags) == Unit(Encoded(cp), |Escaped(cp)|)
  {
    hide Decoded, Encoded, HexNumber, Paired, HighSurrogate, LowSurrogate, Nibble;
    var t := Escaped(cp) + rest;
    if cp <= 0xFFFF {
      assert From(t, 2)[..4] == HexText(cp)[2..];
      HexTextBack(cp, From(t, 2));
    } else {
      SurrogatesBack(cp);
      assert From(t, 2)[..4] == HexText(HighSurrogate(cp))[2..];
      HexTextBack(HighSurrogate(cp), From(t, 2));
      assert From(t, 8)[..4] == HexText(LowSurrogate(cp))[2..];
      HexTextBack(LowSurrogate(cp), From(t, 8));
    }
  }

  /** Any sequence of code points, written with escapes only, is read back as its UTF-8 encoding. */
  lemma {:induction false} EscapeAllBack(cps: seq<bv32>, rest: Text, flags: Flags)
    requires forall cp <- cps :: Scalar(cp)
    ensures Parsed(EscapedAll(cps) + [QUOTE] + rest, flags) == Str(EncodedAll(cps), |EscapedAll(cps)| + 1)
    decreases |cps|
  {
    hide NextUnit, Escaped, Encoded;
    if cps == [] {
      QuoteCloses(rest, flags);
      assert EscapedAll(cps) + [QUOTE] + rest == [QUOTE] + rest;
    } else {
      var e, more := Escaped(cps[0]), EscapedAll(cps[1..]) + [QUOTE] + rest;
      assert EscapedAll(cps) + [QUOTE] + rest == e + more;
      assert (e + more)[|e|..] == more;
      EscapeBack(cps[0], more, flags);
      EscapeAllBack(cps[1..], rest, flags);
    }
  }

  lemma QuoteCloses(rest: Text, flags: Flags)
    ensures NextUnit([QUOTE] + rest, flags) == Closing
  {
  }

  // ---- Strings of letters -----------------------------------------------------------------------

  function Letters(n: nat): (s: Text)
    ensures |s| == n && forall i :: 0 <= i < n ==> s[i] == 0x61
  {
    seq(n, _ => 0x61)
  }

  lemma {:induction false} LettersParsed(n: nat, rest: Text, flags: Flags)
    ensures Parsed(Letters(n) + [QUOTE] + rest, flags) == Str(Letters(n), n + 1)
    decreases n
  {
    hide NextUnit;
    var t := Letters(n) + [QUOTE] + rest;
    if n == 0 {
      QuoteCloses(rest, flags);
      assert t == [QUOTE] + rest && Letters(0) == [];
    } else {
      LetterUnit(t, flags);
      assert t[1..] == Letters(n - 1) + [QUOTE] + rest;
      LettersParsed(n - 1, rest, flags);
      assert [0x61] + Letters(n - 1) == Letters(n);
    }
  }

  lemma LetterUnit(t: Text, flags: Flags)
    requires t != [] && t[0] == 0x61
    ensures NextUnit(t, flags) == Unit([0x61], 1)
  {
    hide Decoded;
    AsciiDecoded(t);
  }
}
