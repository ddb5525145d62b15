/**
 Strings written down as section 7 of RFC 8259 has them, every byte spelled out: what the string parser makes of a text
 is thereby told without its own tables.
 */
module JsonQuoted {
  import opened Ascii
  import opened Utf8
  import opened JsonString

  // ---- Writing ----------------------------------------------------------------------------------

  /** A byte of a string: quotation mark, backslash, slash and controls escaped, anything else as it is. */
  function WrittenByte(b: Byte): (t: Text)
    ensures t != []
  {
    if b == 0x22 then [0x5C, 0x22]
    else if b == 0x5C then [0x5C, 0x5C]
    else if b == 0x2F then [0x5C, 0x2F]
    else if b == 0x08 then [0x5C, 0x62]
    else if b == 0x0C then [0x5C, 0x66]
    else if b == 0x0A then [0x5C, 0x6E]
    else if b == 0x0D then [0x5C, 0x72]
    else if b == 0x09 then [0x5C, 0x74]
    else if b < 0x10 then [0x5C, 0x75, 0x30, 0x30, 0x30, HEX_DIGITS[b as nat]]
    else if b < 0x20 then [0x5C, 0x75, 0x30, 0x30, 0x31, HEX_DIGITS[b as nat - 0x10]]
    else [b]
  }

  function Written(s: seq<Byte>): Text {
    if s == [] then [] else WrittenByte(s[0]) + Written(s[1..])
  }

  // ---- Reading back -----------------------------------------------------------------------------

  lemma ControlIsHex(b: Byte)
    requires b < 0x20
    ensures HexText(b as bv32) ==
            [0x5C, 0x75, 0x30, 0x30, if b < 0x10 then 0x30 else 0x31,
             HEX_DIGITS[if b < 0x10 then b as nat else b as nat - 0x10]]
  {
    if b < 0x10 {
      HexDigitAt(b as nat);
    } else {
      HexDigitAt(b as nat - 0x10);
    }
  }

  lemma AsciiEncoded(b: Byte)
    requires b <= 0x7F
    ensures Encoded(b as bv32) == [b]
  {
  }

  /** A written byte is one unit of the string, whatever follows it. */
  lemma ByteBack(b: Byte, rest: Text, flags: Flags)
    requires b <= 0x7F || !flags.validate
    ensures NextUnit(WrittenByte(b) + rest, flags) == Unit([b], |WrittenByte(b)|)
  {
    hide Decoded, HexNumber, Encoded, UnicodeUnit, HexText;
    if b < 0x20 && b !in [0x08, 0x0C, 0x0A, 0x0D, 0x09] {
      ControlIsHex(b);
      AsciiEncoded(b);
      EscapeBack(b as bv32, rest, flags);
    } else if 0x20 <= b <= 0x7F && b !in [0x22, 0x5C, 0x2F] {
      AsciiDecoded(WrittenByte(b) + rest);
    }
  }

  lemma CharBytes(c: seq<Byte>)
    requires Utf8Char(c) && c[0] > 0x7F
    ensures c != [] && forall k :: 0 <= k < |c| ==> c[k] >= 0x80
  {
  }

  lemma CharBack(c: seq<Byte>, rest: Text, flags: Flags)
    requires Utf8Char(c) && c[0] > 0x7F && flags.validate
    ensures NextUnit(c + rest, flags) == Unit(c, |c|)
  {
    hide Decoded, HexNumber, Encoded, UnicodeUnit, Utf8Char;
    CharBytes(c);
    DecodedHead(c, rest);
    assert (c + rest)[..|c|] == c;
  }

  lemma HighByte(b: Byte)
    requires b >= 0x80
    ensures WrittenByte(b) == [b]
  {
  }

  /** Bytes above ASCII are written as they are. */
  lemma {:induction false} WrittenRaw(c: seq<Byte>, s: seq<Byte>)
    requires forall k :: 0 <= k < |c| ==> c[k] >= 0x80
    ensures Written(c + s) == c + Written(s)
    decreases |c|
  {
    hide WrittenByte;
    if c == [] {
      assert c + s == s;
    } else {
      WrittenRaw(c[1..], s);
      HighByte(c[0]);
      assert (c + s)[1..] == c[1..] + s;
      assert c + Written(s) == [c[0]] + (c[1..] + Written(s));
    }
  }

  /** How many bytes of a string are written and read as one unit. */
  function UnitBytes(s: seq<Byte>, flags: Flags): nat
    requires s != []
  {
    if flags.validate && s[0] > 0x7F then Decoded(s, 0).next else 1
  }

  lemma Utf8Begins(s: seq<Byte>)
    requires s != [] && Utf8Text(s)
    ensures Decoded(s, 0).ok && 0 < Decoded(s, 0).next <= |s|
    ensures Utf8Char(s[..Decoded(s, 0).next]) && Utf8Text(s[Decoded(s, 0).next..])
    ensures s[0] <= 0x7F ==> Decoded(s, 0).next == 1
  {
    hide Decoded, Utf8Char, Utf8Text;
    Utf8TextStep(s);
    DecodedTail(s);
    if s[0] <= 0x7F {
      AsciiDecoded(s);
    }
  }

  lemma WrittenNext(s: seq<Byte>)
    requires s != []
    ensures Written(s) == WrittenByte(s[0]) + Written(s[1..])
  {
    hide WrittenByte;
  }

  /** The first unit of what is written, and the rest of it. */
  lemma FirstUnit(s: seq<Byte>, rest: Text, flags: Flags)
    requires s != [] && (flags.validate ==> Utf8Text(s))
    ensures var n := UnitBytes(s, flags);
            && 0 < n <= |s| && |Written(s[n..])| <= |Written(s)| && (flags.validate ==> Utf8Text(s[n..]))
            && var k, more := |Written(s)| - |Written(s[n..])|, Written(s[n..]) + [QUOTE] + rest;
              && k <= |Written(s)| && Written(s) + [QUOTE] + rest == Written(s)[..k] + more
              && NextUnit(Written(s)[..k] + more, flags) == Unit(s[..n], k)
  {
    hide NextUnit, WrittenByte, Written, Decoded, Utf8Char, Utf8Text;
    if flags.validate {
      Utf8Begins(s);
    }
    var n := UnitBytes(s, flags);
    var more := Written(s[n..]) + [QUOTE] + rest;
    var w := if s[0] <= 0x7F || !flags.validate then WrittenByte(s[0]) else s[..n];
    if s[0] <= 0x7F || !flags.validate {
      WrittenNext(s);
      ByteBack(s[0], more, flags);
      assert s[..1] == [s[0]];
    } else {
      CharBytes(w);
      WrittenRaw(w, s[n..]);
      assert w + s[n..] == s;
      CharBack(w, more, flags);
    }
    Around(w, Written(s[n..]), [QUOTE], rest);
  }

  lemma Around(a: Text, b: Text, c: Text, d: Text)
    ensures a + b + c + d == a + (b + c + d) && (a + b)[..|a|] == a
  {
  }

  /** One unit of a string and the rest of it. */
  lemma UnitThen(w: Text, more: Text, flags: Flags, b: seq<Byte>, s: seq<Byte>, m: nat)
    requires NextUnit(w + more, flags) == Unit(b, |w|) && Parsed(more, flags) == Str(s, m)
    ensures Parsed(w + more, flags) == Str(b + s, |w| + m)
  {
    hide NextUnit;
    assert (w + more)[|w|..] == more;
  }

  lemma NothingWritten(rest: Text, flags: Flags)
    ensures Parsed(Written([]) + [QUOTE] + rest, flags) == Str([], |Written([])| + 1)
  {
    hide NextUnit;
    QuoteCloses(rest, flags);
    assert Written([]) + [QUOTE] + rest == [QUOTE] + rest;
  }

  /**
   Every string is read back from what is written for it: any bytes without the validation flag, any UTF-8 with it.
   */
  lemma {:induction false} WrittenBack(s: seq<Byte>, rest: Text, flags: Flags)
    requires flags.validate ==> Utf8Text(s)
    ensures Parsed(Written(s) + [QUOTE] + rest, flags) == Str(s, |Written(s)| + 1)
    decreases |s|
  {
    hide NextUnit, Written, Utf8Text, Parsed;
    if s == [] {
      NothingWritten(rest, flags);
    } else {
      FirstUnit(s, rest, flags);
      var n := UnitBytes(s, flags);
      var w, more := Written(s)[..|Written(s)| - |Written(s[n..])|], Written(s[n..]) + [QUOTE] + rest;
      WrittenBack(s[n..], rest, flags);
      UnitThen(w, more, flags, s[..n], s[n..], |Written(s[n..])| + 1);
      assert s[..n] + s[n..] == s;
    }
  }

  // ---- Which escapes there are ------------------------------------------------------------------

  /** The bytes that stand behind a backslash, but for the u of a code point. */
  const ESCAPES: seq<Byte> := [0x22, 0x5C, 0x2F, 0x62, 0x66, 0x6E, 0x72, 0x74]

  /**
   A backslash followed by anything but these, u, and the apostrophe where the flag allows it, is an invalid escape and
   nothing else is; behind u stand four hexadecimal digits or it is an invalid one of that kind.
   */
  lemma EscapesAreThese(t: Text, flags: Flags)
    requires ByteAt(t, 0) == 0x5C
    ensures NextUnit(t, flags) == BadUnit(EscapeInvalid, 0) <==>
            !(ByteAt(t, 1) in ESCAPES || ByteAt(t, 1) == 0x75 || (ByteAt(t, 1) == 0x27 && flags.apostrophe))
    ensures ByteAt(t, 1) in ESCAPES ==> exists b :: NextUnit(t, flags) == Unit([b], 2) && WrittenByte(b) == t[..2]
    ensures ByteAt(t, 1) == 0x27 && flags.apostrophe ==> NextUnit(t, flags) == Unit([0x27], 2)
    ensures ByteAt(t, 1) == 0x75 && !(6 <= |t| && forall k :: 2 <= k < 6 ==> HexByte(t[k])) ==>
              NextUnit(t, flags) == BadUnit(UnicodeEscapeInvalidHex, 0)
  {
    hide Decoded, HexNumber, Encoded, Paired;
    var e := ByteAt(t, 1);
    if e in ESCAPES {
      assert t[..2] == [0x5C, e];
      assert WrittenByte(Escape(e)) == t[..2];
    }
    if e == 0x75 && AreHex(From(t, 2), 4) {
      HexBytes(t);
    }
  }

  predicate HexByte(h: Byte) {
    h in HEX_DIGITS || h in SMALL_HEX_DIGITS
  }

  lemma HexBytes(t: Text)
    requires AreHex(From(t, 2), 4)
    ensures 6 <= |t| && forall k :: 2 <= k < 6 ==> HexByte(t[k])
  {
    forall k | 2 <= k < 6
      ensures HexByte(t[k])
    {
      assert t[k] == t[2..][k - 2];
      HexDigitsAreAll(t[k]);
    }
  }

  /**
   Anything else stands for itself: no control is taken, a quotation mark ends the string, and with the validation flag
   a whole character of UTF-8 is taken at a time, or none.
   */
  lemma OthersAreRaw(t: Text, flags: Flags)
    requires ByteAt(t, 0) != 0x5C
    ensures NextUnit(t, flags) == Closing <==> ByteAt(t, 0) == 0x22
    ensures NextUnit(t, flags).Unit? <==>
            && ByteAt(t, 0) >= 0x20 && ByteAt(t, 0) != 0x22
            && (flags.validate ==> exists n | 1 <= n <= |t| :: Utf8Char(t[..n]))
    ensures NextUnit(t, flags).Unit? ==>
              var n := NextUnit(t, flags).length;
              NextUnit(t, flags).bytes == t[..n] && if flags.validate then Utf8Char(t[..n]) else n == 1
  {
    hide Decoded, HexNumber, Encoded, UnicodeUnit, Utf8Char;
    if t != [] && flags.validate {
      if Decoded(t, 0).ok {
        DecodedTail(t);
      }
      if n: nat :| 1 <= n <= |t| && Utf8Char(t[..n]) {
        DecodedHead(t[..n], t[n..]);
        assert t[..n] + t[n..] == t;
      }
    }
  }
}
