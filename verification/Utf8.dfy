/**
 The UTF-8 codec: encoding a code point, decoding one with a table of byte ranges, and validating without
 decoding.
 */
module Utf8 {
  import opened Ascii

  const SURROGATE_FIRST: bv32 := 0xD800
  const SURROGATE_LAST: bv32 := 0xDFFF
  const LAST: bv32 := 0x10FFFF

  /** The code points of section 4 of RFC 3629: all but the surrogates. */
  predicate Scalar(codepoint: bv32) {
    codepoint <= LAST && !(SURROGATE_FIRST <= codepoint <= SURROGATE_LAST)
  }

  // ---- The grammar of section 4 of RFC 3629 -----------------------------------------------------

  predicate Tail(b: Byte) {
    0x80 <= b <= 0xBF
  }

  predicate Utf8Two(s: seq<Byte>) {
    |s| == 2 && 0xC2 <= s[0] <= 0xDF && Tail(s[1])
  }

  predicate Utf8Three(s: seq<Byte>) {
    && |s| == 3
    && (|| (s[0] == 0xE0 && 0xA0 <= s[1] <= 0xBF)
        || (0xE1 <= s[0] <= 0xEC && Tail(s[1]))
        || (s[0] == 0xED && 0x80 <= s[1] <= 0x9F)
        || (0xEE <= s[0] <= 0xEF && Tail(s[1])))
    && Tail(s[2])
  }

  predicate Utf8Four(s: seq<Byte>) {
    && |s| == 4
    && (|| (s[0] == 0xF0 && 0x90 <= s[1] <= 0xBF)
        || (0xF1 <= s[0] <= 0xF3 && Tail(s[1]))
        || (s[0] == 0xF4 && 0x80 <= s[1] <= 0x8F))
    && Tail(s[2]) && Tail(s[3])
  }

  predicate Utf8Char(s: seq<Byte>) {
    || (|s| == 1 && s[0] <= 0x7F)
    || Utf8Two(s)
    || Utf8Three(s)
    || Utf8Four(s)
  }

  // ---- Encode -----------------------------------------------------------------------------------

  function LowByte(x: bv32): Byte {
    (x & 0xFF) as Byte
  }

  function Encoded(codepoint: bv32): (s: seq<Byte>)
    ensures 1 <= |s| <= 4
  {
    if codepoint <= 0x7F then [LowByte(codepoint)]
    else if codepoint <= 0x7FF then
      [LowByte(0xC0 | ((codepoint >> 6) & 0xFF)), LowByte(0x80 | (codepoint & 0x3F))]
    else if codepoint <= 0xFFFF then
      [LowByte(0xE0 | ((codepoint >> 12) & 0xFF)), LowByte(0x80 | ((codepoint >> 6) & 0x3F)),
       LowByte(0x80 | (codepoint & 0x3F))]
    else
      [LowByte(0xF0 | ((codepoint >> 18) & 0xFF)), LowByte(0x80 | ((codepoint >> 12) & 0x3F)),
       LowByte(0x80 | ((codepoint >> 6) & 0x3F)), LowByte(0x80 | (codepoint & 0x3F))]
  }

  // ---- Decode -----------------------------------------------------------------------------------

  /** The table of byte ranges. */
  function GetRange(c: Byte): Byte {
    if c <= 0x7F then 0
    else if c <= 0x8F then 0x10
    else if c <= 0x9F then 0x40
    else if c <= 0xBF then 0x20
    else if c <= 0xC1 then 8
    else if c <= 0xDF then 2
    else if c == 0xE0 then 10
    else if c == 0xED then 4
    else if c <= 0xEF then 3
    else if c == 0xF0 then 11
    else if c <= 0xF3 then 6
    else if c == 0xF4 then 5
    else 8
  }

  /** The ranges each byte after the first must be in, by the range of the first. */
  function Masks(range: Byte): seq<Byte> {
    if range == 2 then [0x70]
    else if range == 3 then [0x70, 0x70]
    else if range == 4 then [0x50, 0x70]
    else if range == 5 then [0x10, 0x70, 0x70]
    else if range == 6 then [0x70, 0x70, 0x70]
    else if range == 10 then [0x20, 0x70]
    else if range == 11 then [0x60, 0x70, 0x70]
    else []
  }

  /** What Take returns: NUL behind the end of the stream. */
  function ByteAt(s: seq<Byte>, pos: nat): Byte {
    if pos < |s| then s[pos] else 0
  }

  predicate InRange(c: Byte, mask: Byte) {
    GetRange(c) & mask != 0
  }

  function Shifted(codepoint: bv32, c: Byte): bv32 {
    (codepoint << 6) | ((c & 0x3F) as bv32)
  }

  datatype Decoding = Decoding(ok: bool, codepoint: bv32, next: nat)

  function Rest(s: seq<Byte>, d: Decoding, masks: seq<Byte>): Decoding
    decreases |masks|
  {
    if masks == [] then d
    else
      var c := ByteAt(s, d.next);
      Rest(s, Decoding(d.ok && InRange(c, masks[0]), Shifted(d.codepoint, c), d.next + 1), masks[1..])
  }

  function Lead(c: Byte): bv32 {
    var range := GetRange(c);
    if range >= 32 then 0 else (0xFF as bv32 >> (range as bv5)) & (c as bv32)
  }

  function Decoded(s: seq<Byte>, pos: nat): Decoding {
    var c := ByteAt(s, pos);
    if c <= 0x7F then Decoding(true, c as bv32, pos + 1)
    else
      var masks := Masks(GetRange(c));
      Rest(s, Decoding(masks != [], Lead(c), pos + 1), masks)
  }

  // ---- The laws ---------------------------------------------------------------------------------

  /** The length of the sequence a lead byte announces. */
  function Length(c: Byte): nat {
    1 + |Masks(GetRange(c))|
  }

  lemma InRanges(c: Byte)
    ensures InRange(c, 0x70) <==> Tail(c)
    ensures InRange(c, 0x50) <==> 0x80 <= c <= 0x9F
    ensures InRange(c, 0x10) <==> 0x80 <= c <= 0x8F
    ensures InRange(c, 0x20) <==> 0xA0 <= c <= 0xBF
    ensures InRange(c, 0x60) <==> 0x90 <= c <= 0xBF
  {
  }

  /** The code point a sequence of up to four bytes stands for. */
  function Codepoint(s: seq<Byte>): bv32
    requires 1 <= |s| <= 4
  {
    if |s| == 1 then s[0] as bv32
    else if |s| == 2 then Shifted(Lead(s[0]), s[1])
    else if |s| == 3 then Shifted(Shifted(Lead(s[0]), s[1]), s[2])
    else Shifted(Shifted(Shifted(Lead(s[0]), s[1]), s[2]), s[3])
  }

  lemma CodepointOfOne(cp: bv32)
    requires cp <= 0x7F
    ensures LowByte(cp) as bv32 == cp
  {
  }

  lemma CodepointOfTwo(cp: bv32)
    requires 0x80 <= cp <= 0x7FF
    ensures Shifted(Lead(LowByte(0xC0 | ((cp >> 6) & 0xFF))), LowByte(0x80 | (cp & 0x3F))) == cp
  {
  }

  lemma CodepointOfThree(cp: bv32)
    requires Scalar(cp) && 0x800 <= cp <= 0xFFFF
    ensures Shifted(Shifted(Lead(LowByte(0xE0 | ((cp >> 12) & 0xFF))), LowByte(0x80 | ((cp >> 6) & 0x3F))),
                    LowByte(0x80 | (cp & 0x3F))) == cp
  {
  }

  lemma CodepointOfFour(cp: bv32)
    requires 0x1_0000 <= cp <= LAST
    ensures Shifted(Shifted(Shifted(Lead(LowByte(0xF0 | ((cp >> 18) & 0xFF))), LowByte(0x80 | ((cp >> 12) & 0x3F))),
                            LowByte(0x80 | ((cp >> 6) & 0x3F))), LowByte(0x80 | (cp & 0x3F))) == cp
  {
  }

  /** Encoding is one to one onto the grammar: Codepoint is its inverse there, and only scalar values get there. */
  lemma EncodedIsUtf8(cp: bv32)
    requires cp <= LAST
    ensures Utf8Char(Encoded(cp)) <==> Scalar(cp)
    ensures Scalar(cp) ==> Codepoint(Encoded(cp)) == cp
  {
    hide Lead, Shifted, LowByte;
    if cp <= 0x7F {
      CodepointOfOne(cp);
    } else if cp <= 0x7FF {
      CodepointOfTwo(cp);
    } else if cp <= 0xFFFF && Scalar(cp) {
      CodepointOfThree(cp);
    } else if 0xFFFF < cp {
      CodepointOfFour(cp);
    }
    EncodedInGrammar(cp);
  }

  /** The bits marked x in the table in section 3 of RFC 3629, of two, three and four bytes. */
  function BitsOfTwo(a: Byte, b: Byte): bv32 {
    ((a & 0x1F) as bv32 << 6) | ((b & 0x3F) as bv32)
  }

  function BitsOfThree(a: Byte, b: Byte, c: Byte): bv32 {
    ((a & 0x0F) as bv32 << 12) | ((b & 0x3F) as bv32 << 6) | ((c & 0x3F) as bv32)
  }

  function BitsOfFour(a: Byte, b: Byte, c: Byte, d: Byte): bv32 {
    ((a & 0x07) as bv32 << 18) | ((b & 0x3F) as bv32 << 12) | ((c & 0x3F) as bv32 << 6) | ((d & 0x3F) as bv32)
  }

  lemma TwoBytes(cp: bv32)
    requires 0x80 <= cp <= 0x7FF
    ensures BitsOfTwo(LowByte(0xC0 | ((cp >> 6) & 0xFF)), LowByte(0x80 | (cp & 0x3F))) == cp
  {
  }

  lemma ThreeBytes(cp: bv32)
    requires 0x800 <= cp <= 0xFFFF
    ensures BitsOfThree(LowByte(0xE0 | ((cp >> 12) & 0xFF)), LowByte(0x80 | ((cp >> 6) & 0x3F)),
                        LowByte(0x80 | (cp & 0x3F))) == cp
  {
  }

  lemma FourBytes(cp: bv32)
    requires 0x1_0000 <= cp <= LAST
    ensures BitsOfFour(LowByte(0xF0 | ((cp >> 18) & 0xFF)), LowByte(0x80 | ((cp >> 12) & 0x3F)),
                       LowByte(0x80 | ((cp >> 6) & 0x3F)), LowByte(0x80 | (cp & 0x3F))) == cp
  {
  }

  /** How long an encoding is, and which of the bits each byte has: that table. */
  lemma EncodedBits(cp: bv32)
    requires Scalar(cp)
    ensures var s := Encoded(cp);
            && |s| == (if cp < 0x80 then 1 else if cp < 0x800 then 2 else if cp < 0x1_0000 then 3 else 4)
            && (|s| == 1 ==> cp == s[0] as bv32)
            && (|s| == 2 ==> cp == BitsOfTwo(s[0], s[1]))
            && (|s| == 3 ==> cp == BitsOfThree(s[0], s[1], s[2]))
            && (|s| == 4 ==> cp == BitsOfFour(s[0], s[1], s[2], s[3]))
  {
    hide LowByte, BitsOfTwo, BitsOfThree, BitsOfFour;
    if cp < 0x80 {
      CodepointOfOne(cp);
    } else if cp < 0x800 {
      TwoBytes(cp);
    } else if cp < 0x1_0000 {
      ThreeBytes(cp);
    } else {
      FourBytes(cp);
    }
  }

  lemma EncodedInGrammar(cp: bv32)
    requires cp <= LAST
    ensures Utf8Char(Encoded(cp)) <==> Scalar(cp)
  {
  }

  lemma EncodedTwo(a: Byte, b: Byte)
    requires Utf8Two([a, b])
    ensures var cp := Shifted(Lead(a), b); Scalar(cp) && Encoded(cp) == [a, b]
  {
  }

  lemma EncodedThree(a: Byte, b: Byte, c: Byte)
    requires Utf8Three([a, b, c])
    ensures var cp := Shifted(Shifted(Lead(a), b), c); Scalar(cp) && Encoded(cp) == [a, b, c]
  {
  }

  lemma EncodedFour(a: Byte, b: Byte, c: Byte, d: Byte)
    requires Utf8Four([a, b, c, d])
    ensures var cp := Shifted(Shifted(Shifted(Lead(a), b), c), d); Scalar(cp) && Encoded(cp) == [a, b, c, d]
  {
  }

  lemma EncodedCodepoint(s: seq<Byte>)
    requires Utf8Char(s)
    ensures Scalar(Codepoint(s)) && Encoded(Codepoint(s)) == s
  {
    hide Lead, Shifted;
    if Utf8Two(s) {
      assert s == [s[0], s[1]];
      EncodedTwo(s[0], s[1]);
    } else if Utf8Three(s) {
      assert s == [s[0], s[1], s[2]];
      EncodedThree(s[0], s[1], s[2]);
    } else if Utf8Four(s) {
      assert s == [s[0], s[1], s[2], s[3]];
      EncodedFour(s[0], s[1], s[2], s[3]);
    }
  }

  /** The bytes Take returns. */
  function Taken(s: seq<Byte>, pos: nat, n: nat): (r: seq<Byte>)
    ensures |r| == n
  {
    seq(n, k requires 0 <= k => ByteAt(s, pos + k))
  }

  lemma {:induction false} RestUnfolded(s: seq<Byte>, d: Decoding, masks: seq<Byte>)
    requires 1 <= |masks| <= 3
    ensures var a, b, c := ByteAt(s, d.next), ByteAt(s, d.next + 1), ByteAt(s, d.next + 2);
            Rest(s, d, masks) ==
              if |masks| == 1 then Decoding(d.ok && InRange(a, masks[0]), Shifted(d.codepoint, a), d.next + 1)
              else if |masks| == 2 then
                Decoding(d.ok && InRange(a, masks[0]) && InRange(b, masks[1]), Shifted(Shifted(d.codepoint, a), b),
                         d.next + 2)
              else
                Decoding(d.ok && InRange(a, masks[0]) && InRange(b, masks[1]) && InRange(c, masks[2]),
                         Shifted(Shifted(Shifted(d.codepoint, a), b), c), d.next + 3)
    decreases |masks|
  {
    hide InRange, Shifted, ByteAt;
    if |masks| > 1 {
      var a := ByteAt(s, d.next);
      var d' := Decoding(d.ok && InRange(a, masks[0]), Shifted(d.codepoint, a), d.next + 1);
      assert Rest(s, d, masks) == Rest(s, d', masks[1..]);
      RestUnfolded(s, d', masks[1..]);
    }
  }

  /** The grammar, range by range. */
  lemma GrammarByMasks(s: seq<Byte>)
    requires 1 <= |s| <= 4 && |s| == Length(s[0])
    ensures var masks := Masks(GetRange(s[0]));
            Utf8Char(s) <==>
              && (|s| == 1 ==> s[0] <= 0x7F)
              && (|s| > 1 ==> InRange(s[1], masks[0]))
              && (|s| > 2 ==> InRange(s[2], masks[1]))
              && (|s| > 3 ==> InRange(s[3], masks[2]))
  {
    hide InRange;
    if |s| > 1 {
      InRanges(s[1]);
    }
    if |s| > 2 {
      InRanges(s[2]);
    }
    if |s| > 3 {
      InRanges(s[3]);
    }
    var m := Masks(GetRange(s[0]));
    if |s| == 2 {
      assert m == [0x70];
    } else if |s| == 3 {
      assert m[1] == 0x70;
    } else if |s| == 4 {
      assert m[1..] == [0x70, 0x70];
    }
  }

  /**
   Decode consumes what the lead byte announces, accepts it exactly when the grammar does, and then the code
   point is the one whose encoding it consumed.
   */
  lemma DecodedIsUtf8(s: seq<Byte>, pos: nat)
    ensures var d := Decoded(s, pos);
            var taken := Taken(s, pos, Length(ByteAt(s, pos)));
            && d.next == pos + |taken|
            && (d.ok <==> Utf8Char(taken))
            && (d.ok ==> Scalar(d.codepoint) && Encoded(d.codepoint) == taken)
  {
    hide Rest, Scalar, Encoded, Shifted, InRange, Lead, Utf8Char, GetRange;
    var a := ByteAt(s, pos);
    var masks := Masks(GetRange(a));
    var taken := Taken(s, pos, Length(a));
    GrammarByMasks(taken);
    if Utf8Char(taken) {
      EncodedCodepoint(taken);
    }
    if |masks| == 0 {
      DecodedOne(s, pos);
    } else {
      NotAscii(a);
      RestUnfolded(s, Decoding(true, Lead(a), pos + 1), masks);
    }
  }

  lemma NotAscii(c: Byte)
    ensures Masks(GetRange(c)) != [] ==> c > 0x7F
  {
  }

  lemma DecodedOne(s: seq<Byte>, pos: nat)
    requires Masks(GetRange(ByteAt(s, pos))) == []
    ensures var c, d := ByteAt(s, pos), Decoded(s, pos);
            d.next == pos + 1 && d.ok == (c <= 0x7F) && (d.ok ==> d.codepoint == c as bv32)
  {
  }

  lemma DecodeEncoded(cp: bv32, rest: seq<Byte>)
    requires Scalar(cp)
    ensures Decoded(Encoded(cp) + rest, 0) == Decoding(true, cp, |Encoded(cp)|)
  {
    hide Decoded, Encoded, Utf8Char, Masks, GetRange;
    var e := Encoded(cp);
    var s := e + rest;
    EncodedIsUtf8(cp);
    Announced(e);
    assert ByteAt(s, 0) == e[0];
    var taken := Taken(s, 0, Length(e[0]));
    assert taken == e;
    DecodedIsUtf8(s, 0);
    EncodedIsUtf8(Decoded(s, 0).codepoint);
  }

  lemma Announced(s: seq<Byte>)
    requires Utf8Char(s)
    ensures |s| == Length(s[0])
  {
  }

  // ---- Whole texts ------------------------------------------------------------------------------

  /** A text in UTF-8: UTF8-octets of section 4 of RFC 3629. */
  ghost predicate Utf8Text(s: seq<Byte>)
    decreases |s|
  {
    s == [] || exists n | 1 <= n <= |s| :: Utf8Char(s[..n]) && Utf8Text(s[n..])
  }

  function EncodedAll(cps: seq<bv32>): seq<Byte> {
    if cps == [] then [] else Encoded(cps[0]) + EncodedAll(cps[1..])
  }

  datatype Codepoints = Codepoints(cps: seq<bv32>) | Malformed

  function DecodedAll(s: seq<Byte>): Codepoints
    decreases |s|
  {
    if s == [] then Codepoints([])
    else
      var d := Decoded(s, 0);
      if !d.ok || !(0 < d.next <= |s|) then Malformed
      else
        match DecodedAll(s[d.next..])
        case Codepoints(cps) => Codepoints([d.codepoint] + cps)
        case Malformed => Malformed
  }

  lemma {:induction false} DecodeAllEncoded(cps: seq<bv32>)
    requires forall cp <- cps :: Scalar(cp)
    ensures DecodedAll(EncodedAll(cps)) == Codepoints(cps)
  {
    hide Decoded, Encoded;
    if cps != [] {
      var rest := EncodedAll(cps[1..]);
      DecodeEncoded(cps[0], rest);
      DecodeAllEncoded(cps[1..]);
      assert (Encoded(cps[0]) + rest)[|Encoded(cps[0])|..] == rest;
      assert [cps[0]] + cps[1..] == cps;
    }
  }

  /** Decoding accepts the grammar's texts and no others, and then encoding gives the text back. */
  lemma {:induction false} EncodeAllDecoded(s: seq<Byte>)
    ensures DecodedAll(s).Codepoints? <==> Utf8Text(s)
    ensures var r := DecodedAll(s);
            r.Codepoints? ==> (forall cp <- r.cps :: Scalar(cp)) && EncodedAll(r.cps) == s
    decreases |s|
  {
    hide Decoded, Encoded, Utf8Char, Masks, GetRange;
    if s != [] {
      var d := Decoded(s, 0);
      var n := Length(s[0]);
      DecodedIsUtf8(s, 0);
      assert n <= |s| ==> Taken(s, 0, n) == s[..n];
      if d.ok {
        NoNulInside(s);
        EncodeAllDecoded(s[n..]);
      }
      if Utf8Text(s) {
        var k :| 1 <= k <= |s| && Utf8Char(s[..k]) && Utf8Text(s[k..]);
        Announced(s[..k]);
        assert k == n;
      }
    }
  }

  /** A sequence cut off by the end of the text is rejected. */
  lemma NoNulInside(s: seq<Byte>)
    requires s != [] && Utf8Char(Taken(s, 0, Length(s[0])))
    ensures Length(s[0]) <= |s|
  {
    hide Masks, GetRange;
    var taken := Taken(s, 0, Length(s[0]));
    TailsAreNotNul(taken);
    if |s| < |taken| {
      NulBehind(s, |taken|);
      assert false;
    }
  }

  lemma TailsAreNotNul(s: seq<Byte>)
    requires Utf8Char(s)
    ensures forall k :: 0 < k < |s| ==> s[k] != 0
  {
  }

  lemma NulBehind(s: seq<Byte>, n: nat)
    requires |s| < n
    ensures Taken(s, 0, n)[|s|] == 0
  {
    assert ByteAt(s, |s|) == 0;
  }

  /** A sequence of UTF-8 at the head of a text is decoded whatever follows it. */
  lemma DecodedHead(s: seq<Byte>, rest: seq<Byte>)
    requires Utf8Char(s)
    ensures Decoded(s + rest, 0).ok && Decoded(s + rest, 0).next == |s|
  {
    hide Utf8Char, Decoded, Masks, GetRange;
    Announced(s);
    DecodedIsUtf8(s + rest, 0);
    assert Taken(s + rest, 0, |s|) == s;
  }

  lemma DecodedTail(s: seq<Byte>)
    requires s != [] && Decoded(s, 0).ok
    ensures 0 < Decoded(s, 0).next <= |s| && Utf8Char(s[..Decoded(s, 0).next])
  {
    hide Utf8Char, Decoded, Masks, GetRange;
    DecodedIsUtf8(s, 0);
    NoNulInside(s);
    var n := Decoded(s, 0).next;
    assert Taken(s, 0, n) == s[..n];
  }

  lemma Utf8TextStep(s: seq<Byte>)
    requires s != []
    ensures var d := Decoded(s, 0);
            Utf8Text(s) <==> d.ok && d.next <= |s| && Utf8Text(s[d.next..])
  {
    hide Utf8Char, Decoded, Masks, GetRange;
    var d := Decoded(s, 0);
    if d.ok {
      DecodedTail(s);
    }
    if Utf8Text(s) {
      var k :| 1 <= k <= |s| && Utf8Char(s[..k]) && Utf8Text(s[k..]);
      DecodedHead(s[..k], s[k..]);
      assert s[..k] + s[k..] == s;
    }
  }

  lemma AsciiDecoded(s: seq<Byte>)
    requires s != [] && s[0] <= 0x7F
    ensures Decoded(s, 0).ok && Decoded(s, 0).next == 1
  {
  }

  lemma EmptyText()
    ensures Utf8Text([])
  {
  }

  lemma Utf8Joined(a: seq<Byte>, s: seq<Byte>)
    requires Utf8Char(a) && Utf8Text(s)
    ensures Utf8Text(a + s)
  {
    hide Utf8Two, Utf8Three, Utf8Four;
    assert (a + s)[..|a|] == a && (a + s)[|a|..] == s;
  }

  lemma {:induction false} RestNext(s: seq<Byte>, d: Decoding, masks: seq<Byte>)
    ensures Rest(s, d, masks).next == d.next + |masks|
    decreases |masks|
  {
    if masks != [] {
      var c := ByteAt(s, d.next);
      RestNext(s, Decoding(d.ok && InRange(c, masks[0]), Shifted(d.codepoint, c), d.next + 1), masks[1..]);
    }
  }

  lemma MasksAreFew(c: Byte)
    ensures |Masks(GetRange(c))| <= 3
  {
  }

  lemma RestStep(s: seq<Byte>, d: Decoding, masks: seq<Byte>)
    requires masks != []
    ensures var c := ByteAt(s, d.next);
            Rest(s, d, masks) == Rest(s, Decoding(d.ok && InRange(c, masks[0]), Shifted(d.codepoint, c), d.next + 1),
                                      masks[1..])
  {
  }

  lemma RestDone(s: seq<Byte>, d: Decoding)
    ensures Rest(s, d, []) == d
  {
  }

  // ---- Streams ----------------------------------------------------------------------------------

  class InputStream {
    const bytes: seq<Byte>
    var pos: nat

    constructor (s: seq<Byte>)
      ensures bytes == s && pos == 0
    {
      bytes, pos := s, 0;
    }

    method Take() returns (c: Byte)
      modifies this
      ensures c == ByteAt(bytes, old(pos)) && pos == old(pos) + 1
    {
      c := if pos < |bytes| then bytes[pos] else 0;
      pos := pos + 1;
    }
  }

  class OutputStream {
    var bytes: seq<Byte>

    constructor ()
      ensures bytes == []
    {
      bytes := [];
    }

    method Put(c: Byte)
      modifies this
      ensures bytes == old(bytes) + [c]
    {
      bytes := bytes + [c];
    }
  }

  method Encode(output: OutputStream, cp: bv32)
    requires cp <= LAST
    modifies output
    ensures output.bytes == old(output.bytes) + Encoded(cp)
  {
    hide LowByte;
    if cp <= 0x7F {
      output.Put(LowByte(cp));
    } else if cp <= 0x7FF {
      output.Put(LowByte(0xC0 | ((cp >> 6) & 0xFF)));
      output.Put(LowByte(0x80 | (cp & 0x3F)));
    } else if cp <= 0xFFFF {
      output.Put(LowByte(0xE0 | ((cp >> 12) & 0xFF)));
      output.Put(LowByte(0x80 | ((cp >> 6) & 0x3F)));
      output.Put(LowByte(0x80 | (cp & 0x3F)));
    } else {
      output.Put(LowByte(0xF0 | ((cp >> 18) & 0xFF)));
      output.Put(LowByte(0x80 | ((cp >> 12) & 0x3F)));
      output.Put(LowByte(0x80 | ((cp >> 6) & 0x3F)));
      output.Put(LowByte(0x80 | (cp & 0x3F)));
    }
  }

  /** Decode: the tails are taken whether or not the bytes before them were right. */
  method Decode(input: InputStream) returns (result: bool, codepoint: bv32)
    modifies input
    ensures Decoding(result, codepoint, input.pos) == Decoded(input.bytes, old(input.pos))
  {
    hide GetRange, Masks, InRange, Lead, Shifted;
    var c := input.Take();
    if c <= 0x7F {
      return true, c as bv32;
    }
    var masks := Masks(GetRange(c));
    codepoint := Lead(c);
    if masks == [] {
      return false, codepoint;
    }
    result := true;
    var k := 0;
    while k < |masks|
      invariant 0 <= k <= |masks|
      invariant Decoded(input.bytes, old(input.pos)) ==
                Rest(input.bytes, Decoding(result, codepoint, input.pos), masks[k..])
    {
      assert masks[k..][1..] == masks[k + 1..];
      c := input.Take();
      codepoint := Shifted(codepoint, c);
      result := result && InRange(c, masks[k]);
      k := k + 1;
    }
  }

  /** Validate agrees with Decode on the verdict and on what is consumed, and copies what it consumes. */
  method Validate(input: InputStream, output: OutputStream) returns (result: bool)
    modifies input, output
    ensures result == Decoded(input.bytes, old(input.pos)).ok && input.pos == Decoded(input.bytes, old(input.pos)).next
    ensures input.pos > old(input.pos)
    ensures output.bytes == old(output.bytes) + Taken(input.bytes, old(input.pos), input.pos - old(input.pos))
  {
    hide GetRange, Masks, InRange, Lead, Shifted;
    ghost var before, start := output.bytes, input.pos;
    var c := input.Take();
    output.Put(c);
    if c <= 0x7F {
      return true;
    }
    var masks := Masks(GetRange(c));
    if masks == [] {
      return false;
    }
    result := true;
    ghost var codepoint := Lead(c);
    var k := 0;
    while k < |masks|
      invariant 0 <= k <= |masks| && input.pos > start
      invariant Decoded(input.bytes, start) == Rest(input.bytes, Decoding(result, codepoint, input.pos), masks[k..])
      invariant output.bytes == before + Taken(input.bytes, start, input.pos - start)
    {
      assert masks[k..][1..] == masks[k + 1..];
      c := input.Take();
      output.Put(c);
      codepoint := Shifted(codepoint, c);
      result := result && InRange(c, masks[k]);
      k := k + 1;
    }
  }
}
