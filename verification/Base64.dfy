/**
 Base64, through arrays of three bytes and of four sextets.
 */
module Base64 {
  import opened Ascii

  const PAD: Byte := 0x3D

  /** What find returns, as a byte, for a character that is not there. */
  const NOT_FOUND: Byte := 255

  /** The alphabet of table 1 of RFC 4648. */
  function CharOf(v: Byte): Byte
    requires v < 64
  {
    if v < 26 then 0x41 + v
    else if v < 52 then 0x61 + (v - 26)
    else if v < 62 then ZERO + (v - 52)
    else if v == 62 then 0x2B
    else 0x2F
  }

  function Find(c: Byte): Byte {
    if 0x41 <= c <= 0x5A then c - 0x41
    else if 0x61 <= c <= 0x7A then c - 0x61 + 26
    else if Digit(c) then c - ZERO + 52
    else if c == 0x2B then 62
    else if c == 0x2F then 63
    else NOT_FOUND
  }

  predicate IsBase64(c: Byte) {
    0x41 <= c <= 0x5A || 0x61 <= c <= 0x7A || Digit(c) || c == 0x2B || c == 0x2F
  }

  lemma FindsChar(v: Byte)
    requires v < 64
    ensures IsBase64(CharOf(v)) && CharOf(v) != PAD && Find(CharOf(v)) == v
  {
  }

  /** The same table, character by character. */
  const CAPITALS: string := "ABCDEFGHIJKLMNOPQRSTUVWXYZ"
  const SMALL_LETTERS: string := "abcdefghijklmnopqrstuvwxyz"
  const OTHERS: string := "0123456789+/"
  const ALPHABET: string := CAPITALS + SMALL_LETTERS + OTHERS

  lemma AlphabetLengths()
    ensures |CAPITALS| == 26 && |SMALL_LETTERS| == 26 && |OTHERS| == 12
  {
  }

  lemma CharIsCapital(v: Byte)
    requires v < 26
    ensures CAPITALS[v as nat] == CharOf(v) as char
  {
  }

  lemma CharIsSmall(v: Byte)
    requires 26 <= v < 52
    ensures SMALL_LETTERS[v as nat - 26] == CharOf(v) as char
  {
  }

  lemma CharIsOther(v: Byte)
    requires 52 <= v < 64
    ensures OTHERS[v as nat - 52] == CharOf(v) as char
  {
  }

  lemma CharIsInTable(v: Byte)
    requires v < 64
    ensures |ALPHABET| == 64 && ALPHABET[v as nat] == CharOf(v) as char
  {
    AlphabetLengths();
    if v < 26 {
      CharIsCapital(v);
    } else if v < 52 {
      CharIsSmall(v);
    } else {
      CharIsOther(v);
    }
  }

  // ---- Encoding ---------------------------------------------------------------------------------

  function Sextet0(a: Byte): (v: Byte)
    ensures v < 64
  {
    (a & 0xFC) >> 2
  }

  function Sextet1(a: Byte, b: Byte): (v: Byte)
    ensures v < 64
  {
    ((a & 0x03) << 4) + ((b & 0xF0) >> 4)
  }

  function Sextet2(b: Byte, c: Byte): (v: Byte)
    ensures v < 64
  {
    ((b & 0x0F) << 2) + ((c & 0xC0) >> 6)
  }

  function Sextet3(c: Byte): (v: Byte)
    ensures v < 64
  {
    c & 0x3F
  }

  function Encoded(x: seq<Byte>): seq<Byte>
    decreases |x|
  {
    if |x| == 0 then []
    else if |x| == 1 then [CharOf(Sextet0(x[0])), CharOf(Sextet1(x[0], 0)), PAD, PAD]
    else if |x| == 2 then [CharOf(Sextet0(x[0])), CharOf(Sextet1(x[0], x[1])), CharOf(Sextet2(x[1], 0)), PAD]
    else
      [CharOf(Sextet0(x[0])), CharOf(Sextet1(x[0], x[1])), CharOf(Sextet2(x[1], x[2])), CharOf(Sextet3(x[2]))]
      + Encoded(x[3..])
  }

  /** Three bytes and their four sextets are the same 24 bits, as section 4 of RFC 4648 has it. */
  lemma SameBits(a: Byte, b: Byte, c: Byte)
    ensures (Sextet0(a) as bv32 << 18) | (Sextet1(a, b) as bv32 << 12) |
            (Sextet2(b, c) as bv32 << 6) | (Sextet3(c) as bv32) ==
            (a as bv32 << 16) | (b as bv32 << 8) | (c as bv32)
  {
  }

  /** Four characters for every three bytes or part of them. */
  lemma {:induction false} EncodedLength(x: seq<Byte>)
    ensures |Encoded(x)| == 4 * ((|x| + 2) / 3)
    decreases |x|
  {
    if |x| >= 3 {
      EncodedLength(x[3..]);
    }
  }

  // ---- Decoding ---------------------------------------------------------------------------------

  function Byte0(s: Byte, t: Byte): Byte {
    (s << 2) + ((t & 0x30) >> 4)
  }

  function Byte1(t: Byte, u: Byte): Byte {
    ((t & 0xF) << 4) + ((u & 0x3C) >> 2)
  }

  function Byte2(u: Byte, v: Byte): Byte {
    ((u & 0x3) << 6) + v
  }

  /** The characters before the first that is not in the alphabet. */
  function Alphabetic(s: seq<Byte>): seq<Byte> {
    if s == [] || s[0] == PAD || !IsBase64(s[0]) then [] else [s[0]] + Alphabetic(s[1..])
  }

  /** The bytes of sextets, by fours; what is left over gives only the bytes it has all the bits of. */
  function Joined(v: seq<Byte>): seq<Byte>
    decreases |v|
  {
    if |v| < 2 then []
    else if |v| == 2 then [Byte0(v[0], v[1])]
    else if |v| == 3 then [Byte0(v[0], v[1]), Byte1(v[1], v[2])]
    else [Byte0(v[0], v[1]), Byte1(v[1], v[2]), Byte2(v[2], v[3])] + Joined(v[4..])
  }

  function Found(s: seq<Byte>): (v: seq<Byte>)
    ensures |v| == |s|
  {
    seq(|s|, i requires 0 <= i < |s| => Find(s[i]))
  }

  function Decoded(s: seq<Byte>): seq<Byte> {
    Joined(Found(Alphabetic(s)))
  }

  // ---- Round trip -------------------------------------------------------------------------------

  lemma BitsBack(a: Byte, b: Byte, c: Byte)
    ensures Byte0(Sextet0(a), Sextet1(a, b)) == a
    ensures Byte1(Sextet1(a, b), Sextet2(b, c)) == b
    ensures Byte2(Sextet2(b, c), Sextet3(c)) == c
  {
  }

  /** The sextets of a byte string, without padding. */
  function Sextets(x: seq<Byte>): seq<Byte>
    decreases |x|
  {
    if |x| == 0 then []
    else if |x| == 1 then [Sextet0(x[0]), Sextet1(x[0], 0)]
    else if |x| == 2 then [Sextet0(x[0]), Sextet1(x[0], x[1]), Sextet2(x[1], 0)]
    else [Sextet0(x[0]), Sextet1(x[0], x[1]), Sextet2(x[1], x[2]), Sextet3(x[2])] + Sextets(x[3..])
  }

  lemma {:induction false} SextetsBack(x: seq<Byte>)
    ensures Joined(Sextets(x)) == x
    decreases |x|
  {
    hide Sextet0, Sextet1, Sextet2, Sextet3, Byte0, Byte1, Byte2;
    if |x| == 1 {
      BitsBack(x[0], 0, 0);
    } else if |x| == 2 {
      BitsBack(x[0], x[1], 0);
    } else if |x| >= 3 {
      BitsBack(x[0], x[1], x[2]);
      SextetsBack(x[3..]);
      assert Sextets(x)[4..] == Sextets(x[3..]);
      assert x == [x[0], x[1], x[2]] + x[3..];
    }
  }

  lemma AlphabeticThen(v: Byte, rest: seq<Byte>)
    requires v < 64
    ensures Found(Alphabetic([CharOf(v)] + rest)) == [v] + Found(Alphabetic(rest))
  {
    hide CharOf, Find, IsBase64;
    FindsChar(v);
    assert ([CharOf(v)] + rest)[1..] == rest;
  }

  /** The encoding, two characters at a time. */
  lemma EncodedOne(x: seq<Byte>)
    requires |x| == 1
    ensures Encoded(x) == [CharOf(Sextet0(x[0])), CharOf(Sextet1(x[0], 0))] + [PAD, PAD]
  {
    hide Sextet0, Sextet1, Sextet2, Sextet3, CharOf;
  }

  lemma EncodedTwo(x: seq<Byte>)
    requires |x| == 2
    ensures Encoded(x) == [CharOf(Sextet0(x[0])), CharOf(Sextet1(x[0], x[1]))] + ([CharOf(Sextet2(x[1], 0))] + [PAD])
  {
    hide Sextet0, Sextet1, Sextet2, Sextet3, CharOf;
  }

  lemma EncodedThree(x: seq<Byte>)
    requires |x| >= 3
    ensures Encoded(x) == [CharOf(Sextet0(x[0])), CharOf(Sextet1(x[0], x[1]))]
                          + ([CharOf(Sextet2(x[1], x[2])), CharOf(Sextet3(x[2]))] + Encoded(x[3..]))
  {
    hide Sextet0, Sextet1, Sextet2, Sextet3, CharOf;
    FourAndMore(CharOf(Sextet0(x[0])), CharOf(Sextet1(x[0], x[1])), CharOf(Sextet2(x[1], x[2])), CharOf(Sextet3(x[2])),
                Encoded(x[3..]));
  }

  lemma FourAndMore(a: Byte, b: Byte, c: Byte, d: Byte, more: seq<Byte>)
    ensures [a, b, c, d] + more == [a, b] + ([c, d] + more)
  {
  }

  lemma {:induction false} EncodedFound(x: seq<Byte>)
    ensures Found(Alphabetic(Encoded(x))) == Sextets(x)
    decreases |x|
  {
    hide Sextet0, Sextet1, Sextet2, Sextet3, CharOf, Find, IsBase64, Found, Alphabetic, Encoded;
    NothingFound();
    if |x| == 0 {
      NothingEncoded();
    } else if |x| == 1 {
      EncodedOne(x);
      TwoFound(Sextet0(x[0]), Sextet1(x[0], 0), [PAD, PAD]);
    } else if |x| == 2 {
      EncodedTwo(x);
      TwoFound(Sextet0(x[0]), Sextet1(x[0], x[1]), [CharOf(Sextet2(x[1], 0))] + [PAD]);
      AlphabeticThen(Sextet2(x[1], 0), [PAD]);
    } else {
      var more := Encoded(x[3..]);
      EncodedThree(x);
      EncodedFound(x[3..]);
      TwoFound(Sextet2(x[1], x[2]), Sextet3(x[2]), more);
      TwoFound(Sextet0(x[0]), Sextet1(x[0], x[1]), [CharOf(Sextet2(x[1], x[2])), CharOf(Sextet3(x[2]))] + more);
      FourAndMore(Sextet0(x[0]), Sextet1(x[0], x[1]), Sextet2(x[1], x[2]), Sextet3(x[2]), Sextets(x[3..]));
    }
  }

  lemma NothingEncoded()
    ensures Encoded([]) == []
  {
  }

  lemma NothingFound()
    ensures Found(Alphabetic([])) == [] && Found(Alphabetic([PAD])) == [] && Found(Alphabetic([PAD, PAD])) == []
  {
  }

  lemma TwoFound(v: Byte, w: Byte, rest: seq<Byte>)
    requires v < 64 && w < 64
    ensures Found(Alphabetic([CharOf(v), CharOf(w)] + rest)) == [v, w] + Found(Alphabetic(rest))
  {
    hide CharOf, Found, Alphabetic;
    AlphabeticThen(w, rest);
    AlphabeticThen(v, [CharOf(w)] + rest);
    assert [CharOf(v), CharOf(w)] + rest == [CharOf(v)] + ([CharOf(w)] + rest);
  }

  /** Decoding undoes encoding. */
  lemma DecodeEncoded(x: seq<Byte>)
    ensures Decoded(Encoded(x)) == x
  {
    EncodedFound(x);
    SextetsBack(x);
  }

  // ---- In place ---------------------------------------------------------------------------------

  /** Three bytes to four sextets. */
  method Split(three: array<Byte>, four: array<Byte>)
    requires three.Length == 3 && four.Length == 4 && three != four
    modifies four
    ensures four[..] == [Sextet0(three[0]), Sextet1(three[0], three[1]), Sextet2(three[1], three[2]), Sextet3(three[2])]
  {
    four[0] := (three[0] & 0xFC) >> 2;
    four[1] := ((three[0] & 0x03) << 4) + ((three[1] & 0xF0) >> 4);
    four[2] := ((three[1] & 0x0F) << 2) + ((three[2] & 0xC0) >> 6);
    four[3] := three[2] & 0x3F;
  }

  lemma Slices(bytes: seq<Byte>, lo: nat, hi: nat)
    requires lo <= hi <= |bytes|
    ensures bytes[lo..][..hi - lo] == bytes[lo..hi] && bytes[lo..][hi - lo..] == bytes[hi..]
  {
  }

  method Encode(bytes: seq<Byte>) returns (ret: seq<Byte>)
    ensures ret == Encoded(bytes)
  {
    hide Sextet0, Sextet1, Sextet2, Sextet3, CharOf, Encoded;
    ret := [];
    var i, pos := 0, 0;
    var three, four := new Byte[3](_ => 0), new Byte[4](_ => 0);
    assert bytes[0..] == bytes;
    while pos < |bytes|
      invariant 0 <= i < 3 && i <= pos <= |bytes|
      invariant three[..i] == bytes[pos - i..pos]
      invariant ret + Encoded(bytes[pos - i..]) == Encoded(bytes)
    {
      ghost var group := bytes[pos - i..];
      three[i] := bytes[pos];
      i, pos := i + 1, pos + 1;
      assert three[..i] == bytes[pos - i..pos];
      if i == 3 {
        Slices(bytes, pos - 3, pos);
        assert three[..3] == group[..3];
        var quad := EncodeGroup(three, four);
        ret := ret + quad;
        GroupEncoded(group, quad, three[..]);
        i := 0;
      }
    }
    if i > 0 {
      assert three[..i] == bytes[pos - i..];
      var rest := EncodeRest(three, four, i);
      ret := ret + rest;
    } else {
      NothingEncoded();
      assert bytes[pos..] == [] && ret + [] == ret;
    }
  }

  lemma GroupEncoded(group: seq<Byte>, quad: seq<Byte>, three: seq<Byte>)
    requires |group| >= 3 && |three| == 3 && three[..3] == group[..3] && quad == Encoded(three)
    ensures Encoded(group) == quad + Encoded(group[3..])
  {
    hide Sextet0, Sextet1, Sextet2, Sextet3, CharOf;
    assert three[0] == group[..3][0] && three[1] == group[..3][1] && three[2] == group[..3][2];
    assert three[3..] == [];
  }

  method EncodeGroup(three: array<Byte>, four: array<Byte>) returns (quad: seq<Byte>)
    requires three.Length == 3 && four.Length == 4 && three != four
    modifies four
    ensures quad == Encoded(three[..])
  {
    hide Sextet0, Sextet1, Sextet2, Sextet3, CharOf, Encoded, Chars;
    Split(three, four);
    quad := TakeChars(four, 4);
    AllEncoded(three[..], four[..]);
  }

  /** The characters of the first `n` sextets. */
  method TakeChars(four: array<Byte>, n: nat) returns (chars: seq<Byte>)
    requires n <= four.Length && forall i :: 0 <= i < four.Length ==> four[i] < 64
    ensures chars == Chars(four[..][..n])
  {
    hide CharOf, Chars;
    NoChars();
    assert four[..][..0] == [];
    chars := [];
    for i := 0 to n
      invariant chars == Chars(four[..][..i])
    {
      MoreChars(four[..], i);
      chars := chars + [CharOf(four[i])];
    }
  }

  lemma NoChars()
    ensures Chars([]) == [] && Pads(0) == []
  {
  }

  lemma MoreChars(v: seq<Byte>, n: nat)
    requires n < |v| && forall i :: 0 <= i < |v| ==> v[i] < 64
    ensures Chars(v[..n + 1]) == Chars(v[..n]) + [CharOf(v[n])]
  {
    hide CharOf;
  }

  lemma AllEncoded(x: seq<Byte>, v: seq<Byte>)
    requires |x| == 3 && v == [Sextet0(x[0]), Sextet1(x[0], x[1]), Sextet2(x[1], x[2]), Sextet3(x[2])]
    ensures Chars(v[..4]) == Encoded(x)
  {
    hide Sextet0, Sextet1, Sextet2, Sextet3, CharOf;
    assert x[3..] == [];
  }

  function Chars(v: seq<Byte>): (s: seq<Byte>)
    requires forall i :: 0 <= i < |v| ==> v[i] < 64
    ensures |s| == |v|
  {
    seq(|v|, i requires 0 <= i < |v| => CharOf(v[i]))
  }

  /** The one or two bytes that are left, with padding. */
  method EncodeRest(three: array<Byte>, four: array<Byte>, left: nat) returns (rest: seq<Byte>)
    requires three.Length == 3 && four.Length == 4 && three != four && 1 <= left <= 2
    modifies three, four
    ensures rest == Encoded(old(three[..left]))
  {
    hide Sextet0, Sextet1, Sextet2, Sextet3, CharOf, Encoded, Chars, Pads;
    NoChars();
    ghost var x := three[..left];
    for j := left to 3
      invariant three[..left] == x && forall k :: left <= k < j ==> three[k] == 0
    {
      three[j] := 0;
    }
    Split(three, four);
    ghost var v := four[..];
    assert three[0] == x[0] && three[1] == (if left == 2 then x[1] else 0) && three[2] == 0;
    rest := TakeChars(four, left + 1);
    var i := left;
    ghost var chars := rest;
    while i < 3
      invariant left <= i <= 3 && rest == chars + Pads(i - left)
    {
      MorePads(chars, i - left);
      rest := rest + [PAD];
      i := i + 1;
    }
    RestEncoded(x, v);
  }

  lemma MorePads(chars: seq<Byte>, n: nat)
    ensures chars + Pads(n) + [PAD] == chars + Pads(n + 1)
  {
  }

  lemma RestEncoded(x: seq<Byte>, v: seq<Byte>)
    requires 1 <= |x| <= 2
    requires var b := if |x| == 2 then x[1] else 0; v == [Sextet0(x[0]), Sextet1(x[0], b), Sextet2(b, 0), Sextet3(0)]
    ensures Chars(v[..|x| + 1]) + Pads(3 - |x|) == Encoded(x)
  {
    hide Sextet0, Sextet1, Sextet2, Sextet3, CharOf;
  }

  function Pads(n: nat): (s: seq<Byte>)
    ensures |s| == n
  {
    seq(n, _ => PAD)
  }

  /** `find` on four characters, and their 24 bits as three bytes. */
  method Merge(four: array<Byte>, three: array<Byte>)
    requires three.Length == 3 && four.Length == 4 && three != four
    modifies three, four
    ensures var v := Found(old(four[..])); three[..] == [Byte0(v[0], v[1]), Byte1(v[1], v[2]), Byte2(v[2], v[3])]
  {
    hide Find, Byte0, Byte1, Byte2;
    ghost var s := four[..];
    for i := 0 to 4
      invariant forall k :: 0 <= k < i ==> four[k] == Find(s[k])
      invariant forall k :: i <= k < 4 ==> four[k] == s[k]
    {
      four[i] := Find(four[i]);
    }
    three[0] := Byte0(four[0], four[1]);
    three[1] := Byte1(four[1], four[2]);
    three[2] := Byte2(four[2], four[3]);
  }

  const TWO31: int := 0x8000_0000

  /** A length kept in an int. */
  function AsInt(n: nat): (r: int)
    ensures -TWO31 <= r < TWO31 && r <= n
    ensures n < TWO31 ==> r == n
  {
    var m := n % (2 * TWO31);
    if m < TWO31 then m else m - 2 * TWO31
  }

  /** The part of the text that the loop over it can see, given its length as an int. */
  function Seen(s: seq<Byte>): seq<Byte> {
    if AsInt(|s|) >= 0 then s[..AsInt(|s|)] else s
  }

  /** What the string holds at a position; a NUL at its end. */
  function CharAt(s: seq<Byte>, pos: nat): Byte {
    if pos < |s| then s[pos] else 0
  }

  /**
   The loop counts the length, as an int, down to zero. A length that has become negative does not stop it,
   but the end of the string does.
   */
  method Decode(s: seq<Byte>) returns (ret: seq<Byte>)
    requires CounterFits(s)
    ensures ret == Decoded(Seen(s))
    ensures |s| < TWO31 ==> ret == Decoded(s)
  {
    hide Byte0, Byte1, Byte2, Find, IsBase64, Joined, Found, Alphabetic;
    ret := [];
    var i, pos, left := 0, 0, AsInt(|s|);
    var four, three := new Byte[4](_ => 0), new Byte[3](_ => 0);
    ghost var x, t: seq<Byte> := Seen(s), [];
    NulIsOutside();
    assert |s| < TWO31 ==> x == s;
    assert x[0..] == x && [] + Alphabetic(x) == Alphabetic(x);
    while left != 0 && CharAt(s, pos) != PAD && IsBase64(CharAt(s, pos))
      invariant 0 <= i < 4 && i <= pos <= |x| && t == four[..i]
      invariant left == AsInt(|s|) - pos && |Alphabetic(x)| == pos + |Alphabetic(x[pos..])|
      invariant ret + Joined(Found(t + Alphabetic(x[pos..]))) == Decoded(x)
      decreases |x| - pos
    {
      assert -TWO31 <= left - 1;
      AlphabeticAt(x, pos, t);
      four[i] := s[pos];
      t := t + [s[pos]];
      i, pos, left := i + 1, pos + 1, left - 1;
      assert t == four[..i];
      if i == 4 {
        assert four[..] == t;
        var group := DecodeGroup(four, three);
        JoinedThen(t, Alphabetic(x[pos..]), ret, group);
        ret := ret + group;
        i, t := 0, [];
      }
    }
    AlphabeticEnd(x[pos..]);
    assert t + [] == t && -TWO31 <= left - 1;
    if i > 0 {
      var rest := DecodeRest(four, three, i);
      ret := ret + rest;
    } else {
      JoinedRest(t, [0, 0, 0]);
    }
  }

  /** The counter of the loop stays within its 32 bits. */
  predicate CounterFits(s: seq<Byte>) {
    AsInt(|s|) < 0 ==> |Alphabetic(s)| < AsInt(|s|) + TWO31
  }

  /** Decode gives back what was encoded exactly if that has fewer than 2^31 characters. */
  lemma DecodedBack(x: seq<Byte>)
    ensures CounterFits(Encoded(x)) && Decoded(Seen(Encoded(x))) == x <==> |Encoded(x)| < TWO31
  {
    hide Encoded, Decoded, Alphabetic;
    var e := Encoded(x);
    EncodedLength(x);
    if |e| < TWO31 {
      DecodeEncoded(x);
      assert Seen(e) == e;
    } else if AsInt(|e|) < 0 {
      MostIsAlphabetic(x);
      WrapsBelow(|e|);
    } else {
      DecodedLength(Seen(e));
      WrapsBelow(|e|);
    }
  }

  lemma WrapsBelow(n: nat)
    requires n >= TWO31
    ensures n >= AsInt(n) + 2 * TWO31
  {
  }

  lemma {:induction false} DecodedLength(s: seq<Byte>)
    ensures 4 * |Decoded(s)| <= 3 * |s|
  {
    AlphabeticLength(s);
    JoinedLength(Found(Alphabetic(s)));
  }

  lemma {:induction false} AlphabeticLength(s: seq<Byte>)
    ensures |Alphabetic(s)| <= |s|
    decreases |s|
  {
    if s != [] {
      AlphabeticLength(s[1..]);
    }
  }

  lemma {:induction false} JoinedLength(v: seq<Byte>)
    ensures 4 * |Joined(v)| <= 3 * |v|
    decreases |v|
  {
    hide Byte0, Byte1, Byte2;
    if |v| >= 4 {
      JoinedLength(v[4..]);
    }
  }

  /** All but the padding is in the alphabet. */
  lemma MostIsAlphabetic(x: seq<Byte>)
    ensures |Alphabetic(Encoded(x))| >= |Encoded(x)| - 2
  {
    hide Encoded, Alphabetic, Sextets, Joined;
    EncodedFound(x);
    EncodedLength(x);
    SextetsBack(x);
    JoinedLength(Sextets(x));
    assert |Found(Alphabetic(Encoded(x)))| == |Alphabetic(Encoded(x))|;
  }

  lemma NulIsOutside()
    ensures !IsBase64(0)
  {
  }

  lemma AlphabeticAt(s: seq<Byte>, pos: nat, t: seq<Byte>)
    requires pos < |s| && s[pos] != PAD && IsBase64(s[pos])
    ensures t + Alphabetic(s[pos..]) == t + [s[pos]] + Alphabetic(s[pos + 1..])
    ensures |Alphabetic(s[pos..])| == 1 + |Alphabetic(s[pos + 1..])|
  {
    hide Alphabetic, IsBase64;
    AlphabeticStep(s[pos..]);
    assert s[pos..][1..] == s[pos + 1..];
  }

  method DecodeGroup(four: array<Byte>, three: array<Byte>) returns (group: seq<Byte>)
    requires three.Length == 3 && four.Length == 4 && three != four
    modifies three, four
    ensures var v := Found(old(four[..])); group == [Byte0(v[0], v[1]), Byte1(v[1], v[2]), Byte2(v[2], v[3])]
  {
    hide Find, Byte0, Byte1, Byte2;
    Merge(four, three);
    group := three[..];
  }

  lemma JoinedThen(t: seq<Byte>, more: seq<Byte>, ret: seq<Byte>, group: seq<Byte>)
    requires |t| == 4
    requires var v := Found(t); group == [Byte0(v[0], v[1]), Byte1(v[1], v[2]), Byte2(v[2], v[3])]
    ensures ret + Joined(Found(t + more)) == ret + group + Joined(Found([] + more))
  {
    hide Find, Byte0, Byte1, Byte2, Joined, Found;
    JoinedGroup(t, more);
    assert [] + more == more;
  }

  lemma AlphabeticStep(s: seq<Byte>)
    requires s != [] && s[0] != PAD && IsBase64(s[0])
    ensures Alphabetic(s) == [s[0]] + Alphabetic(s[1..])
  {
  }

  lemma AlphabeticEnd(s: seq<Byte>)
    requires s == [] || s[0] == PAD || !IsBase64(s[0])
    ensures Alphabetic(s) == []
  {
  }

  lemma JoinedGroup(t: seq<Byte>, rest: seq<Byte>)
    requires |t| == 4
    ensures var v := Found(t);
            Joined(Found(t + rest)) == [Byte0(v[0], v[1]), Byte1(v[1], v[2]), Byte2(v[2], v[3])] + Joined(Found(rest))
  {
    hide Find, Byte0, Byte1, Byte2;
    assert Found(t + rest)[4..] == Found(rest);
  }

  /** What is left over gives one byte less than there are characters, and none of them has bits of anything else. */
  lemma JoinedRest(t: seq<Byte>, three: seq<Byte>)
    requires |t| < 4 && |three| == 3
    requires |t| >= 2 ==> three[0] == Byte0(Find(t[0]), Find(t[1]))
    requires |t| >= 3 ==> three[1] == Byte1(Find(t[1]), Find(t[2]))
    ensures Joined(Found(t)) == three[..if |t| == 0 then 0 else |t| - 1]
  {
    hide Find, Byte0, Byte1;
  }

  method DecodeRest(four: array<Byte>, three: array<Byte>, left: nat) returns (rest: seq<Byte>)
    requires three.Length == 3 && four.Length == 4 && three != four && 1 <= left <= 3
    modifies three, four
    ensures rest == Joined(Found(old(four[..left])))
  {
    hide Byte0, Byte1, Byte2, Find, Joined;
    ghost var t := four[..left];
    for j := left to 4
      invariant four[..left] == t
    {
      four[j] := 0;
    }
    ghost var all := four[..];
    assert forall k :: 0 <= k < left ==> all[k] == t[k];
    Merge(four, three);
    JoinedRest(t, three[..]);
    rest := [];
    for j := 0 to left - 1
      invariant rest == three[..j]
    {
      rest := rest + [three[j]];
    }
    assert three[..][..left - 1] == three[..left - 1];
  }

  // ---- The encoding, bit by bit -----------------------------------------------------------------

  /** The bits of a byte, the highest first. */
  function Bits(b: Byte): seq<bool> {
    [b & 0x80 != 0, b & 0x40 != 0, b & 0x20 != 0, b & 0x10 != 0, b & 0x08 != 0, b & 0x04 != 0, b & 0x02 != 0,
     b & 0x01 != 0]
  }

  function BitsOf(x: seq<Byte>): seq<bool> {
    if x == [] then [] else Bits(x[0]) + BitsOf(x[1..])
  }

  function BitAt(bits: seq<bool>, i: nat): bool {
    i < |bits| && bits[i]
  }

  /** The number six bits stand for. */
  function Six(a: bool, b: bool, c: bool, d: bool, e: bool, f: bool): (v: Byte)
    ensures v < 64
  {
    (if a then 32 else 0) + (if b then 16 else 0) + (if c then 8 else 0) + (if d then 4 else 0) + (if e then 2 else 0) +
      (if f then 1 else 0)
  }

  /** The number of the first six bits, with zeros behind the last bit. */
  function FirstSix(bits: seq<bool>): (v: Byte)
    ensures v < 64
  {
    Six(BitAt(bits, 0), BitAt(bits, 1), BitAt(bits, 2), BitAt(bits, 3), BitAt(bits, 4), BitAt(bits, 5))
  }

  /** A character of the alphabet for every six bits, as section 4 of RFC 4648 has it. */
  function Spelled(bits: seq<bool>): string
    decreases |bits|
  {
    if bits == [] then ""
    else
      AlphabetIsFull();
      [ALPHABET[FirstSix(bits) as nat]] + Spelled(if |bits| <= 6 then [] else bits[6..])
  }

  lemma AlphabetIsFull()
    ensures |ALPHABET| == 64
  {
    CharIsInTable(0);
  }

  function Padding(n: nat): string {
    if n % 3 == 1 then "==" else if n % 3 == 2 then "=" else ""
  }

  lemma SixOfThree(a: Byte, b: Byte, c: Byte)
    ensures Six(a & 0x80 != 0, a & 0x40 != 0, a & 0x20 != 0, a & 0x10 != 0, a & 0x08 != 0, a & 0x04 != 0) == Sextet0(a)
    ensures Six(a & 0x02 != 0, a & 0x01 != 0, b & 0x80 != 0, b & 0x40 != 0, b & 0x20 != 0, b & 0x10 != 0) ==
            Sextet1(a, b)
    ensures Six(b & 0x08 != 0, b & 0x04 != 0, b & 0x02 != 0, b & 0x01 != 0, c & 0x80 != 0, c & 0x40 != 0) ==
            Sextet2(b, c)
    ensures Six(c & 0x20 != 0, c & 0x10 != 0, c & 0x08 != 0, c & 0x04 != 0, c & 0x02 != 0, c & 0x01 != 0) == Sextet3(c)
  {
  }

  lemma SpelledNext(bits: seq<bool>, v: Byte, rest: seq<bool>)
    requires v < 64 && bits != [] && FirstSix(bits) == v && rest == if |bits| <= 6 then [] else bits[6..]
    ensures Spelled(bits) == [CharOf(v) as char] + Spelled(rest)
  {
    hide FirstSix, CharOf, ALPHABET;
    CharIsInTable(v);
  }

  lemma BitsLength(b: Byte)
    ensures |Bits(b)| == 8
  {
  }

  /** Six bits in a row, wherever they begin. */
  lemma SixAt(bits: seq<bool>, i: nat)
    requires i + 6 <= |bits|
    ensures FirstSix(bits[i..]) == Six(bits[i], bits[i + 1], bits[i + 2], bits[i + 3], bits[i + 4], bits[i + 5])
  {
    hide Six;
  }

  lemma ThreeBytes(a: Byte, b: Byte, c: Byte, rest: seq<bool>, i: nat)
    requires i < 8
    ensures var bits := Bits(a) + Bits(b) + Bits(c) + rest;
            bits[i] == Bits(a)[i] && bits[i + 8] == Bits(b)[i] && bits[i + 16] == Bits(c)[i]
  {
  }

  /** The bits of three bytes by sixes, whatever bits follow. */
  lemma FirstSixes(a: Byte, b: Byte, c: Byte, rest: seq<bool>)
    ensures var bits := Bits(a) + Bits(b) + Bits(c) + rest;
            && FirstSix(bits) == Sextet0(a) && FirstSix(bits[6..]) == Sextet1(a, b)
            && FirstSix(bits[12..]) == Sextet2(b, c) && FirstSix(bits[18..]) == Sextet3(c) && bits[24..] == rest
  {
    hide Six, FirstSix, Sextet0, Sextet1, Sextet2, Sextet3;
    var bits := Bits(a) + Bits(b) + Bits(c) + rest;
    assert bits[0..] == bits;
    SixAt(bits, 0);
    SixAt(bits, 6);
    SixAt(bits, 12);
    SixAt(bits, 18);
    forall i | 0 <= i < 8
      ensures bits[i] == Bits(a)[i] && bits[i + 8] == Bits(b)[i] && bits[i + 16] == Bits(c)[i]
    {
      ThreeBytes(a, b, c, rest, i);
    }
    SixOfThree(a, b, c);
  }

  lemma ThreeSpelled(a: Byte, b: Byte, c: Byte, rest: seq<bool>)
    ensures Spelled(Bits(a) + Bits(b) + Bits(c) + rest) ==
            [CharOf(Sextet0(a)) as char] + ([CharOf(Sextet1(a, b)) as char] +
              ([CharOf(Sextet2(b, c)) as char] + ([CharOf(Sextet3(c)) as char] + Spelled(rest))))
  {
    hide FirstSix, Sextet0, Sextet1, Sextet2, Sextet3, CharOf, ALPHABET, Spelled, Bits;
    var bits := Bits(a) + Bits(b) + Bits(c) + rest;
    BitsLength(a);
    BitsLength(b);
    BitsLength(c);
    FirstSixes(a, b, c, rest);
    SpelledNext(bits, Sextet0(a), bits[6..]);
    SpelledNext(bits[6..], Sextet1(a, b), bits[12..]);
    assert bits[6..][6..] == bits[12..] && bits[12..][6..] == bits[18..] && bits[18..][6..] == bits[24..];
    SpelledNext(bits[12..], Sextet2(b, c), bits[18..]);
    SpelledNext(bits[18..], Sextet3(c), rest);
  }

  lemma OneSpelled(a: Byte)
    ensures Spelled(Bits(a)) == [CharOf(Sextet0(a)) as char] + [CharOf(Sextet1(a, 0)) as char]
  {
    hide FirstSix, Six, Sextet0, Sextet1, CharOf, ALPHABET, Spelled;
    var bits := Bits(a);
    assert bits[0..] == bits;
    SixAt(bits, 0);
    SixOfThree(a, 0, 0);
    SixBehind(bits[6..]);
    SpelledNext(bits, Sextet0(a), bits[6..]);
    SpelledNext(bits[6..], Sextet1(a, 0), []);
    NothingSpelled();
  }

  lemma NothingSpelled()
    ensures Spelled([]) == ""
  {
  }

  /** The last bits, with zeros behind them. */
  lemma SixBehind(bits: seq<bool>)
    ensures |bits| == 2 ==> FirstSix(bits) == Six(bits[0], bits[1], false, false, false, false)
    ensures |bits| == 4 ==> FirstSix(bits) == Six(bits[0], bits[1], bits[2], bits[3], false, false)
  {
    hide Six;
  }

  lemma TwoSpelled(a: Byte, b: Byte)
    ensures Spelled(Bits(a) + Bits(b)) ==
            [CharOf(Sextet0(a)) as char] + ([CharOf(Sextet1(a, b)) as char] + [CharOf(Sextet2(b, 0)) as char])
  {
    hide FirstSix, Six, Sextet0, Sextet1, Sextet2, CharOf, ALPHABET, Spelled;
    var bits := Bits(a) + Bits(b);
    assert bits[0..] == bits && bits[6..][6..] == bits[12..];
    SixAt(bits, 0);
    SixAt(bits, 6);
    SixOfThree(a, b, 0);
    SixBehind(bits[12..]);
    SpelledNext(bits, Sextet0(a), bits[6..]);
    SpelledNext(bits[6..], Sextet1(a, b), bits[12..]);
    SpelledNext(bits[12..], Sextet2(b, 0), []);
    NothingSpelled();
  }

  lemma BitsNext(x: seq<Byte>)
    requires x != []
    ensures BitsOf(x) == Bits(x[0]) + BitsOf(x[1..])
  {
    hide Bits;
  }

  lemma NoBits()
    ensures BitsOf([]) == []
  {
  }

  lemma Regrouped<T>(a: seq<T>, b: seq<T>, c: seq<T>, d: seq<T>)
    ensures a + (b + (c + d)) == a + b + c + d
    ensures a + (b + []) == a + b
  {
  }

  lemma BitsOfFew(x: seq<Byte>)
    ensures |x| == 1 ==> BitsOf(x) == Bits(x[0])
    ensures |x| == 2 ==> BitsOf(x) == Bits(x[0]) + Bits(x[1])
    ensures |x| >= 3 ==> BitsOf(x) == Bits(x[0]) + Bits(x[1]) + Bits(x[2]) + BitsOf(x[3..])
  {
    hide Bits, BitsOf;
    NoBits();
    if |x| > 0 {
      BitsNext(x);
      assert |x| == 1 ==> x[1..] == [];
    }
    if |x| > 1 {
      BitsNext(x[1..]);
      assert x[1..][1..] == x[2..];
      Regrouped(Bits(x[0]), Bits(x[1]), [], []);
      assert |x| == 2 ==> x[2..] == [];
    }
    if |x| > 2 {
      BitsNext(x[2..]);
      assert x[2..][1..] == x[3..];
      Regrouped(Bits(x[0]), Bits(x[1]), Bits(x[2]), BitsOf(x[3..]));
    }
  }

  /** The characters of up to three bytes. */
  function FewChars(x: seq<Byte>): string {
    if |x| == 0 then ""
    else if |x| == 1 then [CharOf(Sextet0(x[0])) as char] + [CharOf(Sextet1(x[0], 0)) as char]
    else if |x| == 2 then
      [CharOf(Sextet0(x[0])) as char] + ([CharOf(Sextet1(x[0], x[1])) as char] +
        [CharOf(Sextet2(x[1], 0)) as char])
    else
      [CharOf(Sextet0(x[0])) as char] + ([CharOf(Sextet1(x[0], x[1])) as char] +
        ([CharOf(Sextet2(x[1], x[2])) as char] + [CharOf(Sextet3(x[2])) as char]))
  }

  lemma EncodedFew(x: seq<Byte>)
    ensures |x| == 0 ==> Encoded(x) == []
    ensures |x| == 1 ==> Encoded(x) == [CharOf(Sextet0(x[0])), CharOf(Sextet1(x[0], 0)), PAD, PAD]
    ensures |x| == 2 ==>
              Encoded(x) == [CharOf(Sextet0(x[0])), CharOf(Sextet1(x[0], x[1])), CharOf(Sextet2(x[1], 0)), PAD]
  {
    hide CharOf, Sextet0, Sextet1, Sextet2;
  }

  lemma CharsOfFew(x: seq<Byte>)
    requires |x| < 3
    ensures ToChars(Encoded(x)) == FewChars(x) + Padding(|x|)
  {
    hide CharOf, Sextet0, Sextet1, Sextet2, Sextet3, Encoded, ToChars;
    EncodedFew(x);
    PadChar();
    if |x| == 1 {
      FourChars(CharOf(Sextet0(x[0])), CharOf(Sextet1(x[0], 0)), PAD, PAD);
      PaddedTwice([CharOf(Sextet0(x[0])) as char], [CharOf(Sextet1(x[0], 0)) as char]);
    } else if |x| == 2 {
      FourChars(CharOf(Sextet0(x[0])), CharOf(Sextet1(x[0], x[1])), CharOf(Sextet2(x[1], 0)), PAD);
      PaddedOnce([CharOf(Sextet0(x[0])) as char], [CharOf(Sextet1(x[0], x[1])) as char],
                 [CharOf(Sextet2(x[1], 0)) as char]);
    }
  }

  lemma PaddedTwice(a: string, b: string)
    ensures a + (b + (['='] + ['='])) == (a + b) + "=="
  {
  }

  lemma PaddedOnce(a: string, b: string, c: string)
    ensures a + (b + (c + ['='])) == (a + (b + c)) + "="
  {
  }

  lemma PadChar()
    ensures PAD as char == '=' && ToChars([]) == ""
  {
  }

  lemma EncodedNext(x: seq<Byte>)
    requires |x| >= 3
    ensures Encoded(x) ==
            [CharOf(Sextet0(x[0])), CharOf(Sextet1(x[0], x[1])), CharOf(Sextet2(x[1], x[2])), CharOf(Sextet3(x[2]))]
            + Encoded(x[3..])
  {
    hide CharOf, Sextet0, Sextet1, Sextet2, Sextet3;
  }

  lemma FourChars(a: Byte, b: Byte, c: Byte, d: Byte)
    ensures ToChars([a, b, c, d]) == [a as char] + ([b as char] + ([c as char] + [d as char]))
  {
  }

  lemma FourThen(a: string, b: string, c: string, d: string, e: string)
    ensures a + (b + (c + (d + e))) == a + (b + (c + d)) + e
  {
  }

  lemma CharsOfThree(x: seq<Byte>)
    requires |x| >= 3
    ensures ToChars(Encoded(x)) == FewChars(x) + ToChars(Encoded(x[3..]))
  {
    hide CharOf, Sextet0, Sextet1, Sextet2, Sextet3, Encoded, ToChars;
    var a, b, c, d := CharOf(Sextet0(x[0])), CharOf(Sextet1(x[0], x[1])), CharOf(Sextet2(x[1], x[2])),
        CharOf(Sextet3(x[2]));
    EncodedNext(x);
    CharsJoined([a, b, c, d], Encoded(x[3..]));
    FourChars(a, b, c, d);
  }

  /**
   The encoding is the alphabet's character for every six bits of the input, with zeros behind its last bit, filled
   up to fours with padding.
   */
  lemma {:induction false} EncodedIsSpelled(x: seq<Byte>)
    ensures ToChars(Encoded(x)) == Spelled(BitsOf(x)) + Padding(|x|)
    decreases |x|
  {
    hide CharOf, Sextet0, Sextet1, Sextet2, Sextet3, Spelled, Bits, BitsOf, ALPHABET, Encoded, ToChars;
    BitsOfFew(x);
    if |x| < 3 {
      CharsOfFew(x);
      if |x| == 0 {
        NothingSpelled();
        NoBits();
      } else if |x| == 1 {
        OneSpelled(x[0]);
      } else {
        TwoSpelled(x[0], x[1]);
      }
    } else {
      EncodedIsSpelled(x[3..]);
      CharsOfThree(x);
      ThreeSpelled(x[0], x[1], x[2], BitsOf(x[3..]));
      FewThen(x, Spelled(BitsOf(x[3..])));
      assert FewChars(x) + (Spelled(BitsOf(x[3..])) + Padding(|x|)) ==
             FewChars(x) + Spelled(BitsOf(x[3..])) + Padding(|x|);
    }
  }

  lemma FewThen(x: seq<Byte>, rest: string)
    requires |x| >= 3
    ensures [CharOf(Sextet0(x[0])) as char] + ([CharOf(Sextet1(x[0], x[1])) as char] +
              ([CharOf(Sextet2(x[1], x[2])) as char] + ([CharOf(Sextet3(x[2])) as char] + rest))) ==
            FewChars(x) + rest
  {
    hide CharOf, Sextet0, Sextet1, Sextet2, Sextet3;
    FourThen([CharOf(Sextet0(x[0])) as char], [CharOf(Sextet1(x[0], x[1])) as char],
             [CharOf(Sextet2(x[1], x[2])) as char], [CharOf(Sextet3(x[2])) as char], rest);
  }
}
