/**
 The JSON Pointer object: Parse, which decodes names into a buffer no longer than the source, and Stringify.
 */
module PointerParser {
  import opened Ascii
  import opened Utf8
  import opened PointerTree
  import opened PointerIndex
  import opened PointerText

  // ---- The percent-decoding stream --------------------------------------------------------------

  class PercentDecodeStream {
    const source: Text
    var src: nat
    var valid: bool

    constructor (t: Text, head: nat)
      requires head <= |t|
      ensures source == t && src == head && valid
    {
      source, src, valid := t, head, true;
    }

    method Take() returns (c: Byte)
      requires src <= |source|
      modifies this
      ensures src <= |source|
      ensures if old(valid) && IsTriplet(old(source[src..]))
              then valid && c == TripletValue(old(source[src..])) && src == old(src) + 3
              else !valid && (old(valid) ==> c == 0)
    {
      hide HexValue, IsHex, TripletValue, Appended;
      ghost var t := source[src..];
      TripletIsAppended(t);
      // at the end of the source, whatever byte lies behind it
      var first: Byte := *;
      if src < |source| {
        first := source[src];
      }
      if first != PERCENT || src + 3 > |source| {
        valid := false;
        return 0;
      }
      src := src + 1;
      c := 0;
      for j := 0 to 2
        invariant src == old(src) + 1 + j && src + 2 - j <= |source|
        invariant valid == old(valid)
        invariant j == 0 ==> c == 0
        invariant j >= 1 ==> IsHex(t[1]) && (j == 1 ==> c == HexValue(t[1]))
        invariant j == 2 ==> IsHex(t[2]) && c == Appended(HexValue(t[1]), t[2])
      {
        assert source[src] == t[1 + j];
        var isHex;
        isHex, c := AddHexDigit(c, source[src]);
        if !isHex {
          valid := false;
          return 0;
        }
        src := src + 1;
      }
    }
  }

  /** One more hexadecimal digit. */
  function Appended(high: Byte, h: Byte): Byte {
    (high << 4) + HexValue(h)
  }

  lemma TripletIsAppended(t: Text)
    ensures |t| >= 3 ==> Appended(0, t[1]) == HexValue(t[1])
    ensures IsTriplet(t) ==> Appended(HexValue(t[1]), t[2]) == TripletValue(t)
  {
  }

  /** The three branches of the loop of Take. */
  method AddHexDigit(high: Byte, h: Byte) returns (ok: bool, c: Byte)
    ensures ok == IsHex(h) && (ok ==> c == Appended(high, h))
  {
    ok, c := true, high << 4;
    if Digit(h) {
      c := c + (h - ZERO);
    } else if 0x41 <= h <= 0x46 {
      c := c + (h - 0x37);
    } else if 0x61 <= h <= 0x66 {
      c := c + (h - 0x57);
    } else {
      ok := false;
    }
  }

  lemma {:induction false} TripletNumber(t: Text, k: nat)
    requires k <= |Triplets(t)|
    ensures 3 * k <= |t|
    ensures IsTriplet(t[3 * k..]) <==> k < |Triplets(t)|
    ensures k < |Triplets(t)| ==> TripletValue(t[3 * k..]) == Triplets(t)[k]
    decreases k
  {
    hide TripletValue, IsHex;
    if k > 0 {
      TripletNumber(t[3..], k - 1);
      assert t[3..][3 * (k - 1)..] == t[3 * k..];
    }
  }

  /** What one character of the fragment decodes to, if it is UTF-8. */
  predicate Decodes(s: seq<Byte>) {
    s != [] && Decoded(s, 0).ok && 0 < Decoded(s, 0).next <= |s|
  }

  /**
   Validate from a percent-decoding stream into the name buffer. Bytes are put there whether or not the
   sequence turns out to be right, and still there is room for them.
   */
  method DecodePercents(source: Text, i: nat, buffer: array<Byte>, name: nat) returns (ok: bool, len: nat)
    requires i < |source| == buffer.Length && name + 2 <= i
    modifies buffer
    ensures buffer[..name] == old(buffer[..name])
    ensures var s := Triplets(source[i..]);
            && ok == Decodes(s)
            && (ok ==> len == Decoded(s, 0).next && name + len <= buffer.Length && buffer[name..name + len] == s[..len])
  {
    hide IsTriplet, TripletValue, Triplets, Decoded, Rest, GetRange, InRange, Lead, Shifted, Masks;
    ghost var t := source[i..];
    ghost var s := Triplets(t);
    assert t[3 * 0..] == t;
    TripletNumber(t, 0);
    var stream := new PercentDecodeStream(source, i);
    var c := stream.Take();
    buffer[name] := c;
    len := 1;
    MasksAreFew(c);
    if c <= 0x7F {
      ok := stream.valid;
      AsciiAlone(s, c, ok);
      return;
    }
    var masks := Masks(GetRange(c));
    NoMasks(s, c);
    assert stream.valid;
    if masks == [] {
      return false, 1;
    }
    var result := true;
    ghost var codepoint := Lead(c);
    var k := 0;
    while k < |masks|
      invariant 0 <= k <= |masks| && len == 1 + k
      invariant stream.src <= |source| && stream.source == source
      invariant buffer[..name] == old(buffer[..name])
      invariant stream.valid ==> len <= |s| && stream.src == i + 3 * len && buffer[name..name + len] == s[..len]
      invariant stream.valid ==> Decoded(s, 0) == Rest(s, Decoding(result, codepoint, len), masks[k..])
      invariant !stream.valid ==> !Decodes(s)
    {
      ghost var rest := masks[k..];
      if stream.valid {
        TripletNumber(t, len);
        assert source[stream.src..] == t[3 * len..];
        RestNext(s, Decoding(result, codepoint, len), rest);
        RestStep(s, Decoding(result, codepoint, len), rest);
        assert rest[1..] == masks[k + 1..];
      }
      c := stream.Take();
      buffer[name + len] := c;
      codepoint := Shifted(codepoint, c);
      result := result && InRange(c, masks[k]);
      len := len + 1;
      k := k + 1;
    }
    ok := result && stream.valid;
    if stream.valid {
      RestDone(s, Decoding(result, codepoint, len));
    }
  }

  lemma AsciiAlone(s: seq<Byte>, c: Byte, valid: bool)
    requires c <= 0x7F && (if valid then s != [] && s[0] == c else s == [])
    ensures Decodes(s) == valid
    ensures valid ==> Decoded(s, 0).next == 1
  {
  }

  lemma NoMasks(s: seq<Byte>, c: Byte)
    requires c > 0x7F && s != [] && s[0] == c
    ensures Masks(GetRange(c)) == [] ==> !Decodes(s)
    ensures Decoded(s, 0) == Rest(s, Decoding(Masks(GetRange(c)) != [], Lead(c), 1), Masks(GetRange(c)))
  {
  }

  // ---- Parse ------------------------------------------------------------------------------------

  datatype Error = NoError | Error(code: ParseError)

  /** One turn of the loop over a name: its bytes go to the buffer. */
  method ReadPiece(source: Text, start: nat, uri: bool, buffer: array<Byte>, at: nat)
    returns (error: Error, i: nat, name: nat, digits: bool)
    requires start < |source| == buffer.Length && at + 1 <= start && (uri ==> at + 2 <= start)
    modifies buffer
    ensures buffer[..at] == old(buffer[..at])
    ensures var p := NextPiece(source[start..], uri);
            if p.BadPiece? then error == Error(p.code) && i == start + p.offset
            else (&& error == NoError && i == start + p.length && name == at + |p.bytes| <= buffer.Length
                  && buffer[at..name] == p.bytes && digits == Digits(p.bytes))
  {
    hide Decoded, Triplets;
    i, name, digits := start, at, true;
    ghost var t := source[start..];
    var c := source[i];
    if uri {
      if c == PERCENT {
        var ok, len := DecodePercents(source, i, buffer, name);
        if !ok {
          return Error(InvalidPercentEncoding), i, name, digits;
        }
        i := i + (3 * len - 1);
        ManyAreNoDigits(Triplets(t));
        assert Triplets(t)[..1] == [Triplets(t)[0]];
        if len == 1 {
          c := buffer[name];
          assert c == buffer[name..name + len][0];
        } else {
          name, i := name + len, i + 1;
          return NoError, i, name, false;
        }
      } else if !Unreserved(c) {
        return Error(CharacterMustPercentEncode), i, name, digits;
      }
    }
    i := i + 1;
    if c == TILDE {
      if i == |source| {
        return Error(InvalidEscape), i, name, digits;
      }
      assert source[i] == t[i - start];
      c := source[i];
      if c == ZERO {
        c := TILDE;
      } else if c == ONE {
        c := SLASH;
      } else {
        return Error(InvalidEscape), i, name, digits;
      }
      i := i + 1;
    }
    digits := Digit(c);
    buffer[name] := c;
    name := name + 1;
    error := NoError;
    assert buffer[at..name] == [c];
  }

  lemma ManyAreNoDigits(s: seq<Byte>)
    requires Decodes(s)
    ensures Decoded(s, 0).next > 1 ==> !Digits(s[..Decoded(s, 0).next])
  {
    hide Rest;
    if Digit(s[0]) {
      AsciiDecoded(s);
    }
  }

  /** What has been read of a name, and what is still to come, make up the whole. */
  predicate Continues(whole: Piece, read: seq<Byte>, n: nat, rest: Piece) {
    if rest.BadPiece? then whole == BadPiece(rest.code, n + rest.offset)
    else whole == Piece(read + rest.bytes, n + rest.length)
  }

  lemma ContinuesPiece(whole: Piece, read: seq<Byte>, n: nat, t: Text, uri: bool)
    requires Continues(whole, read, n, NamePiece(t, uri)) && !AtEnd(t)
    ensures var p := NextPiece(t, uri);
            if p.BadPiece? then whole == BadPiece(p.code, n + p.offset)
            else Continues(whole, read + p.bytes, n + p.length, NamePiece(t[p.length..], uri))
  {
    hide NextPiece;
    var p := NextPiece(t, uri);
    if p.Piece? && NamePiece(t[p.length..], uri).Piece? {
      Regroup(read, p.bytes, NamePiece(t[p.length..], uri).bytes);
    }
  }

  /** The loop over a name. */
  method ReadName(source: Text, start: nat, uri: bool, buffer: array<Byte>, at: nat)
    returns (error: Error, i: nat, name: nat, isNumber: bool)
    requires start <= |source| == buffer.Length && at + 1 <= start && (uri ==> at + 2 <= start)
    modifies buffer
    ensures buffer[..at] == old(buffer[..at])
    ensures var p := NamePiece(source[start..], uri);
            if p.BadPiece? then error == Error(p.code) && i == start + p.offset
            else (&& error == NoError && i == start + p.length && name == at + |p.bytes| < i
                  && buffer[at..name] == p.bytes && isNumber == Digits(p.bytes))
  {
    hide NamePiece, NextPiece, Continues, Digits;
    ghost var whole := NamePiece(source[start..], uri);
    i, name, isNumber := start, at, true;
    ContinuesFrom(whole);
    assert buffer[at..name] == [];
    NoDigitsAtAll();
    while i < |source| && source[i] != SLASH
      invariant at <= name && name + 1 <= i <= |source| && (uri ==> name + 2 <= i) && start <= i
      invariant buffer[..at] == old(buffer[..at])
      invariant Continues(whole, buffer[at..name], i - start, NamePiece(source[i..], uri))
      invariant isNumber == Digits(buffer[at..name])
    {
      ghost var t, read, front := source[i..], buffer[at..name], buffer[..name];
      ContinuesPiece(whole, read, i - start, t, uri);
      var digits: bool;
      ghost var i0 := i;
      error, i, name, digits := ReadPiece(source, i, uri, buffer, name);
      if error != NoError {
        return error, i, name, isNumber;
      }
      ghost var p := NextPiece(t, uri);
      Grown(buffer[..], front, at, p.bytes);
      assert t[p.length..] == source[i..];
      DigitsJoin(read, p.bytes);
      isNumber := isNumber && digits;
    }
    error := NoError;
    ContinuesNothing(whole, buffer[at..name], i - start, source[i..], uri);
  }

  lemma Grown(now: seq<Byte>, front: seq<Byte>, at: nat, bytes: seq<Byte>)
    requires at <= |front| && |front| + |bytes| <= |now|
    requires now[..|front|] == front && now[|front|..|front| + |bytes|] == bytes
    ensures now[..at] == front[..at] && now[at..|front| + |bytes|] == front[at..] + bytes
  {
  }

  lemma NoDigitsAtAll()
    ensures Digits([])
  {
  }

  lemma DigitsJoin(a: seq<Byte>, b: seq<Byte>)
    ensures Digits(a + b) <==> Digits(a) && Digits(b)
  {
    if Digits(a + b) {
      assert forall k :: 0 <= k < |a| ==> a[k] == (a + b)[k];
      assert forall k :: 0 <= k < |b| ==> b[k] == (a + b)[|a| + k];
    }
  }

  lemma ContinuesFrom(whole: Piece)
    ensures Continues(whole, [], 0, whole)
  {
    assert whole.Piece? ==> [] + whole.bytes == whole.bytes;
  }

  lemma ContinuesNothing(whole: Piece, read: seq<Byte>, n: nat, t: Text, uri: bool)
    requires Continues(whole, read, n, NamePiece(t, uri)) && AtEnd(t)
    ensures whole == Piece(read, n)
  {
    assert read + [] == read;
  }

  /** Whether the name is a numeral, and what index it stands for. */
  method ConvertIndex(name: Name, ghost whole: Name, digits: bool) returns (index: nat)
    requires digits == Digits(whole) && name == whole[..|whole| % WIDTH]
    ensures index == if Digits(whole) then IndexOf(name) else INVALID_INDEX
  {
    assert Digits(whole) ==> Digits(name);
    var isNumber := digits;
    if |name| == 0 {
      isNumber := false;
    }
    if isNumber && |name| > 1 && name[0] == ZERO {
      isNumber := false;
    }
    if !isNumber {
      return INVALID_INDEX;
    }
    var n := 0;
    for j := 0 to |name|
      invariant n < WIDTH && Converted(name, 0, 0) == Converted(name, j, n)
    {
      var m := (n * 10 + DigitValue(name[j])) % WIDTH;
      if m < n {
        return INVALID_INDEX;
      }
      n := m;
    }
    return n;
  }

  // ---- Stringify --------------------------------------------------------------------------------

  lemma PercentsJoin(a: seq<Byte>, b: Byte)
    ensures Percents(a + [b]) == Percents(a) + Percent(b)
  {
    if a == [] {
      assert [b][1..] == [] && [] + [b] == [b];
    } else {
      PercentsJoin(a[1..], b);
      assert (a + [b])[1..] == a[1..] + [b];
      Regroup(Percent(a[0]), Percents(a[1..]), Percent(b));
    }
  }

  lemma NoPercents()
    ensures Percents([]) == []
  {
  }

  /** The percent-encoding stream: three characters for each byte. */
  method PutPercents(os: OutputStream, bytes: seq<Byte>)
    modifies os
    ensures os.bytes == old(os.bytes) + Percents(bytes)
  {
    hide HexDigit, Percents;
    NoPercents();
    assert bytes[..0] == [];
    for k := 0 to |bytes|
      invariant os.bytes == old(os.bytes) + Percents(bytes[..k])
    {
      var b := bytes[k];
      ghost var now := os.bytes;
      PercentsJoin(bytes[..k], b);
      assert bytes[..k + 1] == bytes[..k] + [b];
      os.Put(PERCENT);
      os.Put(HexDigit(b >> 4));
      os.Put(HexDigit(b & 15));
      assert os.bytes == now + Percent(b);
      Regroup(old(os.bytes), Percents(bytes[..k]), Percent(b));
    }
    assert bytes[..|bytes|] == bytes;
  }

  /** What has been written, and what is still to come, make up the whole. */
  predicate Writes(whole: Written, out: Text, rest: Written) {
    if rest.NotUtf8? then whole.NotUtf8? else whole == Written(out + rest.text)
  }

  lemma WritesPiece(whole: Written, out: Text, name: Name, uri: bool)
    requires name != [] && Writes(whole, out, WriteName(name, uri))
    ensures var (w, n) := WritePiece(name, uri);
            if w.NotUtf8? then whole.NotUtf8? else Writes(whole, out + w.text, WriteName(name[n..], uri))
  {
    hide WritePiece;
    var (w, n) := WritePiece(name, uri);
    if w.Written? && WriteName(name[n..], uri).Written? {
      Regroup(out, w.text, WriteName(name[n..], uri).text);
    }
  }

  lemma WritesNothing(whole: Written, out: Text)
    ensures Writes(whole, [], whole)
    ensures Writes(whole, out, Written([])) ==> whole == Written(out)
  {
    assert out + [] == out;
    assert whole.Written? ==> [] + whole.text == whole.text;
  }

  /** The loop over a name; it ends early where the name is not UTF-8. */
  method PutName(os: OutputStream, name: Name, uri: bool) returns (ok: bool)
    modifies os
    ensures ok == WriteName(name, uri).Written?
    ensures ok ==> os.bytes == old(os.bytes) + WriteName(name, uri).text
  {
    hide Decoded, Taken, Utf8Char, Percents, Writes, WriteName;
    var j := 0;
    ghost var whole := WriteName(name, uri);
    ghost var out: Text := [];
    WritesNothing(whole, []);
    while j < |name|
      invariant 0 <= j <= |name|
      invariant os.bytes == old(os.bytes) + out
      invariant Writes(whole, out, WriteName(name[j..], uri))
    {
      ghost var n := WritePiece(name[j..], uri).1;
      ghost var piece, now := WritePieceText(name[j..], uri), os.bytes;
      WritesPiece(whole, out, name[j..], uri);
      Regroup(old(os.bytes), out, piece);
      out := out + piece;
      assert name[j..][n..] == name[j + n..];
      var c := name[j];
      if c == TILDE {
        os.Put(TILDE);
        os.Put(ZERO);
        assert os.bytes == now + [TILDE, ZERO];
        j := j + 1;
      } else if c == SLASH {
        os.Put(TILDE);
        os.Put(ONE);
        assert os.bytes == now + [TILDE, ONE];
        j := j + 1;
      } else if uri && !Unreserved(c) {
        var source := new InputStream(name[j..]);
        var target := new OutputStream();
        var valid := Validate(source, target);
        if !valid {
          return false;
        }
        DecodedTail(name[j..]);
        TakenInside(name[j..], source.pos);
        assert target.bytes == name[j..][..source.pos];
        PutPercents(os, target.bytes);
        j := j + source.pos;
      } else {
        os.Put(c);
        j := j + 1;
      }
    }
    NothingToWrite(uri);
    assert name[j..] == [];
    WritesNothing(whole, out);
    ok := true;
  }

  ghost function WritePieceText(name: Name, uri: bool): Text
    requires name != []
  {
    var w := WritePiece(name, uri).0;
    if w.Written? then w.text else []
  }

  lemma NothingToWrite(uri: bool)
    ensures WriteName([], uri) == Written([])
  {
  }

  lemma TakenInside(s: seq<Byte>, n: nat)
    requires n <= |s|
    ensures Taken(s, 0, n) == s[..n]
  {
    assert forall k :: 0 <= k < n ==> Taken(s, 0, n)[k] == ByteAt(s, k);
  }

  // ---- The object -------------------------------------------------------------------------------

  /** A token as the object keeps it: where its name is in the name buffer, and its index. */
  datatype Slot = Slot(start: nat, length: nat, index: nat)

  /** The length of a name as a token keeps it, in 32 bits. */
  function HeldLength(name: Name): (n: nat)
    ensures n <= |name|
  {
    |name| % WIDTH
  }

  /** The index of a name, from as much of it as the token keeps. */
  function HeldIndex(name: Name): nat {
    if Digits(name) then IndexOf(name[..HeldLength(name)]) else INVALID_INDEX
  }

  /** A token as it is kept: whole, if its name is shorter than 4 GiB. */
  function Held(t: Token<Byte>): Token<Byte> {
    Token(t.name[..HeldLength(t.name)], HeldIndex(t.name))
  }

  function AllHeld(ts: seq<Token<Byte>>): seq<Token<Byte>> {
    seq(|ts|, k requires 0 <= k < |ts| => Held(ts[k]))
  }

  predicate NamesFit(ts: seq<Token<Byte>>) {
    forall k :: 0 <= k < |ts| ==> |ts[k].name| < WIDTH
  }

  /** Tokens whose indices are those of their names are kept unchanged exactly if all names fit. */
  lemma HeldWhenShort(ts: seq<Token<Byte>>)
    requires forall k :: 0 <= k < |ts| ==> ts[k].index == IndexOf(ts[k].name)
    ensures AllHeld(ts) == ts <==> NamesFit(ts)
  {
    hide IndexOf, Digits;
    forall k | 0 <= k < |ts| ensures Held(ts[k]) == ts[k] <==> |ts[k].name| < WIDTH {
      HeldOne(ts[k]);
    }
    if AllHeld(ts) == ts {
      assert forall k :: 0 <= k < |ts| ==> AllHeld(ts)[k] == Held(ts[k]);
    }
  }

  lemma HeldOne(t: Token<Byte>)
    requires t.index == IndexOf(t.name)
    ensures Held(t) == t <==> |t.name| < WIDTH
  {
    hide Converted;
    if |t.name| < WIDTH {
      assert t.name[..HeldLength(t.name)] == t.name;
    } else {
      assert |Held(t).name| < |t.name|;
    }
  }

  /** The names, as far as they are kept, lie in the first `n` bytes of the buffer. */
  predicate InBuffer(slots: seq<Slot>, buffer: seq<Byte>, n: nat)
    requires n <= |buffer|
  {
    forall s <- slots :: s.start + s.length < n
  }

  /** The name of each token lies whole in the buffer, with a NUL behind it. */
  predicate NamesIn(slots: seq<Slot>, ts: seq<Token<Byte>>, buffer: seq<Byte>, n: nat) {
    && |slots| == |ts| && n <= |buffer|
    && forall k :: 0 <= k < |ts| ==> NameIn(slots[k], ts[k].name, buffer, n)
  }

  predicate NameIn(s: Slot, name: Name, buffer: seq<Byte>, n: nat) {
    s.start + |name| < n <= |buffer| && buffer[s.start..s.start + |name|] == name && buffer[s.start + |name|] == 0
  }

  lemma NamesKept(slots: seq<Slot>, ts: seq<Token<Byte>>, before: seq<Byte>, n: nat, after: seq<Byte>, m: nat)
    requires n <= |before| == |after| && n <= m <= |after| && before[..n] == after[..n] && NamesIn(slots, ts, before, n)
    ensures NamesIn(slots, ts, after, m)
  {
    forall k | 0 <= k < |ts| ensures NameIn(slots[k], ts[k].name, after, m) {
      var s, e := slots[k].start, slots[k].start + |ts[k].name|;
      assert NameIn(slots[k], ts[k].name, before, n);
      assert after[s..e] == after[..n][s..e] == before[..n][s..e] == before[s..e];
      assert after[e] == after[..n][e] == before[..n][e];
    }
  }

  function TokensIn(slots: seq<Slot>, buffer: seq<Byte>, n: nat): (ts: seq<Token<Byte>>)
    requires n <= |buffer| && InBuffer(slots, buffer, n)
    ensures |ts| == |slots|
  {
    seq(|slots|, k requires 0 <= k < |slots| =>
      assert slots[k] in slots;
      Token(buffer[slots[k].start..slots[k].start + slots[k].length], slots[k].index))
  }

  /** What is behind the first `n` bytes may change, and the buffer may be used further. */
  lemma TokensKept(slots: seq<Slot>, before: seq<Byte>, n: nat, after: seq<Byte>, m: nat)
    requires n <= |before| == |after| && n <= m <= |after| && before[..n] == after[..n] && InBuffer(slots, before, n)
    ensures InBuffer(slots, after, m) && TokensIn(slots, after, m) == TokensIn(slots, before, n)
  {
    forall k | 0 <= k < |slots| ensures TokensIn(slots, after, m)[k] == TokensIn(slots, before, n)[k] {
      var s, e := slots[k].start, slots[k].start + slots[k].length;
      assert slots[k] in slots;
      assert after[s..e] == after[..n][s..e] == before[..n][s..e] == before[s..e];
    }
  }

  lemma TokensAdd(slots: seq<Slot>, buffer: seq<Byte>, n: nat, s: Slot)
    requires n <= |buffer| && InBuffer(slots, buffer, n)
    requires s.start + s.length < n
    ensures InBuffer(slots + [s], buffer, n)
    ensures TokensIn(slots + [s], buffer, n) ==
              TokensIn(slots, buffer, n) + [Token(buffer[s.start..s.start + s.length], s.index)]
  {
  }

  /** The tokens read so far, and those still to come, make up the whole. */
  predicate Follows(whole: Parsed, ts: seq<Token<Byte>>, n: nat, rest: Parsed) {
    if rest.Failed? then whole == Failed(rest.code, n + rest.offset) else whole == Parsed(ts + rest.tokens)
  }

  lemma FollowsFrom(rest: Parsed, n: nat)
    ensures Follows(Offset(n, rest), [], n, rest)
  {
    assert rest.Parsed? ==> [] + rest.tokens == rest.tokens;
  }

  lemma FollowsToken(whole: Parsed, ts: seq<Token<Byte>>, n: nat, t: Text, uri: bool)
    requires AtEnd(t) && t != [] && Follows(whole, ts, n, ParseTokens(t, uri))
    ensures var p := NamePiece(t[1..], uri);
            if p.BadPiece? then whole == Failed(p.code, n + 1 + p.offset)
            else
              (var rest := t[1 + p.length..];
               AtEnd(rest) && Follows(whole, ts + [Token(p.bytes, IndexOf(p.bytes))], n + 1 + p.length,
                                      ParseTokens(rest, uri)))
  {
    hide NamePiece, IndexOf;
    var p := NamePiece(t[1..], uri);
    if p.Piece? {
      var rest := t[1 + p.length..];
      assert rest == t[1..][p.length..];
      if ParseTokens(rest, uri).Parsed? {
        var token := Token(p.bytes, IndexOf(p.bytes));
        assert ts + ([token] + ParseTokens(rest, uri).tokens) == ts + [token] + ParseTokens(rest, uri).tokens;
      }
    }
  }

  lemma FollowsNothing(whole: Parsed, ts: seq<Token<Byte>>, n: nat, uri: bool)
    requires Follows(whole, ts, n, ParseTokens([], uri))
    ensures whole == Parsed(ts)
  {
    assert ts + [] == ts;
  }

  /** The index of each token is that of its name. */
  predicate IndicesAre(ts: seq<Token<Byte>>) {
    forall k :: 0 <= k < |ts| ==> ts[k].index == IndexOf(ts[k].name)
  }

  lemma NoTokensHeld(buffer: seq<Byte>)
    ensures AllHeld([]) == [] && NamesIn([], [], buffer, 0) && IndicesAre([])
  {
  }

  /** One more token, as it is kept. */
  lemma TokenHeld(slots: seq<Slot>, ts: seq<Token<Byte>>, buffer: seq<Byte>, n: nat, s: Slot, t: Token<Byte>)
    requires NamesIn(slots, ts, buffer, n) && IndicesAre(ts) && t.index == IndexOf(t.name)
    requires NameIn(s, t.name, buffer, n) && s.length == HeldLength(t.name) && s.index == HeldIndex(t.name)
    ensures NamesIn(slots + [s], ts + [t], buffer, n) && IndicesAre(ts + [t])
    ensures AllHeld(ts) + [Token(buffer[s.start..s.start + s.length], s.index)] == AllHeld(ts + [t])
  {
    hide IndexOf, HeldLength, HeldIndex;
    assert buffer[s.start..s.start + |t.name|][..s.length] == buffer[s.start..s.start + s.length];
  }

  /** One turn of the loop over the tokens: the name, a NUL behind it, and the index. */
  method ReadToken(source: Text, start: nat, uri: bool, buffer: array<Byte>, at: nat)
    returns (error: Error, i: nat, name: nat, slot: Slot)
    requires start < |source| == buffer.Length && source[start] == SLASH && at <= start && (uri ==> at + 1 <= start)
    modifies buffer
    ensures buffer[..at] == old(buffer[..at])
    ensures var p := NamePiece(source[start + 1..], uri);
            if p.BadPiece? then error == Error(p.code) && i == start + 1 + p.offset
            else (&& error == NoError && i == start + 1 + p.length && name <= i && (uri ==> name + 1 <= i)
                  && slot == Slot(at, HeldLength(p.bytes), HeldIndex(p.bytes))
                  && name == at + |p.bytes| + 1 <= buffer.Length
                  && buffer[at..at + |p.bytes|] == p.bytes && buffer[at + |p.bytes|] == 0)
  {
    hide NamePiece, IndexOf, Digits;
    var isNumber: bool;
    i := start + 1;
    slot := Slot(at, 0, INVALID_INDEX);
    error, i, name, isNumber := ReadName(source, i, uri, buffer, at);
    if error != NoError {
      return error, i, name, slot;
    }
    var length := (name - at) % WIDTH;
    assert buffer[at..name][..length] == buffer[at..at + length];
    var index := ConvertIndex(buffer[at..at + length], buffer[at..name], isNumber);
    slot := Slot(at, length, index);
    ghost var before := buffer[..];
    buffer[name] := 0;
    assert buffer[..at] == before[..at] && buffer[at..name] == before[at..name];
    name := name + 1;
  }

  lemma WritesToken(whole: Written, out: Text, ts: seq<Token<Byte>>, uri: bool)
    requires ts != [] && Writes(whole, out, WriteTokens(ts, uri))
    ensures var w := WriteName(ts[0].name, uri);
            if w.NotUtf8? then whole.NotUtf8? else Writes(whole, out + [SLASH] + w.text, WriteTokens(ts[1..], uri))
  {
    hide WriteName;
    var w, rest := WriteName(ts[0].name, uri), WriteTokens(ts[1..], uri);
    if w.Written? && rest.Written? {
      Regroup(out + [SLASH], w.text, rest.text);
      Regroup(out, [SLASH], w.text + rest.text);
    }
  }

  lemma NoTokensToWrite(uri: bool)
    ensures WriteTokens([], uri) == Written([])
  {
  }

  class Pointer {
    var nameBuffer: array<Byte>
    var tokens: seq<Slot>
    var error: Error
    var errorOffset: nat

    ghost predicate Valid()
      reads this, nameBuffer
    {
      InBuffer(tokens, nameBuffer[..], nameBuffer.Length)
    }

    ghost function Tokens(): seq<Token<Byte>>
      reads this, nameBuffer
      requires Valid()
    {
      TokensIn(tokens, nameBuffer[..], nameBuffer.Length)
    }

    /** Parse, into a name buffer as long as the source. */
    constructor (source: Text)
      ensures Valid() && fresh(nameBuffer) && nameBuffer.Length == |source|
      ensures var r := PointerText.Parse(source);
              if r.Failed? then error == Error(r.code) && errorOffset == r.offset && tokens == []
              else (&& error == NoError && NamesIn(tokens, r.tokens, nameBuffer[..], nameBuffer.Length)
                    && Tokens() == AllHeld(r.tokens) && (Tokens() == r.tokens <==> NamesFit(r.tokens)))
    {
      hide InBuffer, TokensIn, NamePiece, ParseTokens, Follows, NamesIn, AllHeld, NamesFit, IndexOf;
      var buffer := new Byte[|source|](_ => 0);
      nameBuffer, tokens, error, errorOffset := buffer, [], NoError, 0;
      new;
      var name: nat, i: nat := 0, 0;
      var uri := false;
      NoSlots(nameBuffer[..]);
      NoTokensHeld(nameBuffer[..]);
      if source != [] && source[0] == HASH {
        uri := true;
        i := 1;
      }
      if i != |source| && source[i] != SLASH {
        error, errorOffset := Error(TokenMustBeginWithSolidus), i;
        return;
      }
      ghost var whole := PointerText.Parse(source);
      ghost var ts: seq<Token<Byte>> := [];
      FollowsFrom(ParseTokens(source[i..], uri), i);
      while i < |source|
        invariant i <= |source| == buffer.Length && name <= i && (uri ==> name + 1 <= i) && AtEnd(source[i..])
        invariant fresh(buffer) && nameBuffer == buffer && error == NoError
        invariant InBuffer(tokens, buffer[..], name) && TokensIn(tokens, buffer[..], name) == AllHeld(ts)
        invariant NamesIn(tokens, ts, buffer[..], name) && IndicesAre(ts)
        invariant Follows(whole, ts, i, ParseTokens(source[i..], uri))
      {
        var e: Error;
        e, i, name, ts := AddToken(source, i, uri, name, whole, ts);
        if e != NoError {
          tokens, error, errorOffset := [], e, i;
          NoSlots(nameBuffer[..]);
          return;
        }
      }
      assert source[i..] == [];
      FollowsNothing(whole, ts, i, uri);
      TokensKept(tokens, buffer[..], name, buffer[..], buffer.Length);
      NamesKept(tokens, ts, buffer[..], name, buffer[..], buffer.Length);
      HeldWhenShort(ts);
    }

    /** One token of Parse, with its name and its slot. */
    method AddToken(source: Text, start: nat, uri: bool, at: nat, ghost whole: Parsed, ghost ts0: seq<Token<Byte>>)
      returns (e: Error, i: nat, name: nat, ghost ts: seq<Token<Byte>>)
      requires start < |source| == nameBuffer.Length && at <= start && (uri ==> at + 1 <= start)
      requires AtEnd(source[start..])
      requires InBuffer(tokens, nameBuffer[..], at) && TokensIn(tokens, nameBuffer[..], at) == AllHeld(ts0)
      requires NamesIn(tokens, ts0, nameBuffer[..], at) && IndicesAre(ts0)
      requires Follows(whole, ts0, start, ParseTokens(source[start..], uri))
      modifies this`tokens, nameBuffer
      ensures e != NoError ==> whole == Failed(e.code, i)
      ensures e == NoError ==>
                && start < i <= |source| && name <= i && (uri ==> name + 1 <= i) && AtEnd(source[i..])
                && InBuffer(tokens, nameBuffer[..], name) && TokensIn(tokens, nameBuffer[..], name) == AllHeld(ts)
                && NamesIn(tokens, ts, nameBuffer[..], name) && IndicesAre(ts)
                && Follows(whole, ts, i, ParseTokens(source[i..], uri))
    {
      hide InBuffer, TokensIn, NamePiece, ParseTokens, Follows, NamesIn, AllHeld, IndexOf, HeldLength, HeldIndex;
      FollowsToken(whole, ts0, start, source[start..], uri);
      ghost var before, p := nameBuffer[..], NamePiece(source[start + 1..], uri);
      assert source[start..][1..] == source[start + 1..];
      var slot: Slot;
      ts := ts0;
      e, i, name, slot := ReadToken(source, start, uri, nameBuffer, at);
      if e != NoError {
        return;
      }
      TokensKept(tokens, before, at, nameBuffer[..], name);
      NamesKept(tokens, ts0, before, at, nameBuffer[..], name);
      TokensAdd(tokens, nameBuffer[..], name, slot);
      var token := Token(p.bytes, IndexOf(p.bytes));
      TokenHeld(tokens, ts0, nameBuffer[..], name, slot, token);
      tokens := tokens + [slot];
      ts := ts0 + [token];
    }

    /** Stringify, and StringifyUriFragment. */
    method Stringify(os: OutputStream, uri: bool) returns (ok: bool)
      requires Valid() && error == NoError
      modifies os
      ensures var w := PointerText.Stringify(Tokens(), uri);
              ok == w.Written? && (ok ==> os.bytes == old(os.bytes) + w.text)
    {
      hide InBuffer, TokensIn, WriteTokens, WriteName, Writes;
      ghost var ts := Tokens();
      ghost var whole := WriteTokens(ts, uri);
      ghost var out: Text := [];
      ghost var start := os.bytes;
      WritesNothing(whole, []);
      if uri {
        os.Put(HASH);
        start := start + [HASH];
      }
      var k := 0;
      while k < |tokens|
        invariant 0 <= k <= |tokens| == |ts| && Valid() && ts == Tokens()
        invariant os.bytes == start + out
        invariant Writes(whole, out, WriteTokens(ts[k..], uri))
      {
        TokenAt(tokens, nameBuffer[..], k);
        WritesToken(whole, out, ts[k..], uri);
        os.Put(SLASH);
        var s := tokens[k];
        ok := PutName(os, nameBuffer[s.start..s.start + s.length], uri);
        if !ok {
          return;
        }
        ghost var w := WriteName(ts[k].name, uri).text;
        Regroup(start, out, [SLASH]);
        Regroup(start, out + [SLASH], w);
        out := out + [SLASH] + w;
        k := k + 1;
      }
      NoTokensToWrite(uri);
      WritesNothing(whole, out);
      ok := true;
    }
  }

  lemma TokenAt(slots: seq<Slot>, buffer: seq<Byte>, k: nat)
    requires k < |slots| && InBuffer(slots, buffer, |buffer|)
    ensures slots[k].start + slots[k].length <= |buffer| && |TokensIn(slots, buffer, |buffer|)| == |slots|
    ensures TokensIn(slots, buffer, |buffer|)[k].name == buffer[slots[k].start..slots[k].start + slots[k].length]
  {
    assert slots[k] in slots;
  }

  lemma NoSlots(buffer: seq<Byte>)
    ensures forall n: nat {:trigger InBuffer([], buffer, n)} :: n <= |buffer| ==>
              InBuffer([], buffer, n) && TokensIn([], buffer, n) == []
  {
    forall n: nat {:trigger InBuffer([], buffer, n)} | n <= |buffer|
      ensures InBuffer([], buffer, n) && TokensIn([], buffer, n) == []
    {
      assert |TokensIn([], buffer, n)| == 0;
    }
  }
}
