/**
 The string parser over buffers: the text is read from one array, and the string is written to another or, in situ,
 to the same array behind the read position.
 */
module InsituString {
  import opened Ascii
  import opened Utf8
  import opened JsonString

  /** The read cursor of a stream. */
  class Source {
    const buffer: array<Byte>
    var src: nat

    constructor (buffer: array<Byte>, src: nat)
      ensures this.buffer == buffer && this.src == src
    {
      this.buffer, this.src := buffer, src;
    }

    method Take() returns (c: Byte)
      requires src < buffer.Length
      modifies this
      ensures c == buffer[old(src)] && src == old(src) + 1
    {
      c := buffer[src];
      src := src + 1;
    }

    method Consume(wanted: Byte) returns (ok: bool)
      requires src < buffer.Length
      modifies this
      ensures ok == (buffer[old(src)] == wanted) && src == if ok then old(src) + 1 else old(src)
    {
      ok := buffer[src] == wanted;
      if ok {
        src := src + 1;
      }
    }
  }

  /** The write cursor of a stream. */
  class Target {
    const buffer: array<Byte>
    var dst: nat

    constructor (buffer: array<Byte>, dst: nat)
      ensures this.buffer == buffer && this.dst == dst
    {
      this.buffer, this.dst := buffer, dst;
    }

    method Put(c: Byte)
      requires dst < buffer.Length
      modifies this, buffer
      ensures dst == old(dst) + 1
      ensures buffer[..] == Overwritten(old(buffer[..]), old(dst), [c])
    {
      buffer[dst] := c;
      dst := dst + 1;
    }
  }

  function Overwritten(b: seq<Byte>, at: nat, s: seq<Byte>): (r: seq<Byte>)
    requires at + |s| <= |b|
    ensures |r| == |b|
  {
    b[..at] + s + b[at + |s|..]
  }

  lemma OverwrittenTwice(b: seq<Byte>, at: nat, s: seq<Byte>, s': seq<Byte>)
    requires at + |s| + |s'| <= |b|
    ensures Overwritten(Overwritten(b, at, s), at + |s|, s') == Overwritten(b, at, s + s')
  {
  }

  /**
   The write cursor has not passed the read cursor, if they are on the same array; otherwise there is room for as
   much as is left to read.
   */
  predicate Room(input: Source, output: Target)
    reads input, output
  {
    && input.src <= input.buffer.Length
    && if input.buffer == output.buffer then output.dst <= input.src
       else output.dst + (input.buffer.Length - input.src) <= output.buffer.Length
  }

  /** Encode, into a target with room for all of it. */
  method PutEncoded(output: Target, cp: bv32)
    requires cp <= LAST && output.dst + |Encoded(cp)| <= output.buffer.Length
    modifies output, output.buffer
    ensures output.dst == old(output.dst) + |Encoded(cp)|
    ensures output.buffer[..] == Overwritten(old(output.buffer[..]), old(output.dst), Encoded(cp))
  {
    hide LowByte;
    ghost var b, at := output.buffer[..], output.dst;
    var e: seq<Byte>;
    if cp <= 0x7F {
      e := [LowByte(cp)];
    } else if cp <= 0x7FF {
      e := [LowByte(0xC0 | ((cp >> 6) & 0xFF)), LowByte(0x80 | (cp & 0x3F))];
    } else if cp <= 0xFFFF {
      e := [LowByte(0xE0 | ((cp >> 12) & 0xFF)), LowByte(0x80 | ((cp >> 6) & 0x3F)), LowByte(0x80 | (cp & 0x3F))];
    } else {
      e := [LowByte(0xF0 | ((cp >> 18) & 0xFF)), LowByte(0x80 | ((cp >> 12) & 0x3F)),
            LowByte(0x80 | ((cp >> 6) & 0x3F)), LowByte(0x80 | (cp & 0x3F))];
    }
    PutAll(output, e);
  }

  method PutAll(output: Target, s: seq<Byte>)
    requires output.dst + |s| <= output.buffer.Length
    modifies output, output.buffer
    ensures output.dst == old(output.dst) + |s|
    ensures output.buffer[..] == Overwritten(old(output.buffer[..]), old(output.dst), s)
  {
    hide Overwritten;
    ghost var b, at := output.buffer[..], output.dst;
    NothingOverwritten(b, at);
    assert s[..0] == [];
    for k := 0 to |s|
      invariant output.dst == at + k
      invariant output.buffer[..] == Overwritten(b, at, s[..k])
    {
      OverwrittenTwice(b, at, s[..k], [s[k]]);
      assert s[..k + 1] == s[..k] + [s[k]];
      output.Put(s[k]);
    }
    assert s[..|s|] == s;
  }

  lemma NothingOverwritten(b: seq<Byte>, at: nat)
    requires at <= |b|
    ensures Overwritten(b, at, []) == b
  {
  }

  // ---- The pieces of the parser -----------------------------------------------------------------

  datatype Error = NoError | Error(code: ErrorCode, offset: nat)

  /** ParseHex4; it reads the text but writes nothing. */
  method ParseHex4(input: Source, escapeOffset: nat) returns (codepoint: bv32, error: Error)
    requires exists k :: input.src <= k < input.buffer.Length && input.buffer[k] == 0
    modifies input
    ensures var t := old(input.buffer[input.src..]);
            if AreHex(t, 4) then error == NoError && codepoint == HexNumber(t, 4) && input.src == old(input.src) + 4
            else error == Error(UnicodeEscapeInvalidHex, escapeOffset)
  {
    hide WithDigit;
    ghost var t := input.buffer[input.src..];
    ghost var k :| input.src <= k < input.buffer.Length && input.buffer[k] == 0;
    codepoint := 0;
    for i := 0 to 4
      invariant input.src == old(input.src) + i <= k && AreHex(t, i) && codepoint == HexNumber(t, i)
    {
      var c := input.buffer[input.src];
      assert c == t[i];
      if !IsHex(c) {
        return 0, Error(UnicodeEscapeInvalidHex, escapeOffset);
      }
      codepoint := WithDigit(codepoint, c);
      var _ := input.Take();
    }
    error := NoError;
  }

  /** The next unit is one that Validate looks at. */
  predicate Validated(t: Text, flags: Flags) {
    flags.validate && t != [] && t[0] >= 0x20 && t[0] != BACKSLASH && t[0] != QUOTE
  }

  /**
   No lead byte that the parser comes to announces tails beyond the end of the buffer: Validate takes all
   of them before it gives its verdict, even where a NUL ends the text before.
   */
  predicate TailsFit(t: Text, flags: Flags)
    decreases |t|
  {
    var u := NextUnit(t, flags);
    && (Validated(t, flags) ==> Length(t[0]) <= |t|)
    && (u.Unit? ==> TailsFit(t[u.length..], flags))
  }

  /** A NUL ends the text, and nothing behind the end of the buffer is looked at. */
  predicate Terminated(b: seq<Byte>, src: nat, flags: Flags) {
    src <= |b| && (exists k :: src <= k < |b| && b[k] == 0) && TailsFit(b[src..], flags)
  }

  /** Take and Put of one byte, which is all of Transcode where the encodings are the same. */
  method CopyByte(input: Source, output: Target) returns (c: Byte)
    requires Room(input, output) && input.src < input.buffer.Length
    modifies input, output, output.buffer
    ensures Room(input, output) && input.src == old(input.src) + 1 && output.dst == old(output.dst) + 1
    ensures c == old(input.buffer[input.src])
    ensures output.buffer[..] == Overwritten(old(output.buffer[..]), old(output.dst), [c])
    ensures input.buffer[..][input.src..] == old(input.buffer[..][input.src + 1..])
  {
    ghost var a, b, at := input.buffer[..], output.buffer[..], output.dst;
    c := input.Take();
    output.Put(c);
    Unread(a, b, at, [c], input.src);
  }

  /** UTF8::Validate between the two cursors: each byte is read before anything is written over it. */
  method ValidateUnit(input: Source, output: Target) returns (result: bool)
    requires Room(input, output) && input.src < input.buffer.Length
    requires input.src + Length(input.buffer[input.src]) <= input.buffer.Length
    modifies input, output, output.buffer
    ensures result == Decoded(old(input.buffer[..][input.src..]), 0).ok
    ensures var t := old(input.buffer[..][input.src..]);
            var n := Decoded(t, 0).next;
            && 0 < n <= |t| && Room(input, output)
            && input.src == old(input.src) + n && output.dst == old(output.dst) + n
            && output.buffer[..] == Overwritten(old(output.buffer[..]), old(output.dst), t[..n])
  {
    hide GetRange, Masks, InRange, Lead, Shifted, Decoded, Rest, Overwritten, ByteAt;
    ghost var b, at, t := output.buffer[..], output.dst, input.buffer[..][input.src..];
    var c := CopyByte(input, output);
    assert t[..1] == [c];
    if c <= 0x7F {
      DecodedAscii(t);
      return true;
    }
    assert [c] + t[1..] == t;
    ghost var n := Decoded(t, 0).next;
    result := ValidateTails(input, output, c);
    OverwrittenTwice(b, at, t[..1], t[1..n]);
    assert t[..1] + t[1..n] == t[..n];
  }

  method ValidateTails(input: Source, output: Target, lead: Byte) returns (result: bool)
    requires Room(input, output) && input.src + |Masks(GetRange(lead))| <= input.buffer.Length && lead > 0x7F
    modifies input, output, output.buffer
    ensures result == Decoded([lead] + old(input.buffer[..][input.src..]), 0).ok
    ensures var t := [lead] + old(input.buffer[..][input.src..]);
            var n := Decoded(t, 0).next;
            && 0 < n <= |t| && Room(input, output)
            && input.src == old(input.src) + n - 1 && output.dst == old(output.dst) + n - 1
            && output.buffer[..] == Overwritten(old(output.buffer[..]), old(output.dst), t[1..n])
  {
    hide GetRange, Masks, InRange, Lead, Shifted, Decoded, Rest, Overwritten, ByteAt;
    ghost var b, at, start := output.buffer[..], output.dst, input.src;
    ghost var t := [lead] + input.buffer[..][start..];
    MasksAreFew(lead);
    var masks := Masks(GetRange(lead));
    DecodedAsRest(t, lead);
    result := masks != [];
    ghost var codepoint := Lead(lead);
    var k := 0;
    NothingOverwritten(b, at);
    assert t[1..1] == [] && t[1..] == input.buffer[..][start..];
    while k < |masks|
      invariant 0 <= k <= |masks| && input.src == start + k && output.dst == at + k && Room(input, output)
      invariant output.buffer[..] == Overwritten(b, at, t[1..k + 1])
      invariant input.buffer[..][input.src..] == t[k + 1..]
      invariant Decoded(t, 0) == Rest(t, Decoding(result, codepoint, k + 1), masks[k..])
    {
      assert masks[k..][1..] == masks[k + 1..];
      RestStep(t, Decoding(result, codepoint, k + 1), masks[k..]);
      SliceStep(input.buffer[..], input.src, t, k + 1);
      var c := CopyByte(input, output);
      OverwrittenTwice(b, at, t[1..k + 1], [c]);
      codepoint := Shifted(codepoint, c);
      result := result && InRange(c, masks[k]);
      k := k + 1;
    }
    RestDone(t, Decoding(result, codepoint, k + 1));
  }

  lemma SliceStep(b: seq<Byte>, src: nat, t: seq<Byte>, k: nat)
    requires src < |b| && 1 <= k <= |t| && b[src..] == t[k..]
    ensures k < |t| && t[1..k + 1] == t[1..k] + [b[src]] && b[src] == ByteAt(t, k) && b[src + 1..] == t[k + 1..]
  {
    assert b[src] == b[src..][0];
    assert b[src + 1..] == b[src..][1..];
  }

  /** In situ, what has not been read is still there. */
  lemma Unread(a: seq<Byte>, b: seq<Byte>, at: nat, s: seq<Byte>, src: nat)
    requires at + |s| <= |b| && src <= |a|
    ensures a == b && at + |s| <= src ==> Overwritten(b, at, s)[src..] == a[src..]
  {
  }

  lemma DecodedAscii(t: seq<Byte>)
    requires t != [] && t[0] <= 0x7F
    ensures Decoded(t, 0).ok && Decoded(t, 0).next == 1
  {
  }

  lemma DecodedAsRest(t: seq<Byte>, c: Byte)
    requires t != [] && t[0] == c > 0x7F
    ensures Decoded(t, 0) == Rest(t, Decoding(Masks(GetRange(c)) != [], Lead(c), 1), Masks(GetRange(c)))
  {
  }

  /** A \u escape behind its backslash and letter, and the one that must follow a high surrogate. */
  method ReadUnicode(input: Source, escapeOffset: nat) returns (codepoint: bv32, error: Error)
    requires input.src == escapeOffset + 2
    requires exists k :: input.src <= k < input.buffer.Length && input.buffer[k] == 0
    modifies input
    ensures var u := UnicodeUnit(input.buffer[escapeOffset..]);
            if u.BadUnit? then error == Error(u.code, escapeOffset + u.offset)
            else (&& error == NoError && u.Unit? && u.bytes == Encoded(codepoint) && codepoint <= LAST
                  && input.src == escapeOffset + u.length)
  {
    hide HexNumber, Paired, Encoded, IsHex;
    ghost var t := input.buffer[escapeOffset..];
    ghost var k :| input.src <= k < input.buffer.Length && input.buffer[k] == 0;
    assert From(t, 2) == input.buffer[input.src..];
    codepoint, error := ParseHex4(input, escapeOffset);
    if error != NoError {
      return;
    }
    HexNumberRange(From(t, 2));
    HexIsNotNul(From(t, 2), k - (escapeOffset + 2));
    if 0xD800 <= codepoint <= 0xDFFF {
      if codepoint > 0xDBFF {
        return codepoint, Error(UnicodeSurrogateInvalid, escapeOffset);
      }
      var codepoint2: bv32;
      codepoint2, error := ReadLowSurrogate(input, escapeOffset);
      if error != NoError {
        return;
      }
      PairedRange(codepoint, codepoint2);
      codepoint := Paired(codepoint, codepoint2);
    }
  }

  /** The escape of a low surrogate, behind that of a high one. */
  method ReadLowSurrogate(input: Source, escapeOffset: nat) returns (codepoint: bv32, error: Error)
    requires input.src == escapeOffset + 6
    requires exists k :: input.src <= k < input.buffer.Length && input.buffer[k] == 0
    modifies input
    ensures var t := input.buffer[escapeOffset..];
            if ByteAt(t, 6) != BACKSLASH || ByteAt(t, 7) != LETTER_U
                then error == Error(UnicodeSurrogateInvalid, escapeOffset)
            else if !AreHex(From(t, 8), 4) then error == Error(UnicodeEscapeInvalidHex, escapeOffset)
            else if !(0xDC00 <= HexNumber(From(t, 8), 4) <= 0xDFFF)
                then error == Error(UnicodeSurrogateInvalid, escapeOffset)
            else error == NoError && codepoint == HexNumber(From(t, 8), 4) && input.src == escapeOffset + 12
  {
    hide HexNumber, IsHex;
    ghost var t := input.buffer[escapeOffset..];
    assert ByteAt(t, 6) == input.buffer[input.src];
    codepoint := 0;
    var ok := input.Consume(BACKSLASH);
    if ok {
      assert ByteAt(t, 7) == input.buffer[input.src];
      ok := input.Consume(LETTER_U);
    }
    if !ok {
      return codepoint, Error(UnicodeSurrogateInvalid, escapeOffset);
    }
    assert From(t, 8) == input.buffer[input.src..];
    codepoint, error := ParseHex4(input, escapeOffset);
    if error == NoError && (codepoint < 0xDC00 || codepoint > 0xDFFF) {
      error := Error(UnicodeSurrogateInvalid, escapeOffset);
    }
  }

  lemma HexIsNotNul(t: Text, k: nat)
    requires AreHex(t, 4) && k < |t| && t[k] == 0
    ensures k >= 4
  {
  }

  /** An escape. */
  method ParseEscape(flags: Flags, input: Source, output: Target) returns (error: Error)
    requires Room(input, output) && Terminated(input.buffer[..], input.src, flags) &&
             input.buffer[input.src] == BACKSLASH
    modifies input, output, output.buffer
    ensures var u := NextUnit(old(input.buffer[..][input.src..]), flags);
            && !u.Closing?
            && if u.BadUnit? then error == Error(u.code, old(input.src) + u.offset)
               else (&& error == NoError && Room(input, output)
                     && input.src == old(input.src) + u.length && output.dst == old(output.dst) + |u.bytes|
                     && output.buffer[..] == Overwritten(old(output.buffer[..]), old(output.dst), u.bytes))
  {
    hide UnicodeUnit, Overwritten, Escape;
    ghost var t := input.buffer[..][input.src..];
    assert t == input.buffer[input.src..];
    ghost var k :| input.src <= k < input.buffer.Length && input.buffer[k] == 0;
    error := NoError;
    var escapeOffset := input.src;
    var _ := input.Take();
    var e := input.buffer[input.src];
    assert e == ByteAt(t, 1);
    if Escape(e) != 0 {
      NulIsNoEscape();
      var _ := input.Take();
      output.Put(Escape(e));
    } else if flags.apostrophe && e == APOSTROPHE {
      var _ := input.Take();
      output.Put(APOSTROPHE);
    } else if e == LETTER_U {
      assert k > input.src;
      var _ := input.Take();
      var codepoint: bv32;
      UnicodeIsShorter(t);
      assert NextUnit(t, flags) == UnicodeUnit(t);
      codepoint, error := ReadUnicode(input, escapeOffset);
      if error != NoError {
        return;
      }
      PutEncoded(output, codepoint);
    } else {
      error := Error(EscapeInvalid, escapeOffset);
    }
  }

  lemma NulIsNoEscape()
    ensures Escape(0) == 0
  {
  }

  /** One turn of the parser's loop. */
  method ParseUnit(flags: Flags, input: Source, output: Target) returns (closed: bool, error: Error)
    requires Room(input, output) && Terminated(input.buffer[..], input.src, flags)
    modifies input, output, output.buffer
    ensures var u := NextUnit(old(input.buffer[..][input.src..]), flags);
            if u.BadUnit? then error == Error(u.code, old(input.src) + u.offset)
            else
              (var (b, n) := if u.Closing? then ([0], 1) else (u.bytes, u.length);
               && error == NoError && closed == u.Closing? && Room(input, output)
               && input.src == old(input.src) + n && output.dst == old(output.dst) + |b|
               && output.buffer[..] == Overwritten(old(output.buffer[..]), old(output.dst), b))
  {
    hide Decoded, UnicodeUnit, Overwritten, Escape;
    ghost var t := input.buffer[..][input.src..];
    closed, error := false, NoError;
    var c := input.buffer[input.src];
    if c == BACKSLASH {
      error := ParseEscape(flags, input, output);
    } else if c == QUOTE {
      var _ := input.Take();
      output.Put(0);
      closed := true;
    } else if c < 0x20 {
      error := Error(if c == 0 then MissQuotationMark else InvalidEncoding, input.src);
    } else {
      var offset := input.src;
      if flags.validate {
        var ok := ValidateUnit(input, output);
        if !ok {
          error := Error(InvalidEncoding, offset);
        }
      } else {
        var _ := CopyByte(input, output);
      }
    }
  }

  lemma UnicodeIsShorter(t: Text)
    ensures UnicodeUnit(t).Unit? ==> |UnicodeUnit(t).bytes| <= UnicodeUnit(t).length
  {
    hide HexNumber, Paired;
  }

  // ---- The parser -------------------------------------------------------------------------------

  lemma UnitHasNoNul(t: Text, flags: Flags)
    requires NextUnit(t, flags).Unit?
    ensures forall k :: 0 <= k < NextUnit(t, flags).length ==> t[k] != 0
  {
    hide Decoded, HexNumber, Paired;
    NulIsNoEscape();
    if ByteAt(t, 0) == BACKSLASH {
      if ByteAt(t, 1) == LETTER_U {
        UnicodeHasNoNul(t);
      }
    } else if flags.validate {
      DecodedTail(t);
      TailsAreNotNul(t[..NextUnit(t, flags).length]);
    }
  }

  lemma UnicodeHasNoNul(t: Text)
    requires UnicodeUnit(t).Unit? && ByteAt(t, 0) == BACKSLASH && ByteAt(t, 1) == LETTER_U
    ensures forall k :: 0 <= k < UnicodeUnit(t).length ==> k < |t| && t[k] != 0
  {
    hide HexNumber, Paired;
    var n := UnicodeUnit(t).length;
    forall k | 0 <= k < n ensures k < |t| && t[k] != 0 {
      assert 2 <= k < 6 ==> t[k] == From(t, 2)[k - 2];
      assert 8 <= k < 12 ==> t[k] == From(t, 8)[k - 8];
    }
  }

  lemma StillTerminated(b: seq<Byte>, now: seq<Byte>, src: nat, flags: Flags)
    requires Terminated(b, src, flags) && NextUnit(b[src..], flags).Unit?
    requires var n := NextUnit(b[src..], flags).length; |now| == |b| && now[src + n..] == b[src..][n..]
    ensures Terminated(now, src + NextUnit(b[src..], flags).length, flags)
  {
    hide NextUnit;
    var t := b[src..];
    var n := NextUnit(t, flags).length;
    UnitHasNoNul(t, flags);
    var k :| src <= k < |b| && b[k] == 0;
    assert t[k - src] == 0;
    assert now[src + n..][k - (src + n)] == t[n..][k - (src + n)] == now[k];
  }

  /** One turn again, and what it leaves to be read. */
  method ParseNext(flags: Flags, input: Source, output: Target) returns (closed: bool, error: Error)
    requires Room(input, output) && Terminated(input.buffer[..], input.src, flags)
    modifies input, output, output.buffer
    ensures var t := old(input.buffer[..][input.src..]);
            var u := NextUnit(t, flags);
            if u.BadUnit? then error == Error(u.code, old(input.src) + u.offset)
            else
              (var (b, n) := if u.Closing? then ([0], 1) else (u.bytes, u.length);
               && error == NoError && closed == u.Closing? && Room(input, output)
               && input.src == old(input.src) + n && output.dst == old(output.dst) + |b|
               && output.buffer[..] == Overwritten(old(output.buffer[..]), old(output.dst), b)
               && (u.Unit? ==>
                     Terminated(input.buffer[..], input.src, flags) && input.buffer[..][input.src..] == t[n..]))
  {
    hide NextUnit, Terminated, Overwritten;
    ghost var src, at, now, out := input.src, output.dst, input.buffer[..], output.buffer[..];
    ghost var t := now[src..];
    ghost var u := NextUnit(t, flags);
    closed, error := ParseUnit(flags, input, output);
    if u.Unit? {
      Unread(now, out, at, u.bytes, input.src);
      assert t[u.length..] == now[src + u.length..];
      StillTerminated(now, input.buffer[..], src, flags);
    }
  }

  /** What has been read of a string, and what is still to come, make up the whole. */
  predicate Continues(whole: Outcome, read: seq<Byte>, n: nat, rest: Outcome) {
    if rest.BadString? then whole == BadString(rest.code, n + rest.offset)
    else whole == Str(read + rest.bytes, n + rest.length)
  }

  lemma ContinuesUnit(whole: Outcome, read: seq<Byte>, n: nat, t: Text, flags: Flags)
    requires Continues(whole, read, n, Parsed(t, flags))
    ensures var u := NextUnit(t, flags);
            if u.BadUnit? then whole == BadString(u.code, n + u.offset)
            else if u.Closing? then whole == Str(read, n + 1)
            else Continues(whole, read + u.bytes, n + u.length, Parsed(t[u.length..], flags))
  {
    hide NextUnit;
    var u := NextUnit(t, flags);
    if u.Unit? && Parsed(t[u.length..], flags).Str? {
      assert read + (u.bytes + Parsed(t[u.length..], flags).bytes) ==
             read + u.bytes + Parsed(t[u.length..], flags).bytes;
    }
    assert read + [] == read;
  }

  /** ParseStringToStream, behind the opening quote. */
  method ParseStringToStream(flags: Flags, input: Source, output: Target) returns (error: Error)
    requires Room(input, output) && Terminated(input.buffer[..], input.src, flags)
    modifies input, output, output.buffer
    ensures var p := Parsed(old(input.buffer[..][input.src..]), flags);
            if p.BadString? then error == Error(p.code, old(input.src) + p.offset)
            else (&& error == NoError && Room(input, output)
                  && input.src == old(input.src) + p.length && output.dst == old(output.dst) + |p.bytes| + 1
                  && output.buffer[..] == Overwritten(old(output.buffer[..]), old(output.dst), p.bytes + [0]))
  {
    hide NextUnit, Terminated, Overwritten, Parsed;
    ghost var a, b, start, at := input.buffer[..], output.buffer[..], input.src, output.dst;
    ghost var whole := Parsed(a[start..], flags);
    ghost var read: seq<Byte> := [];
    assert whole.Str? ==> [] + whole.bytes == whole.bytes;
    NothingOverwritten(b, at);
    while true
      invariant Room(input, output) && start <= input.src && output.dst == at + |read|
      invariant Terminated(input.buffer[..], input.src, flags)
      invariant output.buffer[..] == Overwritten(b, at, read)
      invariant Continues(whole, read, input.src - start, Parsed(input.buffer[..][input.src..], flags))
      decreases input.buffer.Length - input.src
    {
      ghost var t := input.buffer[..][input.src..];
      ghost var u := NextUnit(t, flags);
      ContinuesUnit(whole, read, input.src - start, t, flags);
      var closed: bool;
      closed, error := ParseNext(flags, input, output);
      if error != NoError {
        return;
      }
      ghost var bytes := if u.Closing? then [0] else u.bytes;
      OverwrittenTwice(b, at, read, bytes);
      if closed {
        return;
      }
      read := read + bytes;
    }
  }

  // ---- In situ and not --------------------------------------------------------------------------

  /** ParseString in situ: the string is left in the text's own buffer. */
  method ParseInsitu(flags: Flags, buffer: array<Byte>, pos: nat)
    returns (error: Error, head: nat, length: nat, next: nat)
    requires pos < buffer.Length && buffer[pos] == QUOTE && Terminated(buffer[..], pos + 1, flags)
    modifies buffer
    ensures var p := Parsed(old(buffer[..][pos + 1..]), flags);
            if p.BadString? then error == Error(p.code, pos + 1 + p.offset)
            else (&& error == NoError && next == pos + 1 + p.length <= buffer.Length && head == pos + 1
                  && length == |p.bytes| && head + length < next && buffer[head + length] == 0
                  && buffer[head..head + length] == p.bytes)
    ensures error == NoError ==>
            buffer[..pos + 1] == old(buffer[..pos + 1]) && buffer[next..] == old(buffer[..])[next..]
  {
    hide Parsed, Terminated;
    ghost var b := buffer[..];
    head, length, next := pos + 1, 0, pos;
    var input := new Source(buffer, pos + 1);
    var output := new Target(buffer, pos + 1);
    error := ParseStringToStream(flags, input, output);
    if error == NoError {
      length := output.dst - head - 1;
      next := input.src;
      OverwrittenInside(b, head, Parsed(b[pos + 1..], flags).bytes);
    }
  }

  lemma OverwrittenInside(b: seq<Byte>, at: nat, s: seq<Byte>)
    requires at + |s| + 1 <= |b|
    ensures var r := Overwritten(b, at, s + [0]);
            r[..at] == b[..at] && r[at..at + |s|] == s && r[at + |s|] == 0
            && forall next :: at + |s| < next <= |b| ==> r[next..] == b[next..]
  {
  }

  /** The characters of StackStream are counted in 32 bits. */
  const SIZE_LIMIT: nat := 0x1_0000_0000

  /** The `length` bytes from `head` on lie on the stack with a byte behind them, and are the string `s`. */
  predicate HandsOver(stack: seq<Byte>, head: nat, length: nat, s: seq<Byte>) {
    head + length < |stack| && stack[head..head + length] == s
  }

  /**
   ParseString to the reader's stack: the text is left as it is. `stack` is what has been put there, and
   `length` bytes from `head` on are handed over. They are the string exactly if that, with its NUL, is
   shorter than 2^32 bytes.
   */
  method ParseToStack(flags: Flags, buffer: array<Byte>, pos: nat)
    returns (error: Error, stack: seq<Byte>, head: nat, length: nat, next: nat)
    requires pos < buffer.Length && buffer[pos] == QUOTE && Terminated(buffer[..], pos + 1, flags)
    ensures var p := Parsed(buffer[..][pos + 1..], flags);
            if p.BadString? then error == Error(p.code, pos + 1 + p.offset)
            else (&& error == NoError && next == pos + 1 + p.length && stack == p.bytes + [0]
                  && head == |stack| - |stack| % SIZE_LIMIT && length == |p.bytes| % SIZE_LIMIT
                  && (HandsOver(stack, head, length, p.bytes) <==> |p.bytes| + 1 < SIZE_LIMIT))
  {
    hide Parsed, HandsOver;
    error, stack, next := ParseOnStack(flags, buffer, pos);
    var counted := |stack| % SIZE_LIMIT;
    length := (counted + SIZE_LIMIT - 1) % SIZE_LIMIT;
    head := |stack| - counted;
    if error == NoError {
      HandedOver(Parsed(buffer[..][pos + 1..], flags).bytes);
    }
  }

  /** What ParseStringToStream puts on the stack. */
  method ParseOnStack(flags: Flags, buffer: array<Byte>, pos: nat) returns (error: Error, stack: seq<Byte>, next: nat)
    requires pos < buffer.Length && buffer[pos] == QUOTE && Terminated(buffer[..], pos + 1, flags)
    ensures var p := Parsed(buffer[..][pos + 1..], flags);
            if p.BadString? then error == Error(p.code, pos + 1 + p.offset)
            else error == NoError && next == pos + 1 + p.length && stack == p.bytes + [0]
  {
    hide Parsed, Terminated;
    var room := new Byte[buffer.Length](_ => 0);
    stack, next := [], pos;
    var input := new Source(buffer, pos + 1);
    var output := new Target(room, 0);
    ghost var b := room[..];
    error := ParseStringToStream(flags, input, output);
    if error == NoError {
      next := input.src;
      stack := room[..output.dst];
      OverwrittenInside(b, 0, Parsed(buffer[..][pos + 1..], flags).bytes);
    }
  }

  /** A string on the stack, its count, and what is handed over. */
  lemma HandedOver(s: seq<Byte>)
    ensures var stack := s + [0];
            var counted := |stack| % SIZE_LIMIT;
            var length := (counted + SIZE_LIMIT - 1) % SIZE_LIMIT;
            && length == |s| % SIZE_LIMIT
            && (HandsOver(stack, |stack| - counted, length, s) <==> |s| + 1 < SIZE_LIMIT)
  {
    OneLess(|s|);
    assert (s + [0])[..|s|] == s;
  }

  /** The count less the NUL, in 32 bits. */
  lemma OneLess(n: nat)
    ensures ((n + 1) % SIZE_LIMIT + SIZE_LIMIT - 1) % SIZE_LIMIT == n % SIZE_LIMIT
    ensures n + 1 < SIZE_LIMIT ==> (n + 1) % SIZE_LIMIT == n + 1 && n % SIZE_LIMIT == n
    ensures n + 1 == SIZE_LIMIT ==> (n + 1) % SIZE_LIMIT == 0 && n % SIZE_LIMIT == n
    ensures n >= SIZE_LIMIT ==> n % SIZE_LIMIT < n
  {
  }

  /**
   Decoding in situ and decoding to the stack have the same errors and the same position behind the string;
   the same bytes are handed over exactly if the string, with its NUL, is shorter than 2^32 bytes.
   */
  method InsituIsSeparate(flags: Flags, buffer: array<Byte>, pos: nat)
    returns (separate: Error, stack: seq<Byte>, from: nat, count: nat, next: nat,
             insitu: Error, head: nat, length: nat, next': nat)
    requires pos < buffer.Length && buffer[pos] == QUOTE && Terminated(buffer[..], pos + 1, flags)
    modifies buffer
    ensures separate == insitu
    ensures separate == NoError ==>
              && next == next' && head + length <= buffer.Length
              && stack == buffer[head..head + length] + [0]
              && from == |stack| - |stack| % SIZE_LIMIT && count == length % SIZE_LIMIT
              && (HandsOver(stack, from, count, buffer[head..head + length]) <==> length + 1 < SIZE_LIMIT)
    ensures var p := Parsed(old(buffer[..][pos + 1..]), flags);
            p.Str? ==> separate == NoError && length == |p.bytes|
  {
    hide Parsed, Terminated, HandsOver;
    separate, stack, from, count, next := ParseToStack(flags, buffer, pos);
    insitu, head, length, next' := ParseInsitu(flags, buffer, pos);
  }

  /**
   A string of 2^32 - 1 letters: in situ it is handed over, from the stack what lies in memory behind it.
   */
  method LongestString(flags: Flags, buffer: array<Byte>)
    returns (stack: seq<Byte>, from: nat, count: nat, head: nat, length: nat)
    requires buffer[..] == [QUOTE] + Letters(SIZE_LIMIT - 1) + [QUOTE, 0]
    modifies buffer
    ensures length == SIZE_LIMIT - 1 && head + length <= buffer.Length
    ensures stack == buffer[head..head + length] + [0] && from == |stack| && count == length
    ensures !HandsOver(stack, from, count, buffer[head..head + length])
  {
    hide Parsed, TailsFit, Letters;
    ghost var s := Letters(SIZE_LIMIT - 1);
    assert buffer[..][1..] == s + [QUOTE] + [0];
    LettersParsed(SIZE_LIMIT - 1, [0], flags);
    LettersTerminated(buffer[..], SIZE_LIMIT - 1, flags);
    assert buffer[..][0] == QUOTE;
    var separate, next, insitu, next';
    separate, stack, from, count, next, insitu, head, length, next' := InsituIsSeparate(flags, buffer, 0);
  }

  lemma LettersTerminated(b: seq<Byte>, n: nat, flags: Flags)
    requires b == [QUOTE] + Letters(n) + [QUOTE, 0]
    ensures Terminated(b, 1, flags)
  {
    hide TailsFit, Length;
    var t := b[1..];
    assert b[n + 2] == 0 && t[n + 1] == 0;
    forall i | 0 <= i < n + 1 ensures i + Length(t[i]) <= |t| {
      PlainLength(t[i]);
    }
    NoOverhangFits(t, n + 1, flags);
  }

  lemma PlainLength(c: Byte)
    requires c == 0x61 || c == QUOTE
    ensures Length(c) == 1
  {
  }

  // ---- When validation stays in the buffer ------------------------------------------------------

  /** It does if no byte before the NUL announces tails beyond the end. */
  lemma {:induction false} NoOverhangFits(t: Text, k: nat, flags: Flags)
    requires k < |t| && t[k] == 0 && forall i :: 0 <= i < k ==> i + Length(t[i]) <= |t|
    ensures TailsFit(t, flags)
    decreases |t|
  {
    hide NextUnit;
    var u := NextUnit(t, flags);
    if u.Unit? {
      UnitHasNoNul(t, flags);
      assert u.length <= k;
      assert forall i :: 0 <= i < k - u.length ==> t[u.length..][i] == t[u.length + i];
      NoOverhangFits(t[u.length..], k - u.length, flags);
    }
    assert k == 0 ==> !Validated(t, flags);
  }

  /** So it does on an ordinary text in UTF-8, with nothing behind its NUL. */
  lemma Utf8Fits(s: Text, flags: Flags)
    requires Utf8Text(s)
    ensures Terminated([QUOTE] + s + [0], 1, flags)
  {
    hide TailsFit, Utf8Text;
    var b := [QUOTE] + s + [0];
    assert b[1..] == s + [0] && b[|s| + 1] == 0;
    Utf8HasNoOverhang(s);
    NoOverhangFits(s + [0], |s|, flags);
  }

  lemma {:induction false} Utf8HasNoOverhang(s: Text)
    requires Utf8Text(s)
    ensures forall i :: 0 <= i < |s| ==> i + Length(s[i]) <= |s|
    decreases |s|
  {
    hide GetRange, Masks, Decoded, Length, Utf8Text, Utf8Char;
    if s != [] {
      Utf8TextStep(s);
      DecodedTail(s);
      var n := Decoded(s, 0).next;
      Utf8CharLength(s[..n]);
      Utf8HasNoOverhang(s[n..]);
      forall i | 0 <= i < |s| ensures i + Length(s[i]) <= |s| {
        assert s[i] == if i < n then s[..n][i] else s[n..][i - n];
      }
    }
  }

  lemma Utf8CharLength(s: Text)
    requires Utf8Char(s)
    ensures |s| > 0 && Length(s[0]) == |s| && forall i :: 0 < i < |s| ==> Length(s[i]) == 1
  {
  }

  /**
   It does not where a lead byte of four stands right before the NUL at the end: three bytes are taken from
   behind.
   */
  lemma LeadBeforeNul(flags: Flags)
    requires flags.validate
    ensures !Terminated([QUOTE, 0xF0, 0], 1, flags)
    ensures Decoded([0xF0, 0], 0).next == 4
  {
    assert [QUOTE, 0xF0, 0][1..] == [0xF0, 0];
    RestNext([0xF0, 0], Decoding(true, Lead(0xF0), 1), Masks(11));
  }
}
