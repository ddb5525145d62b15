/**
 JSON Pointers as RFC 6901 has them written, character by character: plainly as in its section 3, and as a URI fragment
 as in its section 6 and section 2 of RFC 3986.
 */
module PointerEscapes {
  import opened Ascii
  import opened Utf8
  import opened PointerTree
  import opened PointerIndex
  import opened PointerText

  // ---- The plain form ---------------------------------------------------------------------------

  /** A tilde is written ~0, a slash ~1, and any other byte as it is. */
  function EscapedByte(c: Byte): (t: Text)
    ensures t != []
  {
    if c == 0x7E then [0x7E, 0x30] else if c == 0x2F then [0x7E, 0x31] else [c]
  }

  function EscapedName(name: Name): Text {
    if name == [] then [] else EscapedByte(name[0]) + EscapedName(name[1..])
  }

  /** Every name behind a slash. */
  function Plain(ts: seq<Token<Byte>>): Text {
    if ts == [] then [] else [0x2F] + (EscapedName(ts[0].name) + Plain(ts[1..]))
  }

  // ---- The fragment -----------------------------------------------------------------------------

  /** In a fragment letters, digits, `-`, `.` and `_` stand for themselves, and the rest as % and two digits. */
  function FragmentByte(c: Byte): (t: Text)
    ensures t != []
  {
    if c == 0x7E then [0x7E, 0x30]
    else if c == 0x2F then [0x7E, 0x31]
    else if 0x30 <= c <= 0x39 || 0x41 <= c <= 0x5A || 0x61 <= c <= 0x7A || c == 0x2D || c == 0x2E || c == 0x5F then [c]
    else [0x25, HEX_DIGITS[(c >> 4) as nat], HEX_DIGITS[(c & 15) as nat]]
  }

  function FragmentName(name: Name): Text {
    if name == [] then [] else FragmentByte(name[0]) + FragmentName(name[1..])
  }

  function FragmentTokens(ts: seq<Token<Byte>>): Text {
    if ts == [] then [] else [0x2F] + (FragmentName(ts[0].name) + FragmentTokens(ts[1..]))
  }

  function Fragment(ts: seq<Token<Byte>>): Text {
    [0x23] + FragmentTokens(ts)
  }

  // ---- What is written --------------------------------------------------------------------------

  lemma {:induction false} PlainName(name: Name)
    ensures WriteName(name, false) == Written(EscapedName(name))
    decreases |name|
  {
    if name != [] {
      PlainName(name[1..]);
    }
  }

  lemma {:induction false} PlainTokens(ts: seq<Token<Byte>>)
    ensures WriteTokens(ts, false) == Written(Plain(ts))
    decreases |ts|
  {
    hide WriteName, EscapedName;
    if ts != [] {
      PlainName(ts[0].name);
      PlainTokens(ts[1..]);
    }
  }

  /** Plainly any tokens are written as section 3 of RFC 6901 has them, and read back from that. */
  lemma PlainIsWritten(ts: seq<Token<Byte>>)
    ensures Stringify(ts, false) == Written(Plain(ts))
    ensures Parse(Plain(ts)) == Parsed(Reindexed(ts))
  {
    hide Parse, WriteTokens, Utf8Text;
    PlainTokens(ts);
    StringifyThenParse(ts, false);
  }

  lemma HighDigit(c: Byte)
    ensures c >> 4 < 16 && c & 15 < 16
  {
  }

  lemma PercentIs(c: Byte)
    ensures (c >> 4) as nat < 16 && (c & 15) as nat < 16
    ensures Percent(c) == [0x25, HEX_DIGITS[(c >> 4) as nat], HEX_DIGITS[(c & 15) as nat]]
  {
    hide HexDigit;
    HighDigit(c);
    HexDigitAt((c >> 4) as nat);
    HexDigitAt((c & 15) as nat);
  }

  lemma FragmentPercent(c: Byte)
    requires !Unreserved(c) && c != 0x2F
    ensures FragmentByte(c) == Percent(c)
  {
    hide Percent;
    PercentIs(c);
  }

  lemma HighBytes(c: seq<Byte>)
    requires Utf8Char(c)
    ensures c != [] && (c[0] <= 0x7F ==> |c| == 1)
    ensures c[0] > 0x7F ==> forall k :: 0 <= k < |c| ==> !Unreserved(c[k]) && c[k] != 0x2F
  {
  }

  lemma {:induction false} FragmentPercents(c: seq<Byte>, rest: Name)
    requires forall k :: 0 <= k < |c| ==> !Unreserved(c[k]) && c[k] != 0x2F
    ensures FragmentName(c + rest) == Percents(c) + FragmentName(rest)
    decreases |c|
  {
    hide Unreserved, FragmentByte, Percent;
    if c == [] {
      assert c + rest == rest && Percents(c) == [];
    } else {
      FragmentPercent(c[0]);
      FragmentPercents(c[1..], rest);
      assert (c + rest)[1..] == c[1..] + rest;
      assert Percent(c[0]) + (Percents(c[1..]) + FragmentName(rest)) == Percents(c) + FragmentName(rest);
    }
  }

  lemma {:induction false} FragmentNameIs(name: Name)
    requires Utf8Text(name)
    ensures WriteName(name, true) == Written(FragmentName(name))
    decreases |name|
  {
    hide Decoded, Utf8Text, Utf8Char, FragmentName, Percents;
    if name == [] {
      NoFragment();
    } else {
      Utf8TextStep(name);
      DecodedTail(name);
      var n := Decoded(name, 0).next;
      var c := name[..n];
      HighBytes(c);
      assert c + name[n..] == name;
      if Unreserved(name[0]) || name[0] == 0x2F {
        AsciiDecoded(name);
        FragmentNameIs(name[1..]);
        FragmentFirst(name);
      } else {
        if name[0] <= 0x7F {
          assert c == [name[0]];
        }
        FragmentPercents(c, name[n..]);
        FragmentNameIs(name[n..]);
      }
    }
  }

  lemma NoFragment()
    ensures FragmentName([]) == []
  {
  }

  lemma FragmentFirst(name: Name)
    requires name != []
    ensures FragmentName(name) == FragmentByte(name[0]) + FragmentName(name[1..])
  {
  }

  lemma {:induction false} FragmentTokensAre(ts: seq<Token<Byte>>)
    requires forall t <- ts :: Utf8Text(t.name)
    ensures WriteTokens(ts, true) == Written(FragmentTokens(ts))
    decreases |ts|
  {
    hide WriteName, FragmentName, Utf8Text;
    if ts != [] {
      FragmentNameIs(ts[0].name);
      FragmentTokensAre(ts[1..]);
    }
  }

  /** As a fragment tokens of UTF-8 are written in the form section 6 of RFC 6901 has, and read back from it. */
  lemma FragmentIsWritten(ts: seq<Token<Byte>>)
    requires forall t <- ts :: Utf8Text(t.name)
    ensures Stringify(ts, true) == Written(Fragment(ts))
    ensures Parse(Fragment(ts)) == Parsed(Reindexed(ts))
  {
    hide Parse, WriteTokens, Utf8Text;
    FragmentTokensAre(ts);
    StringifyThenParse(ts, true);
  }

  // ---- What is accepted -------------------------------------------------------------------------

  /** A tilde that no 0 or 1 follows. */
  predicate BadTilde(t: Text, k: nat) {
    k < |t| && t[k] == 0x7E && (k + 1 == |t| || (t[k + 1] != 0x30 && t[k + 1] != 0x31))
  }

  /** There is none before position `n`. */
  predicate TildesGood(t: Text, n: nat) {
    forall k :: 0 <= k < n ==> !BadTilde(t, k)
  }

  lemma TildesJoined(t: Text, n: nat, m: nat)
    requires n <= |t| && TildesGood(t, n) && TildesGood(t[n..], m)
    ensures TildesGood(t, n + m)
  {
    forall k | n <= k < n + m
      ensures !BadTilde(t, k)
    {
      TildeMoved(t, n, k - n);
    }
  }

  lemma TildeMoved(t: Text, n: nat, k: nat)
    requires n <= |t|
    ensures BadTilde(t, n + k) <==> BadTilde(t[n..], k)
  {
  }

  /** What has been read is what is written for it, or the first bad tilde is behind it. */
  predicate ReadPlainly(t: Text, p: Piece) {
    match p
    case Piece(name, n) => n <= |t| && t[..n] == EscapedName(name) && TildesGood(t, n)
    case BadPiece(code, offset) =>
      code == InvalidEscape && 1 <= offset && BadTilde(t, offset - 1) && TildesGood(t, offset - 1)
  }

  lemma PlainPiece(t: Text)
    requires t != [] && t[0] != 0x2F
    ensures ReadPlainly(t, NextPiece(t, false))
  {
    var p := NextPiece(t, false);
    if p.Piece? {
      EscapedFirst(p.bytes[0], []);
      assert p.bytes == [p.bytes[0]] && p.bytes + [] == p.bytes;
    }
  }

  lemma {:induction false} EscapedJoined(a: Name, b: Name)
    ensures EscapedName(a + b) == EscapedName(a) + EscapedName(b)
    decreases |a|
  {
    hide EscapedByte;
    if a == [] {
      assert a + b == b;
    } else {
      EscapedJoined(a[1..], b);
      assert (a + b)[1..] == a[1..] + b;
    }
  }

  /** One piece, and the rest. */
  lemma PlainlyThen(t: Text, p: Piece, q: Piece)
    requires ReadPlainly(t, p) && p.Piece? && ReadPlainly(t[p.length..], q)
    ensures ReadPlainly(t, match q
                           case Piece(name, m) => Piece(p.bytes + name, p.length + m)
                           case BadPiece(code, offset) => BadPiece(code, p.length + offset))
  {
    hide TildesGood, BadTilde, EscapedName;
    if q.Piece? {
      TildesJoined(t, p.length, q.length);
      EscapedJoined(p.bytes, q.bytes);
      assert t[..p.length + q.length] == t[..p.length] + t[p.length..][..q.length];
    } else {
      TildesJoined(t, p.length, q.offset - 1);
      TildeMoved(t, p.length, q.offset - 1);
    }
  }

  lemma {:induction false} PlainNameParsed(t: Text)
    ensures ReadPlainly(t, NamePiece(t, false))
    decreases |t|
  {
    hide ReadPlainly, NextPiece;
    if AtEnd(t) {
      NothingRead(t);
    } else {
      PlainPiece(t);
      var p := NextPiece(t, false);
      if p.Piece? {
        PlainNameParsed(t[p.length..]);
        PlainlyThen(t, p, NamePiece(t[p.length..], false));
      }
    }
  }

  lemma NothingRead(t: Text)
    ensures ReadPlainly(t, Piece([], 0))
  {
  }

  /** The same of all the tokens. */
  predicate TokensReadPlainly(t: Text, r: Parsed) {
    match r
    case Parsed(ts) => t == Plain(ts) && TildesGood(t, |t|)
    case Failed(code, offset) =>
      code == InvalidEscape && 1 <= offset && BadTilde(t, offset - 1) && TildesGood(t, offset - 1)
  }

  lemma {:induction false} PlainTokensParsed(t: Text)
    requires AtEnd(t)
    ensures TokensReadPlainly(t, ParseTokens(t, false))
    decreases |t|
  {
    hide NamePiece, TildesGood, BadTilde, EscapedName, IndexOf, Plain;
    if t == [] {
      NoTokensRead();
    } else {
      var p := NamePiece(t[1..], false);
      PlainNameParsed(t[1..]);
      SlashGood(t);
      if p.BadPiece? {
        TildesJoined(t, 1, p.offset - 1);
        TildeMoved(t, 1, p.offset - 1);
      } else {
        var rest := t[1 + p.length..];
        TildesJoined(t, 1, p.length);
        PlainTokensParsed(rest);
        var q := ParseTokens(rest, false);
        if q.Parsed? {
          TildesJoined(t, 1 + p.length, |rest|);
          PlainFirst(Token(p.bytes, IndexOf(p.bytes)), q.tokens);
          assert t == [0x2F] + (t[1..][..p.length] + rest);
        } else {
          TildesJoined(t, 1 + p.length, q.offset - 1);
          TildeMoved(t, 1 + p.length, q.offset - 1);
        }
      }
    }
  }

  lemma NoTokensRead()
    ensures TokensReadPlainly([], Parsed([]))
  {
  }

  lemma SlashGood(t: Text)
    requires AtEnd(t) && t != []
    ensures TildesGood(t, 1) && t[0] == 0x2F
  {
  }

  lemma PlainFirst(t: Token<Byte>, ts: seq<Token<Byte>>)
    ensures Plain([t] + ts) == [0x2F] + (EscapedName(t.name) + Plain(ts))
  {
    assert ([t] + ts)[1..] == ts;
  }

  /**
   A plain text is accepted exactly if it is empty or begins with a slash, and 0 or 1 follows each tilde; it is then
   what is written for its tokens. Otherwise the error is behind the first tilde that nothing good follows.
   */
  lemma PlainIsParsed(t: Text)
    requires t == [] || t[0] != 0x23
    ensures Parse(t).Parsed? <==> (t == [] || t[0] == 0x2F) && TildesGood(t, |t|)
    ensures Parse(t).Parsed? ==> t == Plain(Parse(t).tokens)
    ensures t != [] && t[0] != 0x2F ==> Parse(t) == Failed(TokenMustBeginWithSolidus, 0)
    ensures t != [] && t[0] == 0x2F && Parse(t).Failed? ==>
              Parse(t).code == InvalidEscape && 1 <= Parse(t).offset <= |t| && BadTilde(t, Parse(t).offset - 1) &&
              TildesGood(t, Parse(t).offset - 1)
  {
    hide ParseTokens, Plain;
    assert t[0..] == t;
    if AtEnd(t) {
      PlainTokensParsed(t);
    }
  }

  lemma EscapedFirst(c: Byte, name: Name)
    ensures EscapedName([c] + name) == EscapedByte(c) + EscapedName(name)
  {
    assert ([c] + name)[1..] == name;
  }
}
