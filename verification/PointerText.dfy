/**
 The text of a JSON Pointer, plain or as a URI fragment: parsing it into tokens and writing tokens back.
 */
module PointerText {
  import opened Ascii
  import opened Utf8
  import opened PointerTree
  import opened PointerIndex

  type Text = seq<Byte>

  const SLASH: Byte := 0x2F
  const TILDE: Byte := 0x7E
  const PERCENT: Byte := 0x25
  const HASH: Byte := 0x23
  const ONE: Byte := 0x31

  predicate Unreserved(c: Byte) {
    Digit(c) || 0x41 <= c <= 0x5A || 0x61 <= c <= 0x7A || c == 0x2D || c == 0x2E || c == 0x5F || c == TILDE
  }

  /** No name begins or continues here. */
  predicate AtEnd(t: Text) {
    t == [] || t[0] == SLASH
  }

  // ---- Percent-encoding -------------------------------------------------------------------------

  function Percent(b: Byte): Text {
    [PERCENT, HexDigit(b >> 4), HexDigit(b & 15)]
  }

  function Percents(s: seq<Byte>): (t: Text)
    ensures |t| == 3 * |s|
  {
    if s == [] then [] else Percent(s[0]) + Percents(s[1..])
  }

  predicate IsTriplet(t: Text) {
    |t| >= 3 && t[0] == PERCENT && IsHex(t[1]) && IsHex(t[2])
  }

  function TripletValue(t: Text): Byte
    requires |t| >= 3
  {
    (HexValue(t[1]) << 4) + HexValue(t[2])
  }

  /** The bytes of the percent-encoded triplets a text begins with. */
  function Triplets(t: Text): (s: seq<Byte>)
    ensures 3 * |s| <= |t|
  {
    if IsTriplet(t) then [TripletValue(t)] + Triplets(t[3..]) else []
  }

  // ---- Parse ------------------------------------------------------------------------------------

  datatype ParseError = TokenMustBeginWithSolidus | InvalidEscape | InvalidPercentEncoding | CharacterMustPercentEncode

  /** Bytes for a name and how much of the text they take, or an error and its offset. */
  datatype Piece = Piece(bytes: seq<Byte>, length: nat) | BadPiece(code: ParseError, offset: nat)

  /** `~0` and `~1`, once a character has been read and `n` of the text consumed. */
  function Unescape(t: Text, c: Byte, n: nat): Piece
    requires n <= |t|
  {
    if c != TILDE then Piece([c], n)
    else if n < |t| && t[n] == ZERO then Piece([TILDE], n + 1)
    else if n < |t| && t[n] == ONE then Piece([SLASH], n + 1)
    else BadPiece(InvalidEscape, n)
  }

  /** One turn of the loop over a name. */
  function NextPiece(t: Text, uri: bool): (p: Piece)
    requires t != []
    ensures p.Piece? ==> 0 < |p.bytes| <= p.length <= |t|
  {
    if !uri then Unescape(t, t[0], 1)
    else if t[0] == PERCENT then
      var s := Triplets(t);
      var d := Decoded(s, 0);
      if s == [] || !d.ok || !(0 < d.next <= |s|) then BadPiece(InvalidPercentEncoding, 0)
      else if d.next == 1 then Unescape(t, s[0], 3)
      else Piece(s[..d.next], 3 * d.next)
    else if !Unreserved(t[0]) then BadPiece(CharacterMustPercentEncode, 0)
    else Unescape(t, t[0], 1)
  }

  function NamePiece(t: Text, uri: bool): (p: Piece)
    ensures p.Piece? ==> |p.bytes| <= p.length <= |t| && AtEnd(t[p.length..])
    decreases |t|
  {
    if AtEnd(t) then Piece([], 0)
    else
      match NextPiece(t, uri)
      case BadPiece(code, offset) => BadPiece(code, offset)
      case Piece(b, n) =>
        match NamePiece(t[n..], uri)
        case BadPiece(code, offset) => BadPiece(code, n + offset)
        case Piece(name, m) => Piece(b + name, n + m)
  }

  datatype Parsed = Parsed(tokens: seq<Token<Byte>>) | Failed(code: ParseError, offset: nat)

  function ParseTokens(t: Text, uri: bool): Parsed
    requires AtEnd(t)
    decreases |t|
  {
    if t == [] then Parsed([])
    else
      match NamePiece(t[1..], uri)
      case BadPiece(code, offset) => Failed(code, 1 + offset)
      case Piece(name, n) =>
        match ParseTokens(t[1 + n..], uri)
        case Failed(code, offset) => Failed(code, 1 + n + offset)
        case Parsed(ts) => Parsed([Token(name, IndexOf(name))] + ts)
  }

  function Offset(n: nat, r: Parsed): Parsed {
    match r
    case Failed(code, offset) => Failed(code, n + offset)
    case Parsed(_) => r
  }

  function Parse(t: Text): Parsed {
    var uri := t != [] && t[0] == HASH;
    var start := if uri then 1 else 0;
    if AtEnd(t[start..]) then Offset(start, ParseTokens(t[start..], uri)) else Failed(TokenMustBeginWithSolidus, start)
  }

  // ---- Stringify --------------------------------------------------------------------------------

  datatype Written = Written(text: Text) | NotUtf8

  /** One turn of the loop over a name: what is written, and how much of the name it takes. */
  function WritePiece(name: Name, uri: bool): (p: (Written, nat))
    requires name != []
    ensures p.0.Written? ==> 0 < p.1 <= |name|
  {
    var c := name[0];
    if c == TILDE then (Written([TILDE, ZERO]), 1)
    else if c == SLASH then (Written([TILDE, ONE]), 1)
    else if uri && !Unreserved(c) then
      var d := Decoded(name, 0);
      if !d.ok || !(0 < d.next <= |name|) then (NotUtf8, 0) else (Written(Percents(name[..d.next])), d.next)
    else (Written([c]), 1)
  }

  function Then(a: Written, b: Written): Written {
    if a.Written? && b.Written? then Written(a.text + b.text) else NotUtf8
  }

  function WriteName(name: Name, uri: bool): Written
    decreases |name|
  {
    if name == [] then Written([])
    else
      var (w, n) := WritePiece(name, uri);
      if w.NotUtf8? then NotUtf8 else Then(w, WriteName(name[n..], uri))
  }

  function WriteTokens(ts: seq<Token<Byte>>, uri: bool): Written
  {
    if ts == [] then Written([])
    else Then(Written([SLASH]), Then(WriteName(ts[0].name, uri), WriteTokens(ts[1..], uri)))
  }

  function Stringify(ts: seq<Token<Byte>>, uri: bool): Written {
    if uri then Then(Written([HASH]), WriteTokens(ts, uri)) else WriteTokens(ts, uri)
  }

  // ---- Round trips ------------------------------------------------------------------------------

  lemma PercentTriplet(b: Byte, rest: Text)
    ensures IsTriplet(Percent(b) + rest) && TripletValue(Percent(b) + rest) == b
  {
  }

  lemma TripletThen(b: Byte, more: Text)
    ensures Triplets(Percent(b) + more) == [b] + Triplets(more)
  {
    hide IsTriplet, TripletValue;
    PercentTriplet(b, more);
    assert (Percent(b) + more)[3..] == more;
  }

  lemma {:induction false} TripletsOfPercents(s: seq<Byte>, rest: Text)
    ensures Triplets(Percents(s) + rest) == s + Triplets(rest)
  {
    hide Percent, Triplets;
    if s == [] {
      assert Percents(s) + rest == rest && s + Triplets(rest) == Triplets(rest);
    } else {
      var more := Percents(s[1..]) + rest;
      assert Percents(s) + rest == Percent(s[0]) + more;
      TripletThen(s[0], more);
      TripletsOfPercents(s[1..], rest);
      assert [s[0]] + (s[1..] + Triplets(rest)) == s + Triplets(rest);
    }
  }

  lemma PieceRoundTrip(name: Name, uri: bool, rest: Text)
    requires name != [] && WritePiece(name, uri).0.Written?
    ensures var (w, n) := WritePiece(name, uri);
            var t := w.text + rest;
            !AtEnd(t) && NextPiece(t, uri) == Piece(name[..n], |w.text|)
  {
    hide Decoded, Triplets, HexDigit;
    var (w, n) := WritePiece(name, uri);
    if uri && !Unreserved(name[0]) && name[0] != SLASH {
      var t := w.text + rest;
      DecodedTail(name);
      assert Percents(name[..n])[0] == PERCENT;
      TripletsOfPercents(name[..n], rest);
      DecodedHead(name[..n], Triplets(rest));
      assert (name[..n] + Triplets(rest))[..n] == name[..n];
    }
  }

  lemma Regroup(a: Text, b: Text, c: Text)
    ensures a + b + c == a + (b + c)
    ensures (a + (b + c))[|a|..] == b + c
  {
  }

  /** One piece of a name, and the rest of it. */
  lemma NamePieceThen(w: Text, more: Text, rest: Text, uri: bool, name: Name, n: nat)
    requires n <= |name| && !AtEnd(w + (more + rest)) && NextPiece(w + (more + rest), uri) == Piece(name[..n], |w|)
    requires NamePiece(more + rest, uri) == Piece(name[n..], |more|)
    ensures NamePiece(w + more + rest, uri) == Piece(name, |w + more|)
  {
    hide AtEnd, NextPiece;
    Regroup(w, more, rest);
    assert name[..n] + name[n..] == name;
  }

  lemma {:induction false} NameRoundTrip(name: Name, uri: bool, rest: Text)
    requires WriteName(name, uri).Written? && AtEnd(rest)
    ensures NamePiece(WriteName(name, uri).text + rest, uri) == Piece(name, |WriteName(name, uri).text|)
    decreases |name|
  {
    hide AtEnd, WritePiece, NextPiece, NamePiece;
    if name == [] {
      NoName(rest, uri);
      assert [] + rest == rest;
    } else {
      var (w, n) := WritePiece(name, uri);
      var more := WriteName(name[n..], uri).text;
      PieceRoundTrip(name, uri, more + rest);
      NameRoundTrip(name[n..], uri, rest);
      NamePieceThen(w.text, more, rest, uri, name, n);
    }
  }

  lemma NoName(t: Text, uri: bool)
    requires AtEnd(t)
    ensures NamePiece(t, uri) == Piece([], 0)
  {
  }

  /** The tokens with the indices their names stand for. */
  function Reindexed(ts: seq<Token<Byte>>): seq<Token<Byte>> {
    if ts == [] then [] else [Token(ts[0].name, IndexOf(ts[0].name))] + Reindexed(ts[1..])
  }

  lemma {:induction false} TokensRoundTrip(ts: seq<Token<Byte>>, uri: bool)
    requires WriteTokens(ts, uri).Written?
    ensures AtEnd(WriteTokens(ts, uri).text)
    ensures ParseTokens(WriteTokens(ts, uri).text, uri) == Parsed(Reindexed(ts))
    decreases |ts|
  {
    hide IndexOf, NamePiece, WriteName, ParseTokens;
    if ts == [] {
      NoTokens(uri);
    } else {
      var name := WriteName(ts[0].name, uri).text;
      var rest := WriteTokens(ts[1..], uri).text;
      TokensRoundTrip(ts[1..], uri);
      NameRoundTrip(ts[0].name, uri, rest);
      TokenThen(name, rest, uri, ts[0].name, Reindexed(ts[1..]));
    }
  }

  lemma NoTokens(uri: bool)
    ensures ParseTokens([], uri) == Parsed([])
  {
  }

  lemma TokenThen(text: Text, rest: Text, uri: bool, name: Name, ts: seq<Token<Byte>>)
    requires NamePiece(text + rest, uri) == Piece(name, |text|) && AtEnd(rest) && ParseTokens(rest, uri) == Parsed(ts)
    ensures var t := [SLASH] + (text + rest);
            AtEnd(t) && ParseTokens(t, uri) == Parsed([Token(name, IndexOf(name))] + ts)
  {
    hide IndexOf, NamePiece, ParseTokens;
    SlashThen(text, rest);
    TokenFirst([SLASH] + (text + rest), uri, name, |text|, ts);
  }

  lemma TokenFirst(t: Text, uri: bool, name: Name, n: nat, ts: seq<Token<Byte>>)
    requires t != [] && AtEnd(t) && NamePiece(t[1..], uri) == Piece(name, n)
    requires 1 + n <= |t| && AtEnd(t[1 + n..]) && ParseTokens(t[1 + n..], uri) == Parsed(ts)
    ensures ParseTokens(t, uri) == Parsed([Token(name, IndexOf(name))] + ts)
  {
    hide IndexOf, NamePiece;
  }

  lemma SlashThen(text: Text, rest: Text)
    ensures var t := [SLASH] + (text + rest); t[1..] == text + rest && t[1 + |text|..] == rest
  {
  }

  /** Writing a name plainly always succeeds, and as a URI fragment exactly when the name is UTF-8. */
  lemma {:induction false} NameIsWritten(name: Name, uri: bool)
    ensures WriteName(name, uri).Written? <==> (uri ==> Utf8Text(name))
    decreases |name|
  {
    hide Decoded, Utf8Text;
    if name == [] {
      EmptyText();
    } else {
      var (w, n) := WritePiece(name, uri);
      Utf8TextStep(name);
      if name[0] <= 0x7F {
        AsciiDecoded(name);
      }
      if Decoded(name, 0).ok {
        DecodedTail(name);
      }
      if w.Written? {
        NameIsWritten(name[n..], uri);
      }
    }
  }

  lemma {:induction false} TokensAreWritten(ts: seq<Token<Byte>>, uri: bool)
    ensures WriteTokens(ts, uri).Written? <==> (uri ==> forall t <- ts :: Utf8Text(t.name))
    decreases |ts|
  {
    hide WriteName, Utf8Text;
    if ts != [] {
      NameIsWritten(ts[0].name, uri);
      TokensAreWritten(ts[1..], uri);
      assert ts == [ts[0]] + ts[1..];
    }
  }

  /**
   Parse undoes Stringify. The plain form takes names of any bytes; the URI fragment takes exactly those whose
   names are UTF-8. Only the indices may differ, and not if they are those of the names.
   */
  lemma StringifyThenParse(ts: seq<Token<Byte>>, uri: bool)
    ensures Stringify(ts, uri).Written? <==> (uri ==> forall t <- ts :: Utf8Text(t.name))
    ensures Stringify(ts, uri).Written? ==> Parse(Stringify(ts, uri).text) == Parsed(Reindexed(ts))
  {
    hide WriteTokens, ParseTokens, Utf8Text;
    TokensAreWritten(ts, uri);
    if WriteTokens(ts, uri).Written? {
      TokensRoundTrip(ts, uri);
      var w := WriteTokens(ts, uri).text;
      assert ([HASH] + w)[1..] == w && w[0..] == w;
    }
  }

  lemma {:induction false} ParsedIndices(t: Text, uri: bool)
    requires AtEnd(t) && ParseTokens(t, uri).Parsed?
    ensures Reindexed(ParseTokens(t, uri).tokens) == ParseTokens(t, uri).tokens
    decreases |t|
  {
    hide IndexOf, NamePiece;
    if t != [] {
      var n := NamePiece(t[1..], uri).length;
      ParsedIndices(t[1 + n..], uri);
    }
  }

  lemma PieceIsUtf8(t: Text)
    requires t != [] && NextPiece(t, true).Piece?
    ensures Utf8Char(NextPiece(t, true).bytes)
  {
    hide Decoded, Triplets, Utf8Two, Utf8Three, Utf8Four;
    if t[0] == PERCENT {
      var s := Triplets(t);
      DecodedTail(s);
      assert s[..1] == [s[0]];
    }
  }

  lemma {:induction false} NameIsUtf8(t: Text)
    requires NamePiece(t, true).Piece?
    ensures Utf8Text(NamePiece(t, true).bytes)
    decreases |t|
  {
    hide Utf8Char, NextPiece, Utf8Text;
    if AtEnd(t) {
      EmptyText();
    } else {
      var p := NextPiece(t, true);
      PieceIsUtf8(t);
      NameIsUtf8(t[p.length..]);
      Utf8Joined(p.bytes, NamePiece(t[p.length..], true).bytes);
    }
  }

  lemma {:induction false} ParsedNames(t: Text)
    requires AtEnd(t) && ParseTokens(t, true).Parsed?
    ensures forall token <- ParseTokens(t, true).tokens :: Utf8Text(token.name)
    decreases |t|
  {
    hide IndexOf, NamePiece, Utf8Text;
    if t != [] {
      var n := NamePiece(t[1..], true).length;
      NameIsUtf8(t[1..]);
      ParsedNames(t[1 + n..]);
    }
  }

  /**
   A pointer that came from a text is recovered exactly from the text it is written as: plainly whatever it
   was parsed from, and as a URI fragment if it was parsed from one.
   */
  lemma ParsedIsRecovered(t: Text, uri: bool)
    requires Parse(t).Parsed? && (uri ==> t != [] && t[0] == HASH)
    ensures var w := Stringify(Parse(t).tokens, uri); w.Written? && Parse(w.text) == Parse(t)
  {
    hide ParseTokens, Stringify, Utf8Text;
    var start := if t != [] && t[0] == HASH then 1 else 0;
    ParsedIndices(t[start..], start == 1);
    if uri {
      ParsedNames(t[1..]);
    }
    StringifyThenParse(Parse(t).tokens, uri);
  }
}
