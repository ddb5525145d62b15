/** Bytes, and the digits among them. */
module Ascii {

  type Byte = bv8

  const ZERO: Byte := 0x30
  const NINE: Byte := 0x39

  predicate Digit(c: Byte) {
    ZERO <= c <= NINE
  }

  predicate IsHex(h: Byte) {
    Digit(h) || 0x41 <= h <= 0x46 || 0x61 <= h <= 0x66
  }

  function HexValue(h: Byte): Byte {
    if Digit(h) then h - ZERO else if h <= 0x46 then h - 0x37 else h - 0x57
  }

  function HexDigit(n: Byte): Byte {
    if n <= 9 then ZERO + n else 0x37 + n
  }

  // ---- The digits, one by one -------------------------------------------------------------------

  const HEX_DIGITS: seq<Byte> :=
    [0x30, 0x31, 0x32, 0x33, 0x34, 0x35, 0x36, 0x37, 0x38, 0x39, 0x41, 0x42, 0x43, 0x44, 0x45, 0x46]

  const SMALL_HEX_DIGITS: seq<Byte> :=
    [0x30, 0x31, 0x32, 0x33, 0x34, 0x35, 0x36, 0x37, 0x38, 0x39, 0x61, 0x62, 0x63, 0x64, 0x65, 0x66]

  /** Digit n of either case has the value n, and HexDigit writes the capital one. */
  lemma HexDigitAt(n: nat)
    requires n < 16
    ensures HexDigit(n as Byte) == HEX_DIGITS[n]
    ensures HexValue(HEX_DIGITS[n]) == n as Byte == HexValue(SMALL_HEX_DIGITS[n])
  {
  }

  /** Those digits and no other byte are hexadecimal. */
  lemma HexDigitsAreAll(h: Byte)
    ensures IsHex(h) <==> h in HEX_DIGITS || h in SMALL_HEX_DIGITS
  {
  }

  // ---- Characters -------------------------------------------------------------------------------

  function DigitOf(n: nat): char
    requires n < 10
  {
    ['0', '1', '2', '3', '4', '5', '6', '7', '8', '9'][n]
  }

  /** A number in decimal digits, as u32toa has it. */
  function Decimal(n: nat): (s: string)
    ensures s != ""
  {
    if n < 10 then [DigitOf(n)] else Decimal(n / 10) + [DigitOf(n % 10)]
  }

  /** The bytes of a text; a character of the text is one code unit. */
  function ToBytes(t: string): (b: seq<Byte>)
    ensures |b| == |t|
  {
    seq(|t|, i requires 0 <= i < |t| => (t[i] as int % 0x100) as Byte)
  }

  function ToChars(b: seq<Byte>): (s: string)
    ensures |s| == |b|
  {
    seq(|b|, i requires 0 <= i < |b| => b[i] as char)
  }

  lemma BytesJoined(x: string, y: string)
    ensures ToBytes(x + y) == ToBytes(x) + ToBytes(y)
  {
  }

  lemma CharsJoined(x: seq<Byte>, y: seq<Byte>)
    ensures ToChars(x + y) == ToChars(x) + ToChars(y)
  {
  }

  lemma SmallByte(n: int)
    requires 0 <= n < 0x100
    ensures n % 0x100 == n
  {
  }

  lemma BytesBack(w: seq<Byte>)
    ensures ToBytes(ToChars(w)) == w
  {
    forall i | 0 <= i < |w|
      ensures ToBytes(ToChars(w))[i] == w[i]
    {
      SmallByte(w[i] as int);
    }
  }
}
