/**
 The number parser of the JSON reader: which kind of number a literal becomes and with what value, the significand and
 the exponent that are converted to a double otherwise, and the widths of the integers it computes with.
 */
module JsonNumber {
  import opened JsonTypes

  const TWO32: nat := 0x1_0000_0000
  const TWO64: nat := 0x1_0000_0000_0000_0000
  const INT_MIN: int := -0x8000_0000
  const INT_MAX: int := 0x7FFF_FFFF

  /** How far below zero the power of ten of a fraction may be for exponents to stay within 32 bits. */
  const PLUS_LIMIT: int := 214748055
  const MINUS_LIMIT: int := 2147483549

  /** At most so many digits, behind the zeros of a number below one, go into the significand. */
  const TAKEN: int := 34

  predicate IsInt(x: int) {
    INT_MIN <= x <= INT_MAX
  }

  // ---- The grammar of section 6 of RFC 8259 -----------------------------------------------------

  predicate IsDigit(c: char) {
    '0' <= c <= '9'
  }

  function DigitValue(c: char): (d: nat)
    requires IsDigit(c)
    ensures d <= 9
  {
    c as int - '0' as int
  }

  function DigitsEnd(t: Text, i: nat): (j: nat)
    ensures i <= j && (i <= |t| ==> j <= |t|)
    ensures forall k :: i <= k < j ==> IsDigit(Peek(t, k))
    ensures !IsDigit(Peek(t, j))
    decreases if i <= |t| then |t| - i else 0
  {
    if i < |t| && IsDigit(t[i]) then DigitsEnd(t, i + 1) else i
  }

  /** The value of the digits from `i` up to `j`. */
  function Value(t: Text, i: nat, j: nat): nat
    requires i <= j && forall k :: i <= k < j ==> IsDigit(Peek(t, k))
    decreases j
  {
    if i == j then 0 else Value(t, i, j - 1) * 10 + DigitValue(Peek(t, j - 1))
  }

  function ZerosEnd(t: Text, i: nat): (j: nat)
    ensures i <= j && (i <= |t| ==> j <= |t|) && forall k :: i <= k < j ==> Peek(t, k) == '0'
    ensures Peek(t, j) != '0'
    decreases if i <= |t| then |t| - i else 0
  {
    if i < |t| && t[i] == '0' then ZerosEnd(t, i + 1) else i
  }

  /** The zeros between the point, at `b`, of a number below one and its first other digit. */
  function LeadingZeros(t: Text, a: nat, b: nat): nat
    requires a <= b && forall k :: a <= k < b ==> IsDigit(Peek(t, k))
  {
    if Value(t, a, b) == 0 then ZerosEnd(t, b + 1) - (b + 1) else 0
  }

  /** The zeros right behind the point, for the integer at `a`. */
  function FractionZeros(t: Text, a: nat): nat {
    var b := IntEnd(t, a);
    if Peek(t, b) == '.' then LeadingZeros(t, a, b) else 0
  }

  /** Each step of the conversion of a positive exponent, until it is found too big, stays within 32 bits. */
  predicate PlusFits(t: Text, x: nat, expFrac: int) {
    && IsInt(308 - expFrac)
    && forall s :: x < s < DigitsEnd(t, x) && Value(t, x, s) <= 308 - expFrac ==> IsInt(Value(t, x, s + 1))
  }

  /** The arithmetic on the exponent stays within 32 bits. */
  predicate ExponentFits(t: Text, c: nat, expFrac: int) {
    if HasExponent(t, c) && Peek(t, c + 1) != '-' then PlusFits(t, ExponentBegin(t, c), expFrac)
    else expFrac >= -MINUS_LIMIT
  }

  /** So it does for the least power of ten that the zeros of the fraction may lead to. */
  predicate ZerosFit(t: Text, start: nat) {
    var a := IntBegin(t, start);
    ExponentFits(t, FractionEnd(t, IntEnd(t, a)), -(FractionZeros(t, a) + TAKEN))
  }

  function Pow10(k: nat): (n: nat)
    ensures n > 0
  {
    if k == 0 then 1 else Pow10(k - 1) * 10
  }

  lemma {:induction false} Pow10Grows(i: nat, j: nat)
    requires i <= j
    ensures Pow10(i) <= Pow10(j)
    decreases j
  {
    if i < j {
      Pow10Grows(i, j - 1);
    }
  }

  /** A number of 64 bits has at most 20 digits, and one below ten times 2^53 at most 17. */
  lemma FewDigits(k: nat, n: nat)
    requires Pow10(k) <= n
    ensures n < TWO64 ==> k <= 19
    ensures n < 10 * (FAST_PATH + 1) ==> k <= 16
  {
    assert Pow10(5) == 100000;
    assert Pow10(10) == 10000000000;
    assert Pow10(15) == 1000000000000000;
    assert Pow10(17) == 100000000000000000;
    assert Pow10(20) == 100000000000000000000;
    if k >= 20 {
      Pow10Grows(20, k);
    }
    if k >= 17 {
      Pow10Grows(17, k);
    }
  }

  function IntBegin(t: Text, start: nat): nat {
    if Peek(t, start) == '-' then start + 1 else start
  }

  /** A zero stands alone. */
  function IntEnd(t: Text, a: nat): (b: nat)
    ensures a <= b && (a <= |t| ==> b <= |t|)
    ensures forall k :: a <= k < b ==> IsDigit(Peek(t, k))
  {
    if Peek(t, a) == '0' then a + 1 else DigitsEnd(t, a)
  }

  function FractionEnd(t: Text, b: nat): nat {
    if Peek(t, b) == '.' then DigitsEnd(t, b + 1) else b
  }

  predicate HasExponent(t: Text, c: nat) {
    Peek(t, c) == 'e' || Peek(t, c) == 'E'
  }

  function ExponentBegin(t: Text, c: nat): nat {
    if Peek(t, c + 1) == '+' || Peek(t, c + 1) == '-' then c + 2 else c + 1
  }

  // ---- What a number becomes --------------------------------------------------------------------

  datatype ErrorCode = NoNumber | MissFraction | MissExponent | TooBig

  /** The integer events by their kinds, the significand and the power of ten of a double, or an error. */
  datatype Outcome =
    | IntEvent(value: int, next: nat)
    | UintEvent(value: int, next: nat)
    | Int64Event(value: int, next: nat)
    | Uint64Event(value: int, next: nat)
    | DoubleEvent(minus: bool, d: real, p: int, next: nat)
    | Failed(code: ErrorCode, offset: nat)

  /** The event for an integer literal: the narrowest kind for its sign that holds its value, or else a double. */
  function IntegerEvent(minus: bool, n: int, next: nat): Outcome {
    if minus then
      if n <= 0x8000_0000 then IntEvent(-n, next)
      else if n <= 0x8000_0000_0000_0000 then Int64Event(-n, next)
      else DoubleEvent(true, n as real, 0, next)
    else
      if n < TWO32 then UintEvent(n, next)
      else if n < TWO64 then Uint64Event(n, next)
      else DoubleEvent(false, n as real, 0, next)
  }

  /** Two's complement: what a negated unsigned number is as a signed one. */
  function Negated(u: int, width: int): int
    requires 0 <= u < width
  {
    var r := (width - 1 - u + 1) % width;
    if r < width / 2 then r else r - width
  }

  lemma NegatedIsMinus(u: int, width: int)
    requires 0 <= 2 * u <= width && width % 2 == 0 && 0 < width
    ensures Negated(u, width) == -u
  {
    var h := width / 2;
    assert width == 2 * h;
    if u == 0 {
      ModSelf(width);
    } else {
      ModSmall(width - u, width);
    }
  }

  lemma ModSmall(x: int, w: int)
    requires 0 <= x < w
    ensures x % w == x
  {
  }

  lemma ModSelf(w: int)
    requires 0 < w
    ensures w % w == 0
  {
  }

  /** The digits of the fraction, up to `j`, that went into the significand. */
  predicate Significand(t: Text, a: nat, b: nat, j: nat, d: real, expFrac: int) {
    && a <= b < j
    && (forall k :: a <= k < b ==> IsDigit(Peek(t, k)))
    && (forall k :: b + 1 <= k < j ==> IsDigit(Peek(t, k)))
    && d == Joined(t, a, b, j) as real && expFrac == -(j - (b + 1))
  }

  /** The value of the digits of the integer and of the fraction up to `j`, without the decimal point. */
  function Joined(t: Text, a: nat, b: nat, j: nat): nat
    requires a <= b < j && forall k :: a <= k < j ==> k == b || IsDigit(Peek(t, k))
    decreases j
  {
    if j == b + 1 then Value(t, a, b) else Joined(t, a, b, j - 1) * 10 + DigitValue(Peek(t, j - 1))
  }

  // ---- The parser -------------------------------------------------------------------------------

  /** The digits of the integer in 32 bits, until they do not fit. */
  method ParseInt32(t: Text, a: nat, minus: bool) returns (i: nat, use64bit: bool, s: nat, significandDigit: int)
    requires a < |t| && '1' <= t[a] <= '9'
    ensures a < s <= DigitsEnd(t, a) <= |t| && 0 <= significandDigit <= 19 && i >= Pow10(significandDigit)
    ensures (forall k :: a <= k < s ==> IsDigit(Peek(t, k))) && i == Value(t, a, s) < TWO32
    ensures minus ==> i <= 0x8000_0000
    ensures !use64bit ==> s == DigitsEnd(t, a)
    ensures use64bit ==>
              IsDigit(Peek(t, s)) && i * 10 + DigitValue(Peek(t, s)) > if minus then 0x8000_0000 else TWO32 - 1
  {
    var limit, last := if minus then 214748364 else 429496729, if minus then '8' else '5';
    i := DigitValue(t[a]);
    s := a + 1;
    use64bit := false;
    significandDigit := 0;
    assert Value(t, a, s) == Value(t, a, a) * 10 + i;
    while IsDigit(Peek(t, s))
      invariant a < s <= |t| && 0 <= significandDigit <= 19 && i >= Pow10(significandDigit)
      invariant forall k :: a <= k < s ==> IsDigit(Peek(t, k))
      invariant i == Value(t, a, s) && i <= if minus then 0x8000_0000 else TWO32 - 1
      invariant DigitsEnd(t, a) == DigitsEnd(t, s)
      decreases |t| - s
    {
      if i >= limit {
        if i != limit || Peek(t, s) > last {
          use64bit := true;
          return;
        }
      }
      i := i * 10 + DigitValue(Peek(t, s));
      significandDigit := significandDigit + 1;
      FewDigits(significandDigit, i);
      s := s + 1;
    }
  }

  /** The digits of the integer in 64 bits, from where 32 were not enough. */
  method ParseInt64(t: Text, a: nat, minus: bool, i: nat, start: nat, digits: int)
    returns (i64: nat, useDouble: bool, s: nat, significandDigit: int)
    requires a < start <= DigitsEnd(t, a) <= |t| && 0 <= digits <= 19 && i >= Pow10(digits)
    requires (forall k :: a <= k < start ==> IsDigit(Peek(t, k))) && i == Value(t, a, start)
    requires i < TWO32 && (minus ==> i <= 0x8000_0000)
    ensures start <= s <= DigitsEnd(t, a) && 0 <= significandDigit <= 19
    ensures (forall k :: a <= k < s ==> IsDigit(Peek(t, k))) && i64 == Value(t, a, s) < TWO64
    ensures minus ==> i64 <= 0x8000_0000_0000_0000
    ensures !useDouble ==> s == DigitsEnd(t, a)
    ensures useDouble ==>
              && IsDigit(Peek(t, s))
              && i64 * 10 + DigitValue(Peek(t, s)) > if minus then 0x8000_0000_0000_0000 else TWO64 - 1
  {
    var limit, last := if minus then 0x0CCC_CCCC_CCCC_CCCC else 0x1999_9999_9999_9999, if minus then '8' else '5';
    i64, s, useDouble, significandDigit := i, start, false, digits;
    DigitsEndFrom(t, a, start);
    while IsDigit(Peek(t, s))
      invariant start <= s <= |t| && 0 <= significandDigit <= 19 && i64 >= Pow10(significandDigit)
      invariant forall k :: a <= k < s ==> IsDigit(Peek(t, k))
      invariant i64 == Value(t, a, s) && i64 <= if minus then 0x8000_0000_0000_0000 else TWO64 - 1
      invariant DigitsEnd(t, a) == DigitsEnd(t, s)
      decreases |t| - s
    {
      if i64 >= limit {
        if i64 != limit || Peek(t, s) > last {
          useDouble := true;
          return;
        }
      }
      i64 := i64 * 10 + DigitValue(Peek(t, s));
      significandDigit := significandDigit + 1;
      FewDigits(significandDigit, i64);
      s := s + 1;
    }
  }

  lemma {:induction false} DigitsEndFrom(t: Text, a: nat, s: nat)
    requires a <= s && forall k :: a <= k < s ==> IsDigit(Peek(t, k))
    ensures DigitsEnd(t, a) == DigitsEnd(t, s)
    decreases s - a
  {
    if a < s {
      assert IsDigit(Peek(t, a));
      DigitsEndFrom(t, a + 1, s);
    }
  }

  /** More digits do not make a value smaller. */
  lemma {:induction false} ValueGrows(t: Text, a: nat, s: nat, e: nat)
    requires a <= s <= e && forall k :: a <= k < e ==> IsDigit(Peek(t, k))
    ensures Value(t, a, s) <= Value(t, a, e)
    decreases e
  {
    if s < e {
      ValueGrows(t, a, s, e - 1);
    }
  }

  datatype Significant = Int32(i: nat) | Int64(i64: nat) | Big(d: real)

  function AsReal(n: Significant): real {
    match n
    case Int32(i) => i as real
    case Int64(i) => i as real
    case Big(d) => d
  }

  /** A value, exactly, in the narrowest width that holds it. */
  predicate Narrowest(n: Significant, minus: bool, v: nat) {
    match n
    case Int32(i) => i == v < TWO32 && (minus ==> v <= 0x8000_0000)
    case Int64(i) => i == v < TWO64 && v > (if minus then 0x8000_0000 else TWO32 - 1) &&
        (minus ==> v <= 0x8000_0000_0000_0000)
    case Big(d) => d == v as real && v > if minus then 0x8000_0000_0000_0000 else TWO64 - 1
  }

  /** The integer part: its value, exactly, in the narrowest width that holds it. */
  method ParseInteger(t: Text, a: nat, minus: bool) returns (n: Significant, s: nat, significandDigit: int)
    requires a < |t| && IsDigit(t[a])
    ensures s == IntEnd(t, a) && 0 <= significandDigit <= 19
    ensures Narrowest(n, minus, Value(t, a, s))
  {
    if t[a] == '0' {
      assert Value(t, a, a + 1) == Value(t, a, a) * 10;
      return Int32(0), a + 1, 0;
    }
    var i, use64bit;
    i, use64bit, s, significandDigit := ParseInt32(t, a, minus);
    var end := DigitsEnd(t, a);
    if !use64bit {
      return Int32(i), s, significandDigit;
    }
    ghost var first := s;
    DigitsEndFrom(t, a, s);
    assert Value(t, a, first + 1) == i * 10 + DigitValue(Peek(t, first));
    ValueGrows(t, a, first + 1, end);
    var i64, useDouble;
    i64, useDouble, s, significandDigit := ParseInt64(t, a, minus, i, s, significandDigit);
    if !useDouble {
      return Int64(i64), s, significandDigit;
    }
    ghost var second := s;
    DigitsEndFrom(t, a, s);
    assert Value(t, a, second + 1) == i64 * 10 + DigitValue(Peek(t, second));
    ValueGrows(t, a, second + 1, end);
    var d;
    d, s := ParseBig(t, a, i64, s);
    n := Big(d);
  }

  /** The digits of an integer too big for 64 bits. */
  method ParseBig(t: Text, a: nat, i64: nat, start: nat) returns (d: real, s: nat)
    requires a <= start <= |t| && (forall k :: a <= k < start ==> IsDigit(Peek(t, k))) && i64 == Value(t, a, start)
    ensures s == DigitsEnd(t, a) && d == Value(t, a, s) as real
  {
    DigitsEndFrom(t, a, start);
    s, d := start, i64 as real;
    while IsDigit(Peek(t, s))
      invariant a <= s <= |t| && DigitsEnd(t, a) == DigitsEnd(t, s)
      invariant forall k :: a <= k < s ==> IsDigit(Peek(t, k))
      invariant d == Value(t, a, s) as real
      decreases |t| - s
    {
      d := d * 10.0 + DigitValue(Peek(t, s)) as real;
      s := s + 1;
    }
  }

  // ---- Fraction and exponent --------------------------------------------------------------------

  const FAST_PATH: nat := 0x1F_FFFF_FFFF_FFFF

  /**
   The fraction, behind its point. Digits go into the significand while it is below 2^53, if it was an integer, and
   then until there are 17 significant ones; any more are skipped.
   */
  method ParseFraction(t: Text, ghost a: nat, b: nat, n: Significant, digits: int)
    returns (d: real, expFrac: int, s: nat, ghost used: nat)
    requires a < b < |t| && IsDigit(Peek(t, b + 1)) && 0 <= digits <= 19
    requires (forall k :: a <= k < b ==> IsDigit(Peek(t, k)))
    requires AsReal(n) == Value(t, a, b) as real && (n.Big? ==> n.d > 0.0)
    ensures s == DigitsEnd(t, b + 1) && -(LeadingZeros(t, a, b) + TAKEN) <= expFrac <= 0
    ensures b + 1 <= used <= s && Significand(t, a, b, used, d, expFrac)
  {
    var significandDigit := digits;
    s, expFrac := b + 1, 0;
    if n.Big? {
      d := n.d;
    } else {
      var i64;
      i64, s, significandDigit := FastFraction(t, a, b, if n.Int32? then n.i else n.i64, digits);
      expFrac := -(s - (b + 1));
      d := i64 as real;
    }
    d, expFrac, s, used := SlowFraction(t, a, b, s, d, significandDigit);
  }

  /** The digits that go into 64 bits: the zeros of a number below one, and at most 17 more. */
  method FastFraction(t: Text, ghost a: nat, b: nat, n: nat, digits: int)
    returns (i64: nat, s: nat, significandDigit: int)
    requires a < b < |t| && 0 <= digits <= 19
    requires (forall k :: a <= k < b ==> IsDigit(Peek(t, k))) && n == Value(t, a, b)
    ensures b + 1 <= s <= |t| && (forall k :: b + 1 <= k < s ==> IsDigit(Peek(t, k)))
    ensures s - (b + 1) <= LeadingZeros(t, a, b) + 17
    ensures i64 == Joined(t, a, b, s) && 0 <= significandDigit <= digits + 17
    ensures IsDigit(Peek(t, s)) ==> i64 > FAST_PATH
  {
    hide FewZeros, Joined, LeadingZeros;
    i64, s, significandDigit := n, b + 1, digits;
    ghost var k: nat := 0;
    FastBegins(t, a, b, n);
    while IsDigit(Peek(t, s)) && i64 <= FAST_PATH
      invariant b + 1 <= s <= |t| && 0 <= significandDigit <= digits + k
      invariant forall k :: b + 1 <= k < s ==> IsDigit(Peek(t, k))
      invariant i64 == Joined(t, a, b, s) && FewZeros(t, a, b, s, i64, k)
      decreases |t| - s
    {
      FastStep(t, a, b, s, i64, k);
      i64 := i64 * 10 + DigitValue(Peek(t, s));
      assert i64 < TWO64;
      k := if i64 == 0 then 0 else k + 1;
      s := s + 1;
      if i64 != 0 {
        significandDigit := significandDigit + 1;
      }
    }
    FastEnds(t, a, b, s, i64, k);
  }

  /** Of the digits up to `s`, all are leading zeros but `k`, of which the significand `n` has grown. */
  predicate FewZeros(t: Text, a: nat, b: nat, s: nat, n: nat, k: nat)
    requires a < b < s && forall k :: a <= k < b ==> IsDigit(Peek(t, k))
  {
    && k <= 17
    && if n == 0 then k == 0 && Value(t, a, b) == 0 && ZerosEnd(t, b + 1) == ZerosEnd(t, s)
       else s - (b + 1) == LeadingZeros(t, a, b) + k && Pow10(k) <= n * 10
  }

  lemma FastBegins(t: Text, a: nat, b: nat, n: nat)
    requires a < b < |t| && (forall k :: a <= k < b ==> IsDigit(Peek(t, k))) && n == Value(t, a, b)
    ensures FewZeros(t, a, b, b + 1, n, 0) && n == Joined(t, a, b, b + 1)
  {
    assert Pow10(0) == 1;
  }

  lemma FastStep(t: Text, a: nat, b: nat, s: nat, n: nat, k: nat)
    requires a < b < s < |t| && (forall k :: a <= k < b ==> IsDigit(Peek(t, k))) && IsDigit(Peek(t, s))
    requires (forall k :: b + 1 <= k < s ==> IsDigit(Peek(t, k))) && n == Joined(t, a, b, s)
    requires FewZeros(t, a, b, s, n, k) && n <= FAST_PATH
    ensures var n' := n * 10 + DigitValue(Peek(t, s));
            && FewZeros(t, a, b, s + 1, n', if n' == 0 then 0 else k + 1) && n' == Joined(t, a, b, s + 1)
            && (n' == 0 ==> k == 0)
  {
    if n > 0 {
      FewDigits(k, n * 10);
    } else {
      assert Pow10(1) == 10;
      assert Peek(t, s) != '0' ==> ZerosEnd(t, s) == s;
    }
  }

  lemma FastEnds(t: Text, a: nat, b: nat, s: nat, n: nat, k: nat)
    requires a < b < s <= |t| && (forall k :: a <= k < b ==> IsDigit(Peek(t, k))) && FewZeros(t, a, b, s, n, k)
    ensures s - (b + 1) <= LeadingZeros(t, a, b) + 17 && k <= 17
  {
  }

  method SlowFraction(t: Text, ghost a: nat, b: nat, start: nat, d0: real, digits: int)
    returns (d: real, expFrac: int, s: nat, ghost used: nat)
    requires a < b < start <= |t| && 0 <= digits <= 36
    requires (forall k :: a <= k < b ==> IsDigit(Peek(t, k)))
    requires (forall k :: b + 1 <= k < start ==> IsDigit(Peek(t, k)))
    requires d0 == Joined(t, a, b, start) as real && (IsDigit(Peek(t, start)) ==> d0 > 0.0)
    ensures s == DigitsEnd(t, b + 1) && start <= used <= s && used <= start + 17
    ensures Significand(t, a, b, used, d, expFrac)
  {
    var significandDigit := digits;
    DigitsEndFrom(t, b + 1, start);
    s, d, expFrac, used := start, d0, -(start - (b + 1)), start;
    while IsDigit(Peek(t, s))
      invariant start <= used <= s <= |t| && expFrac == -(used - (b + 1))
      invariant used - start <= significandDigit <= 36 && (significandDigit <= 17 || used == start)
      invariant DigitsEnd(t, b + 1) == DigitsEnd(t, s)
      invariant forall k :: b + 1 <= k < s ==> IsDigit(Peek(t, k))
      invariant d == Joined(t, a, b, used) as real && (IsDigit(Peek(t, s)) ==> d > 0.0)
      invariant used == s || significandDigit >= 17
      decreases |t| - s
    {
      if significandDigit < 17 {
        d := d * 10.0 + DigitValue(Peek(t, s)) as real;
        expFrac := expFrac - 1;
        used := used + 1;
        if d > 0.0 {
          significandDigit := significandDigit + 1;
        }
      }
      s := s + 1;
    }
  }

  /**
   With a positive exponent the 32-bit arithmetic is safe exactly down to this power of ten: beyond it,
   one more digit can leave 32 bits before the exponent is found too big.
   */
  lemma PlusLimit(expFrac: int)
    requires expFrac <= 0
    ensures (forall exp, d :: 0 <= exp <= 308 - expFrac && 0 <= d <= 9 ==> IsInt(NextDigit(exp, d))) <==>
              expFrac >= -PLUS_LIMIT
  {
    if expFrac < -PLUS_LIMIT {
      assert !IsInt(NextDigit(214748364, 9));
    }
  }

  /** Down to that power of ten every exponent fits, whatever digits it has. */
  lemma PlusLimitFits(t: Text, x: nat, expFrac: int)
    requires -PLUS_LIMIT <= expFrac <= 0
    ensures PlusFits(t, x, expFrac)
  {
    PlusLimit(expFrac);
    forall s | x < s < DigitsEnd(t, x) && Value(t, x, s) <= 308 - expFrac ensures IsInt(Value(t, x, s + 1)) {
      assert Value(t, x, s + 1) == NextDigit(Value(t, x, s), DigitValue(Peek(t, s)));
    }
  }

  /** An exponent that fits for some power of ten fits for every larger one. */
  lemma PlusFitsMore(t: Text, x: nat, low: int, expFrac: int)
    requires low <= expFrac <= 0 && PlusFits(t, x, low)
    ensures PlusFits(t, x, expFrac)
  {
  }

  /**
   With a negative exponent it is safe exactly down to this one: the loop does not look at the first digit
   before it takes a second one.
   */
  lemma MinusLimit(expFrac: int)
    requires -2147483639 <= expFrac <= 0
    ensures (forall exp, d :: 0 <= exp <= MinusBound(expFrac) && 0 <= d <= 9 ==>
               IsInt(-NextDigit(exp, d) + expFrac)) <==>
              expFrac >= -MINUS_LIMIT
  {
    if expFrac < -MINUS_LIMIT {
      assert !IsInt(-NextDigit(9, 9) + expFrac);
    }
  }

  /** The largest exponent to which a digit may be added: one digit, or what the source tests for. */
  function MinusBound(expFrac: int): int {
    var maxExp := (expFrac + 2147483639) / 10;
    if maxExp < 9 then 9 else maxExp
  }

  /** In a text of fewer than 2^27 characters all fractions fit. */
  lemma ShortTextFits(t: Text, start: nat)
    requires start <= |t| < 0x800_0000
    ensures ZerosFit(t, start)
  {
    var a := IntBegin(t, start);
    var b := IntEnd(t, a);
    ZerosInside(t, a);
    PlusLimitFits(t, ExponentBegin(t, FractionEnd(t, b)), -(FractionZeros(t, a) + TAKEN));
  }

  lemma ZerosInside(t: Text, a: nat)
    requires a <= |t| + 1
    ensures FractionZeros(t, a) <= |t|
  {
    hide Value;
  }

  const MANY_ZEROS: nat := 214748055

  /** A number below one with so many zeros behind its point that its power of ten is one too low. */
  function LongFraction(): Text {
    ['0', '.'] + seq(MANY_ZEROS, _ => '0') + "1e2147483649"
  }

  lemma {:induction false} ZerosEndFrom(t: Text, i: nat, s: nat)
    requires i <= s && forall k :: i <= k < s ==> Peek(t, k) == '0'
    ensures ZerosEnd(t, i) == ZerosEnd(t, s)
    decreases s - i
  {
    if i < s {
      assert Peek(t, i) == '0';
      ZerosEndFrom(t, i + 1, s);
    }
  }

  /** Its exponent leaves 32 bits: 214748364 is not yet too big, and the next digit makes it 2147483649. */
  lemma LongFractionFails()
    ensures var t, c := LongFraction(), MANY_ZEROS + 3;
            && FractionZeros(t, 0) == MANY_ZEROS && FractionEnd(t, IntEnd(t, 0)) == c && HasExponent(t, c)
            && !PlusFits(t, ExponentBegin(t, c), -(MANY_ZEROS + 1)) && !ZerosFit(t, 0)
  {
    hide LongFraction, PlusFits, Value;
    var t, c := LongFraction(), MANY_ZEROS + 3;
    LongFractionText();
    LongFractionParts(t);
    BigExponent(t, c + 1);
    var low := -(MANY_ZEROS + TAKEN);
    if PlusFits(t, c + 1, low) {
      PlusFitsMore(t, c + 1, low, -(MANY_ZEROS + 1));
    }
  }

  predicate LongFractionIs(t: Text) {
    var c := MANY_ZEROS + 3;
    && |t| == c + 11 && t[0] == '0' && t[1] == '.' && t[c - 1] == '1' && t[c] == 'e' && t[c + 1] == '2'
    && forall k :: 2 <= k < c - 1 ==> t[k] == '0'
  }

  lemma LongFractionText()
    ensures LongFractionIs(LongFraction()) && LongFraction()[MANY_ZEROS + 4..] == "2147483649"
  {
    var tail, head := "1e2147483649", ['0', '.'] + seq(MANY_ZEROS, _ => '0');
    assert LongFraction() == head + tail && |head| == MANY_ZEROS + 2 && |tail| == 12;
    assert LongFraction()[MANY_ZEROS + 4..] == tail[2..] == "2147483649";
  }

  lemma LongFractionParts(t: Text)
    requires LongFractionIs(t)
    ensures var c := MANY_ZEROS + 3;
            && IntBegin(t, 0) == 0 && IntEnd(t, 0) == 1 && FractionEnd(t, 1) == c && HasExponent(t, c)
            && ExponentBegin(t, c) == c + 1 && Peek(t, c + 1) == '2' && FractionZeros(t, 0) == MANY_ZEROS
  {
    hide Value;
    var c := MANY_ZEROS + 3;
    ZerosEndFrom(t, 2, c - 1);
    DigitsEndFrom(t, 2, c);
    ZeroValue(t);
  }

  lemma ZeroValue(t: Text)
    requires Peek(t, 0) == '0'
    ensures Value(t, 0, 1) == 0
  {
    assert Value(t, 0, 0) == 0;
  }

  lemma BigExponent(t: Text, x: nat)
    requires x + 10 == |t| && t[x..] == "2147483649"
    ensures !PlusFits(t, x, -(MANY_ZEROS + 1))
  {
    assert forall k :: 0 <= k < 10 ==> t[x + k] == t[x..][k];
    DigitsEndFrom(t, x, x + 10);
    assert Value(t, x, x) == 0 && Value(t, x, x + 1) == 2 && Value(t, x, x + 2) == 21 && Value(t, x, x + 3) == 214;
    assert Value(t, x, x + 4) == 2147 && Value(t, x, x + 5) == 21474 && Value(t, x, x + 6) == 214748;
    assert Value(t, x, x + 7) == 2147483 && Value(t, x, x + 8) == 21474836 && Value(t, x, x + 9) == 214748364;
    assert Value(t, x, x + 10) == 2147483649;
  }

  function NextDigit(exp: int, d: int): int {
    exp * 10 + d
  }

  /** The digits of a negative exponent; once it is out of range the rest of them do not count. */
  method ParseNegativeExponent(t: Text, x: nat, expFrac: int) returns (exp: int, s: nat)
    requires x < |t| && IsDigit(t[x]) && -MINUS_LIMIT <= expFrac <= 0
    ensures s == DigitsEnd(t, x) && 0 <= exp && IsInt(-exp + expFrac)
    ensures var maxExp := (expFrac + 2147483639) / 10;
            var v := Value(t, x, s);
            if v <= maxExp then exp == v else maxExp < exp <= v
  {
    exp := DigitValue(t[x]);
    s := x + 1;
    assert Value(t, x, s) == Value(t, x, x) * 10 + exp;
    var maxExp := (expFrac + 2147483639) / 10;
    ghost var counted := s;
    while IsDigit(Peek(t, s))
      invariant x < counted <= s <= |t| && DigitsEnd(t, x) == DigitsEnd(t, s)
      invariant forall k :: x <= k < s ==> IsDigit(Peek(t, k))
      invariant exp == Value(t, x, counted) && 0 <= exp <= maxExp * 10 + 9
      invariant if exp <= maxExp then counted == s else !IsDigit(Peek(t, s))
      decreases |t| - s
    {
      exp := exp * 10 + DigitValue(Peek(t, s));
      assert IsInt(exp);
      s := s + 1;
      counted := s;
      if exp > maxExp {
        s := SkipDigits(t, x, s);
      }
    }
    ValueGrows(t, x, counted, s);
  }

  method SkipDigits(t: Text, ghost x: nat, start: nat) returns (s: nat)
    requires x < start <= |t| && DigitsEnd(t, x) == DigitsEnd(t, start)
    ensures s == DigitsEnd(t, x) && start <= s <= |t| && forall k :: start <= k < s ==> IsDigit(Peek(t, k))
  {
    s := start;
    while IsDigit(Peek(t, s))
      invariant start <= s <= |t| && DigitsEnd(t, x) == DigitsEnd(t, s)
      invariant forall k :: start <= k < s ==> IsDigit(Peek(t, k))
      decreases |t| - s
    {
      s := s + 1;
    }
  }

  /** The digits of a positive exponent, or an error as soon as it is too big. */
  method ParsePositiveExponent(t: Text, x: nat, expFrac: int) returns (ok: bool, exp: int, s: nat)
    requires x < |t| && IsDigit(t[x]) && expFrac <= 0 && PlusFits(t, x, expFrac)
    ensures x < s <= DigitsEnd(t, x)
    ensures var v := Value(t, x, DigitsEnd(t, x));
            && (ok ==> s == DigitsEnd(t, x) && exp == v && IsInt(exp + expFrac))
            && (ok <==> v <= 308 - expFrac)
  {
    exp := DigitValue(t[x]);
    s := x + 1;
    assert Value(t, x, s) == Value(t, x, x) * 10 + exp;
    var maxExp := 308 - expFrac;
    while IsDigit(Peek(t, s))
      invariant x < s <= |t| && DigitsEnd(t, x) == DigitsEnd(t, s)
      invariant forall k :: x <= k < s ==> IsDigit(Peek(t, k))
      invariant exp == Value(t, x, s) && 0 <= exp <= maxExp
      decreases |t| - s
    {
      exp := exp * 10 + DigitValue(Peek(t, s));
      assert exp == Value(t, x, s + 1) && IsInt(exp);
      s := s + 1;
      if exp > maxExp {
        ValueGrows(t, x, s, DigitsEnd(t, x));
        return false, exp, s;
      }
    }
    ok := true;
  }

  /** What the text says up to an error, or up to the end of the number. */
  datatype Shape = Malformed(code: ErrorCode, offset: nat) | Integer(next: nat) | Decimal(next: nat)

  /** The grammar: the first error, or where the number ends and whether it has a fraction or an exponent. */
  function ShapeOf(t: Text, start: nat): Shape {
    var a := IntBegin(t, start);
    if !IsDigit(Peek(t, a)) then Malformed(NoNumber, a)
    else
      var b := IntEnd(t, a);
      if Peek(t, b) == '.' && !IsDigit(Peek(t, b + 1)) then Malformed(MissFraction, b + 1)
      else
        var c := FractionEnd(t, b);
        if !HasExponent(t, c) then if b == c then Integer(b) else Decimal(c)
        else
          var x := ExponentBegin(t, c);
          if !IsDigit(Peek(t, x)) then Malformed(MissExponent, x) else Decimal(DigitsEnd(t, x))
  }

  /** The exponent of a double: exact while it is in range, and so far below it otherwise that the value is zero. */
  predicate ExponentIs(t: Text, c: nat, expFrac: int, exp: int) {
    if !HasExponent(t, c) then exp == 0
    else
      var x := ExponentBegin(t, c);
      var v: int := Value(t, x, DigitsEnd(t, x));
      if Peek(t, c + 1) != '-' then exp == v <= 308 - expFrac
      else
        var maxExp := (expFrac + 2147483639) / 10;
        if v <= maxExp then exp == -v else -v <= exp < -maxExp
  }

  predicate ExponentTooBig(t: Text, c: nat, expFrac: int) {
    HasExponent(t, c) && Peek(t, c + 1) != '-' &&
        Value(t, ExponentBegin(t, c), DigitsEnd(t, ExponentBegin(t, c))) > 308 - expFrac
  }

  /** Whether the significand of a decimal is that of its integer and of the fraction up to `used`. */
  ghost predicate SignificandIs(t: Text, a: nat, d: real, expFrac: int, used: nat) {
    var b := IntEnd(t, a);
    if Peek(t, b) == '.' then used <= DigitsEnd(t, b + 1) && Significand(t, a, b, used, d, expFrac)
    else d == Value(t, a, b) as real && expFrac == 0
  }

  /** The integer and the fraction, and whether they have become a double already. */
  datatype Mantissa =
    | Mantissa(n: Significant, useDouble: bool, d: real, expFrac: int, end: nat)
    | BadMantissa(code: ErrorCode, offset: nat)

  method ParseMantissa(t: Text, a: nat, minus: bool) returns (m: Mantissa, ghost used: nat)
    requires a <= |t| + 1
    ensures var b := IntEnd(t, a);
            if !IsDigit(Peek(t, a)) then m == BadMantissa(NoNumber, a)
            else if Peek(t, b) == '.' && !IsDigit(Peek(t, b + 1)) then m == BadMantissa(MissFraction, b + 1)
            else (&& m.Mantissa? && m.end == FractionEnd(t, b) && -(FractionZeros(t, a) + TAKEN) <= m.expFrac <= 0
                  && Narrowest(m.n, minus, Value(t, a, b))
                  && m.useDouble == (m.n.Big? || Peek(t, b) == '.'))
    ensures m.Mantissa? ==> SignificandIs(t, a, m.d, m.expFrac, used)
  {
    hide Significand, Value, Joined, DigitsEnd, Narrowest;
    used := 0;
    if !IsDigit(Peek(t, a)) {
      return BadMantissa(NoNumber, a), used;
    }
    var n, s, significandDigit := ParseInteger(t, a, minus);
    AsRealIs(n, minus, Value(t, a, s));
    if Peek(t, s) != '.' {
      return Mantissa(n, n.Big?, AsReal(n), 0, s), used;
    }
    if !IsDigit(Peek(t, s + 1)) {
      return BadMantissa(MissFraction, s + 1), used;
    }
    var d, expFrac, end;
    d, expFrac, end, used := ParseFraction(t, a, s, n, significandDigit);
    m := Mantissa(n, true, d, expFrac, end);
  }

  lemma AsRealIs(n: Significant, minus: bool, v: nat)
    requires Narrowest(n, minus, v)
    ensures AsReal(n) == v as real && (n.Big? ==> n.d > 0.0)
  {
  }

  /** ParseNumber; `tooBig` says when the conversion of a significand and a power of ten exceeds the doubles. */
  method ParseNumber(t: Text, start: nat, tooBig: (real, int) -> bool)
    returns (r: Outcome, ghost d: real, ghost p: int, ghost expFrac: int, ghost used: nat)
    requires start <= |t| && ZerosFit(t, start)
    ensures var shape := ShapeOf(t, start); shape.Malformed? ==> r == Failed(shape.code, shape.offset)
    ensures var shape := ShapeOf(t, start);
            shape.Integer? ==>
              var e := IntegerEvent(Peek(t, start) == '-', Value(t, IntBegin(t, start), IntEnd(t, IntBegin(t, start))),
                                    shape.next);
              r == if e.DoubleEvent? && tooBig(e.d, 0) then Failed(TooBig, start) else e
    ensures var shape := ShapeOf(t, start);
            shape.Decimal? ==>
              || r == Failed(TooBig, start)
              || (r.DoubleEvent? && r.minus == (Peek(t, start) == '-') && r.next == shape.next && IsInt(r.p) &&
                  !tooBig(r.d, r.p))
    ensures var shape, a := ShapeOf(t, start), IntBegin(t, start);
            var c := FractionEnd(t, IntEnd(t, a));
            shape.Decimal? ==>
              && SignificandIs(t, a, d, expFrac, used)
              && if ExponentTooBig(t, c, expFrac) then r == Failed(TooBig, start)
                 else (&& ExponentIs(t, c, expFrac, p - expFrac)
                       && r == if tooBig(d, p) then Failed(TooBig, start)
                          else DoubleEvent(Peek(t, start) == '-', d, p, shape.next))
  {
    hide ExponentIs, ExponentTooBig, Significand, Value, DigitsEnd, IntegerEvent, IntEnd;
    hide ZerosFit, FractionZeros, ExponentFits;
    d, p, expFrac, used := 0.0, 0, 0, 0;
    var minus := Peek(t, start) == '-';
    var s := if minus then start + 1 else start;
    ghost var a := s;
    var m;
    m, used := ParseMantissa(t, s, minus);
    if m.BadMantissa? {
      return Failed(m.code, m.offset), d, p, expFrac, used;
    }
    s := m.end;
    d, expFrac := m.d, m.expFrac;
    FractionFits(t, start, expFrac);
    var exp := 0;
    if Peek(t, s) == 'e' || Peek(t, s) == 'E' {
      var e;
      e, s := ParseExponent(t, s, m.expFrac);
      if e.BadExponent? {
        return Failed(e.code, if e.code == TooBig then start else s), d, p, expFrac, used;
      }
      exp := e.exp;
    } else {
      NoExponent(t, s, m.expFrac);
    }
    var useDouble := m.useDouble || s != m.end;
    ghost var b := IntEnd(t, a);
    SmallOrBig(minus, Value(t, a, b), b);
    if useDouble {
      var power := exp + m.expFrac;
      assert IsInt(power);
      p := power;
      if tooBig(m.d, power) {
        return Failed(TooBig, start), d, p, expFrac, used;
      }
      r := DoubleEvent(minus, m.d, power, s);
    } else {
      r := SendInteger(m.n, minus, s);
    }
  }

  lemma FractionFits(t: Text, start: nat, expFrac: int)
    requires ZerosFit(t, start) && -(FractionZeros(t, IntBegin(t, start)) + TAKEN) <= expFrac <= 0
    ensures IsInt(expFrac) && ExponentFits(t, FractionEnd(t, IntEnd(t, IntBegin(t, start))), expFrac)
  {
    hide FractionZeros, FractionEnd, IntEnd, IntBegin, Value, DigitsEnd;
  }

  lemma NoExponent(t: Text, c: nat, expFrac: int)
    requires !HasExponent(t, c)
    ensures ExponentIs(t, c, expFrac, 0) && !ExponentTooBig(t, c, expFrac)
  {
  }

  lemma SmallOrBig(minus: bool, n: nat, next: nat)
    ensures if n > (if minus then 0x8000_0000_0000_0000 else TWO64 - 1)
            then IntegerEvent(minus, n, next) == DoubleEvent(minus, n as real, 0, next)
            else !IntegerEvent(minus, n, next).DoubleEvent?
  {
  }

  /** The event of an integer, negated in its own width. */
  method SendInteger(n: Significant, minus: bool, next: nat) returns (r: Outcome)
    requires !n.Big? && exists v: nat :: Narrowest(n, minus, v)
    ensures r == IntegerEvent(minus, if n.Int32? then n.i else n.i64, next)
  {
    hide Negated;
    if n.Int64? {
      if minus {
        NegatedIsMinus(n.i64, TWO64);
        r := Int64Event(Negated(n.i64, TWO64), next);
      } else {
        r := Uint64Event(n.i64, next);
      }
    } else if minus {
      NegatedIsMinus(n.i, TWO32);
      r := IntEvent(Negated(n.i, TWO32), next);
    } else {
      r := UintEvent(n.i, next);
    }
  }

  datatype Exponent = Exponent(exp: int) | BadExponent(code: ErrorCode)

  /** The exponent, from its letter on. */
  method ParseExponent(t: Text, c: nat, expFrac: int) returns (e: Exponent, s: nat)
    requires HasExponent(t, c) && ExponentFits(t, c, expFrac) && expFrac <= 0
    ensures var x := ExponentBegin(t, c);
            if !IsDigit(Peek(t, x)) then e == BadExponent(MissExponent) && s == x
            else if ExponentTooBig(t, c, expFrac) then e == BadExponent(TooBig)
            else e.Exponent? && ExponentIs(t, c, expFrac, e.exp) && IsInt(e.exp + expFrac) && s == DigitsEnd(t, x)
  {
    s := c + 1;
    var expMinus := Peek(t, s) == '-';
    if Peek(t, s) == '+' || Peek(t, s) == '-' {
      s := s + 1;
    }
    if !IsDigit(Peek(t, s)) {
      return BadExponent(MissExponent), s;
    }
    if expMinus {
      var exp;
      exp, s := ParseNegativeExponent(t, s, expFrac);
      e := Exponent(-exp);
    } else {
      var ok, exp;
      ok, exp, s := ParsePositiveExponent(t, s, expFrac);
      e := if ok then Exponent(exp) else BadExponent(TooBig);
    }
  }
}
