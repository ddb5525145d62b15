/**
 Decimal numbers written from their sign, digits and exponent, and what the number parser makes of each of these.
 */
module JsonDecimal {
  import opened JsonTypes
  import opened JsonNumber
  import opened JsonText
  import JsonWritten
  import Ascii

  /** The letter of an exponent with or without a sign, or nothing. */
  datatype Mark = NoMark | Mark(capital: bool, sign: Sign)

  datatype Sign = NoSign | Plus | Minus

  /** A number as section 6 of RFC 8259 has it, with a fraction or an exponent. */
  datatype DecimalText = DecimalText(minus: bool, whole: nat, fraction: string, mark: Mark, exponent: nat)

  predicate IsDecimal(n: DecimalText) {
    (forall c <- n.fraction :: '0' <= c <= '9') && (n.fraction != "" || n.mark.Mark?)
  }

  function MarkText(m: Mark): string {
    match m
    case NoMark => ""
    case Mark(capital, sign) =>
      (if capital then "E" else "e") + match sign case NoSign => "" case Plus => "+" case Minus => "-"
  }

  function SignText(n: DecimalText): string {
    if n.minus then "-" else ""
  }

  function FractionText(n: DecimalText): string {
    if n.fraction == "" then "" else "." + n.fraction
  }

  function ExponentText(n: DecimalText): string {
    if n.mark.NoMark? then "" else MarkText(n.mark) + Ascii.Decimal(n.exponent)
  }

  function Spelling(n: DecimalText): string {
    SignText(n) + Ascii.Decimal(n.whole) + FractionText(n) + ExponentText(n)
  }

  /** Where the parts of a number begin. */
  datatype Parts = Parts(whole: nat, fraction: nat, exponent: nat, end: nat)

  function PartsOf(i: nat, n: DecimalText): Parts {
    var whole := i + |SignText(n)|;
    var fraction := whole + |Ascii.Decimal(n.whole)|;
    var exponent := fraction + |FractionText(n)|;
    Parts(whole, fraction, exponent, exponent + |ExponentText(n)|)
  }

  lemma PartsPlaced(t: Text, i: nat, n: DecimalText)
    requires Has(t, i, Spelling(n))
    ensures var l := PartsOf(i, n);
            && Has(t, i, SignText(n)) && Has(t, l.whole, Ascii.Decimal(n.whole))
            && Has(t, l.fraction, FractionText(n)) && Has(t, l.exponent, ExponentText(n)) && l.end <= |t|
            && l.end == i + |Spelling(n)|
  {
    hide Has, Ascii.Decimal, FractionText, ExponentText, SignText;
    HasParts(t, i, SignText(n) + Ascii.Decimal(n.whole) + FractionText(n), ExponentText(n));
    HasParts(t, i, SignText(n) + Ascii.Decimal(n.whole), FractionText(n));
    HasParts(t, i, SignText(n), Ascii.Decimal(n.whole));
    HasInside(t, PartsOf(i, n).exponent, ExponentText(n));
  }

  /** Digits up to a place where there is none. */
  lemma DigitsUpTo(t: Text, i: nat, j: nat)
    requires i <= j && (forall k :: i <= k < j ==> IsDigit(Peek(t, k))) && !IsDigit(Peek(t, j))
    ensures DigitsEnd(t, i) == j
  {
    DigitsEndFrom(t, i, j);
  }

  lemma PlaceOf(t: Text, i: nat, s: string, k: nat)
    requires Has(t, i, s) && k < |s|
    ensures Peek(t, i + k) == s[k]
  {
    assert t[i + k] == t[i..i + |s|][k];
  }

  // ---- Its parts, one by one --------------------------------------------------------------------

  /** The number is at this place, and nothing of a number behind it. */
  predicate StandsAt(t: Text, i: nat, n: DecimalText) {
    Has(t, i, Spelling(n)) && IsDecimal(n) && DelimitedAt(t, i + |Spelling(n)|)
  }

  lemma BehindNumber(t: Text, i: nat, n: DecimalText)
    requires StandsAt(t, i, n)
    ensures var c := Peek(t, PartsOf(i, n).end);
            !IsDigit(c) && c != '.' && c != 'e' && c != 'E'
  {
    hide Has;
    PartsPlaced(t, i, n);
  }

  lemma DigitsPlaced(t: Text, i: nat, n: nat)
    requires Has(t, i, Ascii.Decimal(n)) && !IsDigit(Peek(t, i + |Ascii.Decimal(n)|))
    ensures IsDigit(Peek(t, i)) && DigitsEnd(t, i) == i + |Ascii.Decimal(n)|
    ensures IntEnd(t, i) == i + |Ascii.Decimal(n)| && Value(t, i, i + |Ascii.Decimal(n)|) == n
  {
    hide Has, Value;
    JsonWritten.DecimalBack(t, i, n);
    PlaceOf(t, i, Ascii.Decimal(n), 0);
    DigitsUpTo(t, i, i + |Ascii.Decimal(n)|);
    if n == 0 {
      assert |Ascii.Decimal(0)| == 1;
    }
  }

  lemma MarkPlaced(t: Text, i: nat, m: Mark, digits: string)
    requires m.Mark? && Has(t, i, MarkText(m) + digits) && digits != "" && IsDigit(digits[0])
    ensures HasExponent(t, i) && !IsDigit(Peek(t, i)) && Peek(t, i) != '.'
    ensures ExponentBegin(t, i) == i + |MarkText(m)| && Has(t, i + |MarkText(m)|, digits)
    ensures Peek(t, i + 1) == '-' <==> m.sign.Minus?
  {
    hide Has;
    var s := MarkText(m) + digits;
    PlaceOf(t, i, s, 0);
    PlaceOf(t, i, s, 1);
    HasParts(t, i, MarkText(m), digits);
  }

  /** The exponent, or what stands in its place. */
  lemma ExponentPlaced(t: Text, i: nat, n: DecimalText)
    requires StandsAt(t, i, n)
    ensures var c := PartsOf(i, n).exponent;
            && !IsDigit(Peek(t, c)) && Peek(t, c) != '.' && (HasExponent(t, c) <==> n.mark.Mark?)
            && (n.mark.Mark? ==>
                  var x := ExponentBegin(t, c);
                  && IsDigit(Peek(t, x)) && DigitsEnd(t, x) == PartsOf(i, n).end
                  && Value(t, x, DigitsEnd(t, x)) == n.exponent && (Peek(t, c + 1) == '-' <==> n.mark.sign.Minus?))
  {
    hide Has, Value, Ascii.Decimal, MarkText, ExponentBegin, DigitsEnd;
    PartsPlaced(t, i, n);
    BehindNumber(t, i, n);
    var c := PartsOf(i, n).exponent;
    if n.mark.Mark? {
      FirstIsDigit(n.exponent);
      MarkPlaced(t, c, n.mark, Ascii.Decimal(n.exponent));
      DigitsPlaced(t, c + |MarkText(n.mark)|, n.exponent);
    }
  }

  lemma {:induction false} FirstIsDigit(n: nat)
    ensures IsDigit(Ascii.Decimal(n)[0])
    decreases n
  {
    if n >= 10 {
      FirstIsDigit(n / 10);
    }
  }

  lemma PointPlaced(t: Text, i: nat, fraction: string)
    requires fraction != "" && (forall c <- fraction :: '0' <= c <= '9') && Has(t, i, "." + fraction)
    requires !IsDigit(Peek(t, i + 1 + |fraction|))
    ensures Peek(t, i) == '.' && IsDigit(Peek(t, i + 1)) && DigitsEnd(t, i + 1) == i + 1 + |fraction|
    ensures forall k :: 0 <= k < |fraction| ==> Peek(t, i + 1 + k) == fraction[k]
  {
    hide Has;
    PlaceOf(t, i, "." + fraction, 0);
    forall k | 0 <= k < |fraction|
      ensures Peek(t, i + 1 + k) == fraction[k] && IsDigit(fraction[k])
    {
      PlaceOf(t, i, "." + fraction, k + 1);
      assert fraction[k] in fraction;
    }
    forall k | i + 1 <= k < i + 1 + |fraction|
      ensures IsDigit(Peek(t, k))
    {
      assert Peek(t, i + 1 + (k - i - 1)) == fraction[k - i - 1];
    }
    DigitsUpTo(t, i + 1, i + 1 + |fraction|);
  }

  lemma FractionPlaced(t: Text, i: nat, n: DecimalText)
    requires StandsAt(t, i, n)
    ensures var l := PartsOf(i, n);
            && !IsDigit(Peek(t, l.fraction)) && (Peek(t, l.fraction) == '.' <==> n.fraction != "")
            && FractionEnd(t, l.fraction) == l.exponent
            && (n.fraction != "" ==>
                  && IsDigit(Peek(t, l.fraction + 1)) && DigitsEnd(t, l.fraction + 1) == l.exponent
                  && forall k :: 0 <= k < |n.fraction| ==> Peek(t, l.fraction + 1 + k) == n.fraction[k])
  {
    hide Has, Ascii.Decimal, ExponentText, DigitsEnd, HasExponent;
    PartsPlaced(t, i, n);
    ExponentPlaced(t, i, n);
    if n.fraction != "" {
      PointPlaced(t, PartsOf(i, n).fraction, n.fraction);
    }
  }

  lemma SignPlaced(t: Text, i: nat, n: DecimalText)
    requires StandsAt(t, i, n)
    ensures IntBegin(t, i) == PartsOf(i, n).whole && (Peek(t, i) == '-' <==> n.minus)
  {
    hide Has, Ascii.Decimal, ExponentText, FractionText;
    PartsPlaced(t, i, n);
    FirstIsDigit(n.whole);
    if n.minus {
      PlaceOf(t, i, "-", 0);
    } else {
      PlaceOf(t, i, Ascii.Decimal(n.whole), 0);
    }
  }

  lemma WholePlaced(t: Text, i: nat, n: DecimalText)
    requires StandsAt(t, i, n)
    ensures var l := PartsOf(i, n);
            && IsDigit(Peek(t, l.whole)) && IntEnd(t, l.whole) == l.fraction
            && (forall k :: l.whole <= k < l.fraction ==> IsDigit(Peek(t, k)))
            && Value(t, l.whole, l.fraction) == n.whole
  {
    hide Has, Ascii.Decimal, ExponentText, FractionText, DigitsEnd, Value;
    PartsPlaced(t, i, n);
    FractionPlaced(t, i, n);
    DigitsPlaced(t, PartsOf(i, n).whole, n.whole);
  }

  /** It is a decimal by its shape, up to its end. */
  lemma DecimalShape(t: Text, i: nat, n: DecimalText)
    requires StandsAt(t, i, n)
    ensures ShapeOf(t, i) == Decimal(PartsOf(i, n).end)
  {
    hide StandsAt, IntBegin, IntEnd, FractionEnd, HasExponent, ExponentBegin, DigitsEnd, Value, PartsOf, Peek;
    SignPlaced(t, i, n);
    WholePlaced(t, i, n);
    FractionPlaced(t, i, n);
    ExponentPlaced(t, i, n);
    PartsApart(t, i, n);
  }

  lemma PartsApart(t: Text, i: nat, n: DecimalText)
    requires StandsAt(t, i, n)
    ensures n.mark.NoMark? ==> PartsOf(i, n).end == PartsOf(i, n).exponent > PartsOf(i, n).fraction
  {
    hide Has, Ascii.Decimal;
  }

  // ---- What it means ----------------------------------------------------------------------------

  /** The digits of the whole part and the first `k` of the fraction, as one number. */
  function Leading(n: DecimalText, k: nat): nat
    requires IsDecimal(n) && k <= |n.fraction|
  {
    n.whole * Pow10(k) + FractionValue(n.fraction, k)
  }

  /** The number the first `k` digits stand for. */
  function FractionValue(digits: string, k: nat): nat
    requires k <= |digits| && forall c <- digits :: '0' <= c <= '9'
  {
    if k == 0 then 0
    else
      assert digits[k - 1] in digits;
      FractionValue(digits, k - 1) * 10 + (digits[k - 1] as nat - '0' as nat)
  }

  lemma FractionDigits(t: Text, i: nat, n: DecimalText, k: nat)
    requires StandsAt(t, i, n) && n.fraction != "" && k <= |n.fraction|
    ensures var l := PartsOf(i, n);
            forall q :: l.whole <= q < l.fraction + 1 + k ==> q == l.fraction || IsDigit(Peek(t, q))
  {
    hide StandsAt, PartsOf, Value, Peek;
    var l := PartsOf(i, n);
    WholePlaced(t, i, n);
    FractionPlaced(t, i, n);
    StandsDecimal(t, i, n);
    forall q | l.fraction < q < l.fraction + 1 + k
      ensures IsDigit(Peek(t, q))
    {
      assert Peek(t, l.fraction + 1 + (q - l.fraction - 1)) == n.fraction[q - l.fraction - 1];
      assert n.fraction[q - l.fraction - 1] in n.fraction;
    }
  }

  lemma LeadingNext(n: DecimalText, k: nat)
    requires IsDecimal(n) && 0 < k <= |n.fraction|
    ensures IsDigit(n.fraction[k - 1])
    ensures Leading(n, k) == Leading(n, k - 1) * 10 + DigitValue(n.fraction[k - 1])
  {
    assert n.fraction[k - 1] in n.fraction;
    assert n.whole * (Pow10(k - 1) * 10) == n.whole * Pow10(k - 1) * 10;
  }

  lemma {:induction false} JoinedMeans(t: Text, i: nat, n: DecimalText, k: nat)
    requires StandsAt(t, i, n) && n.fraction != "" && k <= |n.fraction|
    ensures var l := PartsOf(i, n);
            && l.whole <= l.fraction && IsDecimal(n)
            && (forall q :: l.whole <= q < l.fraction + 1 + k ==> q == l.fraction || IsDigit(Peek(t, q)))
            && JsonNumber.Joined(t, l.whole, l.fraction, l.fraction + 1 + k) == Leading(n, k)
    decreases k
  {
    hide StandsAt, PartsOf, Value, Leading, Peek, IsDecimal;
    FractionDigits(t, i, n, k);
    StandsDecimal(t, i, n);
    PartsInOrder(i, n);
    WholePlaced(t, i, n);
    if k > 0 {
      FractionPlaced(t, i, n);
      JoinedMeans(t, i, n, k - 1);
      LeadingNext(n, k);
      assert Peek(t, PartsOf(i, n).fraction + 1 + (k - 1)) == n.fraction[k - 1];
    } else {
      LeadingOfNone(n);
    }
  }

  lemma StandsDecimal(t: Text, i: nat, n: DecimalText)
    requires StandsAt(t, i, n)
    ensures IsDecimal(n)
  {
  }

  lemma PartsInOrder(i: nat, n: DecimalText)
    ensures PartsOf(i, n).whole <= PartsOf(i, n).fraction
  {
  }

  /** The significand is that of the whole part and of some digits of the fraction, which the power of ten counts. */
  lemma SignificandMeans(t: Text, i: nat, n: DecimalText, d: real, expFrac: int, used: nat)
    requires StandsAt(t, i, n) && SignificandIs(t, PartsOf(i, n).whole, d, expFrac, used)
    ensures IsDecimal(n) && 0 <= -expFrac <= |n.fraction| && d == Leading(n, -expFrac) as real
  {
    hide StandsAt, PartsOf, Value, Leading, JsonNumber.Joined, DigitsEnd;
    var l := PartsOf(i, n);
    StandsDecimal(t, i, n);
    WholePlaced(t, i, n);
    FractionPlaced(t, i, n);
    if n.fraction != "" {
      FractionLength(i, n);
      JoinedMeans(t, i, n, used - (l.fraction + 1));
    } else {
      LeadingOfNone(n);
    }
  }

  lemma FractionLength(i: nat, n: DecimalText)
    requires n.fraction != ""
    ensures PartsOf(i, n).exponent == PartsOf(i, n).fraction + 1 + |n.fraction|
  {
  }

  lemma LeadingOfNone(n: DecimalText)
    requires IsDecimal(n)
    ensures Leading(n, 0) == n.whole
  {
  }

  /** The power of ten of the exponent: exact unless it is so far below zero that the number is zero anyhow. */
  predicate PowerMeans(n: DecimalText, expFrac: int, exp: int) {
    match n.mark
    case NoMark => exp == 0
    case Mark(_, sign) =>
      var written: int := n.exponent;
      if sign.Minus? then
        var most := (expFrac + 2147483639) / 10;
        exp == -written || (written > most && -written <= exp < -most)
      else exp == written
  }

  lemma ExponentMeans(t: Text, i: nat, n: DecimalText, expFrac: int, exp: int)
    requires StandsAt(t, i, n) && ExponentIs(t, PartsOf(i, n).exponent, expFrac, exp)
    ensures PowerMeans(n, expFrac, exp)
  {
    hide StandsAt, PartsOf, Value, HasExponent, ExponentBegin, DigitsEnd;
    ExponentPlaced(t, i, n);
  }

  /** Too big, or the sign, the digits up to some digit of the fraction, and the power of ten at that digit. */
  predicate DecimalIs(i: nat, n: DecimalText, r: Outcome, k: nat) {
    && IsDecimal(n) && k <= |n.fraction|
    && (r == Failed(TooBig, i) ||
        (r.DoubleEvent? && r.minus == n.minus && r.next == i + |Spelling(n)| && r.d == Leading(n, k) as real
         && PowerMeans(n, 0 - k, r.p + k)))
  }

  lemma OutcomeIs(t: Text, i: nat, n: DecimalText, r: Outcome, d: real, p: int, expFrac: int, used: nat)
    requires StandsAt(t, i, n) && SignificandIs(t, PartsOf(i, n).whole, d, expFrac, used)
    requires r == Failed(TooBig, i) ||
             (ExponentIs(t, PartsOf(i, n).exponent, expFrac, p - expFrac)
              && r == DoubleEvent(Peek(t, i) == '-', d, p, PartsOf(i, n).end))
    ensures expFrac <= 0 && DecimalIs(i, n, r, -expFrac)
  {
    hide StandsAt, PartsOf, SignificandIs, ExponentIs, Leading, IsDecimal, PowerMeans, Spelling;
    StandsInside(t, i, n);
    SignPlaced(t, i, n);
    SignificandMeans(t, i, n, d, expFrac, used);
    if r != Failed(TooBig, i) {
      ExponentMeans(t, i, n, expFrac, p - expFrac);
    }
  }

  /** The number parser on a number with a fraction or an exponent, wherever it stands. */
  method ReadDecimal(t: Text, i: nat, n: DecimalText, tooBig: (real, int) -> bool)
    returns (r: Outcome, ghost k: nat)
    requires StandsAt(t, i, n) && ZerosFit(t, i)
    ensures DecimalIs(i, n, r, k)
  {
    hide StandsAt, PartsOf, Value, ZerosFit, SignificandIs, ExponentIs, ExponentTooBig, IntegerEvent, IntEnd,
      FractionEnd, IntBegin, ShapeOf, DecimalIs, Peek;
    StandsInside(t, i, n);
    DecimalShape(t, i, n);
    SignPlaced(t, i, n);
    WholePlaced(t, i, n);
    FractionPlaced(t, i, n);
    ghost var d, p, expFrac, used;
    r, d, p, expFrac, used := JsonNumber.ParseNumber(t, i, tooBig);
    OutcomeIs(t, i, n, r, d, p, expFrac, used);
    k := -expFrac;
  }

  lemma StandsInside(t: Text, i: nat, n: DecimalText)
    requires StandsAt(t, i, n)
    ensures i <= |t| && PartsOf(i, n).end == i + |Spelling(n)|
  {
    PartsPlaced(t, i, n);
  }
}
