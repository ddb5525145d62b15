/**
 The array index that the name of a JSON Pointer token stands for, computed in 32 bits.
 */
module PointerIndex {
  import opened Ascii
  import opened PointerTree

  type Name = seq<Byte>

  predicate Digits(name: Name) {
    forall c <- name :: Digit(c)
  }

  /** A decimal numeral without leading zeros. */
  predicate Numeral(name: Name) {
    name != [] && Digits(name) && (|name| > 1 ==> name[0] != ZERO)
  }

  function DigitValue(c: Byte): (d: nat)
    requires Digit(c)
    ensures d <= 9
  {
    (c - ZERO) as nat
  }

  function Value(name: Name): nat
    requires Digits(name)
  {
    if name == [] then 0 else Value(name[..|name| - 1]) * 10 + DigitValue(name[|name| - 1])
  }

  /** SizeType is 32 bits wide. */
  const WIDTH: nat := 0x1_0000_0000

  /** The conversion loop: the value so far may wrap, and the loop gives up when it sees it drop. */
  function Converted(name: Name, j: nat, n: nat): nat
    requires Digits(name) && j <= |name|
    decreases |name| - j
  {
    if j == |name| then n
    else
      var m := (n * 10 + DigitValue(name[j])) % WIDTH;
      if m < n then INVALID_INDEX else Converted(name, j + 1, m)
  }

  function IndexOf(name: Name): nat {
    if Numeral(name) then Converted(name, 0, 0) else INVALID_INDEX
  }

  // ---- When the index is right ------------------------------------------------------------------

  /** What the documentation says: the value, unless the name is no numeral or the value is out of bounds. */
  function Documented(name: Name): nat {
    if Numeral(name) && Value(name) < INVALID_INDEX then Value(name) else INVALID_INDEX
  }

  predicate DropsAt(name: Name, k: nat)
    requires Digits(name) && k < |name|
  {
    Value(name[..k + 1]) % WIDTH < Value(name[..k]) % WIDTH
  }

  /** Reading the numeral digit by digit, its value modulo 2^32 gets smaller somewhere. */
  predicate Drops(name: Name)
    requires Digits(name)
  {
    exists k | 0 <= k < |name| :: DropsAt(name, k)
  }

  lemma WrapStep(a: nat, d: nat)
    ensures (a % WIDTH * 10 + d) % WIDTH == (a * 10 + d) % WIDTH
  {
    var q := a / WIDTH;
    assert a == q * WIDTH + a % WIDTH;
    assert a * 10 + d == (a % WIDTH * 10 + d) + (q * 10) * WIDTH;
    ModPlus(a % WIDTH * 10 + d, q * 10);
  }

  lemma {:induction false} ModPlus(x: nat, q: nat)
    ensures (x + q * WIDTH) % WIDTH == x % WIDTH
  {
    if q > 0 {
      ModPlus(x, q - 1);
      assert x + q * WIDTH == (x + (q - 1) * WIDTH) + WIDTH;
    }
  }

  lemma ValueStep(name: Name, j: nat)
    requires Digits(name) && j < |name|
    ensures Value(name[..j + 1]) == Value(name[..j]) * 10 + DigitValue(name[j])
  {
    assert name[..j + 1][..j] == name[..j];
  }

  lemma DropsThen(name: Name, k: nat)
    requires Digits(name) && k < |name|
    ensures DropsAt(name, k) <==> Value(name[..k + 1]) % WIDTH < Value(name[..k]) % WIDTH
  {
  }

  lemma {:induction false} ConvertedFrom(name: Name, j: nat)
    requires Digits(name) && j <= |name|
    ensures Converted(name, j, Value(name[..j]) % WIDTH) ==
              if exists k | j <= k < |name| :: DropsAt(name, k) then INVALID_INDEX else Value(name) % WIDTH
    decreases |name| - j
  {
    hide DropsAt, Value;
    if j == |name| {
      assert name[..j] == name;
    } else {
      DropsThen(name, j);
      ValueStep(name, j);
      WrapStep(Value(name[..j]), DigitValue(name[j]));
      if !DropsAt(name, j) {
        ConvertedFrom(name, j + 1);
        assert (exists k | j <= k < |name| :: DropsAt(name, k)) <==>
               (exists k | j + 1 <= k < |name| :: DropsAt(name, k));
      }
    }
  }

  lemma {:induction false} PrefixIsLess(name: Name, k: nat)
    requires Digits(name) && k <= |name|
    ensures Value(name[..k]) <= Value(name)
    decreases |name|
  {
    if k < |name| {
      var front := name[..|name| - 1];
      PrefixIsLess(front, k);
      assert front[..k] == name[..k];
    } else {
      assert name[..k] == name;
    }
  }

  /**
   The index is the documented one exactly when the value fits in 32 bits, or some digit made the wrapped
   value drop, or it wrapped onto the invalid index itself.
   */
  lemma IndexIsDocumented(name: Name)
    requires Numeral(name)
    ensures IndexOf(name) == if Drops(name) then INVALID_INDEX else Value(name) % WIDTH
    ensures Value(name) < WIDTH ==> !Drops(name)
    ensures IndexOf(name) == Documented(name) <==>
              Value(name) < WIDTH || Drops(name) || Value(name) % WIDTH == INVALID_INDEX
  {
    hide DropsAt, Digits, Value, Converted;
    NoDigits(name);
    ConvertedFrom(name, 0);
    if Value(name) < WIDTH {
      SmallNeverDrops(name);
    }
  }

  lemma NoDigits(name: Name)
    requires Digits(name)
    ensures Value(name[..0]) == 0
  {
  }

  lemma SmallNeverDrops(name: Name)
    requires Digits(name) && Value(name) < WIDTH
    ensures !Drops(name)
  {
    forall k | 0 <= k < |name| ensures !DropsAt(name, k) {
      NoDropBelow(name, k);
    }
  }

  lemma NoDropBelow(name: Name, k: nat)
    requires Digits(name) && Value(name) < WIDTH && k < |name|
    ensures !DropsAt(name, k)
  {
    hide Value;
    ValueStep(name, k);
    PrefixIsLess(name, k + 1);
    SmallModulo(Value(name[..k]));
    SmallModulo(Value(name[..k + 1]));
  }

  lemma SmallModulo(x: nat)
    requires x < WIDTH
    ensures x % WIDTH == x
  {
  }

  function PowerOfTen(n: nat): nat {
    if n == 0 then 1 else PowerOfTen(n - 1) * 10
  }

  /** A one with `n` zeros. */
  function OneAndZeros(n: nat): (name: Name)
    ensures Numeral(name) && |name| == n + 1
  {
    seq(n + 1, k => if k == 0 then ZERO + 1 else ZERO)
  }

  lemma {:induction false} ValueOfOneAndZeros(n: nat)
    ensures Value(OneAndZeros(n)) == PowerOfTen(n)
  {
    if n == 0 {
      assert Value([]) == 0;
      assert OneAndZeros(0)[..0] == [];
    } else {
      ValueOfOneAndZeros(n - 1);
      assert OneAndZeros(n)[..n] == OneAndZeros(n - 1);
    }
  }

  /** 10000000000 gets past the test: it is taken for 1410065408. */
  lemma WrapNotSeen()
    ensures var name := OneAndZeros(10);
            Value(name) == 10_000_000_000 && IndexOf(name) == 1_410_065_408 && Documented(name) == INVALID_INDEX
  {
    hide DropsAt, Digits, Value, Converted, OneAndZeros;
    var name := OneAndZeros(10);
    Powers();
    ValueOfOneAndZeros(10);
    forall k | 0 <= k < |name| ensures !DropsAt(name, k) {
      PowersRise(k);
    }
    IndexIsDocumented(name);
  }

  lemma PowersRise(k: nat)
    requires k <= 10
    ensures !DropsAt(OneAndZeros(10), k)
  {
    hide Value, PowerOfTen;
    var name := OneAndZeros(10);
    if k == 0 {
      NoDigits(name);
    } else {
      PowerRises(k);
      ValueOfOneAndZeros(k - 1);
      assert name[..k] == OneAndZeros(k - 1);
    }
    ValueOfOneAndZeros(k);
    assert name[..k + 1] == OneAndZeros(k);
  }

  lemma PowerRises(k: nat)
    requires 1 <= k <= 10
    ensures PowerOfTen(k) % WIDTH >= PowerOfTen(k - 1) % WIDTH
  {
    hide PowerOfTen;
    Powers();
    PowerOfZero();
  }

  lemma PowerOfZero()
    ensures PowerOfTen(0) == 1
  {
  }

  lemma Powers()
    ensures PowerOfTen(1) == 10 && PowerOfTen(2) == 100 && PowerOfTen(3) == 1_000 && PowerOfTen(4) == 10_000
    ensures PowerOfTen(5) == 100_000 && PowerOfTen(6) == 1_000_000 && PowerOfTen(7) == 10_000_000
    ensures PowerOfTen(8) == 100_000_000 && PowerOfTen(9) == 1_000_000_000 && PowerOfTen(10) == 10_000_000_000
  {
    assert PowerOfTen(5) == 100_000;
  }

  // ---- Tokens apart -----------------------------------------------------------------------------

  lemma {:induction false} NumeralsApart(a: Name, b: Name)
    requires Numeral(a) && Numeral(b) && Value(a) == Value(b)
    ensures a == b
    decreases |a| + |b|
  {
    var i, j := |a| - 1, |b| - 1;
    AtLeastTen(a);
    AtLeastTen(b);
    assert Value(a) == Value(a[..i]) * 10 + DigitValue(a[i]);
    assert Value(b) == Value(b[..j]) * 10 + DigitValue(b[j]);
    assert a[i] == b[j];
    if |a| > 1 && |b| > 1 {
      NumeralsApart(a[..i], b[..j]);
      assert a == a[..i] + [a[i]] && b == b[..j] + [b[j]];
    }
  }

  lemma {:induction false} AtLeastTen(a: Name)
    requires Numeral(a)
    ensures |a| > 1 <==> Value(a) >= 10
    ensures a != [ZERO] ==> Value(a) > 0
  {
    assert Value(a[..0]) == 0;
    if |a| > 1 {
      AtLeastTen(a[..|a| - 1]);
    }
  }

  /** The token, its name in the code units of the tree. */
  function ToStep(name: Name): Step {
    Token(ToChars(name), IndexOf(name))
  }

  lemma CharsApart(a: Name, b: Name)
    requires ToChars(a) == ToChars(b)
    ensures a == b
  {
    forall i | 0 <= i < |a| ensures a[i] == b[i] {
      assert ToChars(a)[i] == ToChars(b)[i];
    }
  }

  /** Pointers whose numerals fit in 32 bits meet what the laws of Set ask for. */
  lemma StepsAreApart(ts: seq<Name>, us: seq<Name>)
    requires forall name <- ts + us :: Numeral(name) ==> Value(name) < WIDTH
    ensures var ss, rs := seq(|ts|, i requires 0 <= i < |ts| => ToStep(ts[i])),
            seq(|us|, i requires 0 <= i < |us| => ToStep(us[i]));
            Proper(ss) && Alike(ss, rs)
  {
    var ss, rs := seq(|ts|, i requires 0 <= i < |ts| => ToStep(ts[i])),
        seq(|us|, i requires 0 <= i < |us| => ToStep(us[i]));
    forall t | t in ss ensures Dash(t) ==> !Indexes(t) {
      var i :| 0 <= i < |ts| && t == ToStep(ts[i]);
      if Dash(t) {
        assert ToChars(ts[i])[0] == '-';
      }
    }
    forall i, j | 0 <= i < |ts| && 0 <= j < |us| && ss[i] != rs[j] ensures AreApart(ss[i], rs[j]) {
      StepsApart(ts[i], us[j]);
    }
  }

  lemma StepsApart(a: Name, b: Name)
    requires Numeral(a) ==> Value(a) < WIDTH
    requires Numeral(b) ==> Value(b) < WIDTH
    ensures ToStep(a) != ToStep(b) ==> AreApart(ToStep(a), ToStep(b))
  {
    if ToChars(a) == ToChars(b) {
      CharsApart(a, b);
    }
    if IndexOf(a) == IndexOf(b) != INVALID_INDEX {
      IndexIsDocumented(a);
      IndexIsDocumented(b);
      NumeralsApart(a, b);
    }
  }
}
