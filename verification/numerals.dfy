/** Positional numerals: the reference every integer printer and parser is measured against. */
module Numerals {
  import opened Arithmetic

  function Pow(b: nat, e: nat): nat {
    if e == 0 then 1 else b * Pow(b, e - 1)
  }

  /** The digits of `n` in base `b`, most significant first, without leading zeros; `[0]` for zero. */
  function Digits(n: nat, b: nat): (ds: seq<nat>)
    requires b >= 2
    ensures |ds| >= 1
    ensures forall i | 0 <= i < |ds| :: ds[i] < b
    decreases n
  {
    if n < b then [n]
    else
      QuotientShrinks(n, b);
      Digits(n / b, b) + [n % b]
  }

  function Value(ds: seq<nat>, b: nat): nat {
    if ds == [] then 0 else Value(ds[..|ds| - 1], b) * b + ds[|ds| - 1]
  }

  lemma {:induction false} ValueOfDigits(n: nat, b: nat)
    requires b >= 2
    ensures Value(Digits(n, b), b) == n
    decreases n
  {
    if n >= b {
      var q, r := QuotientAndRest(n, b);
      ValueOfDigits(q, b);
      ValueStep(Digits(q, b), r, b, q);
    } else {
      assert [n][..0] == [];
    }
  }

  lemma QuotientAndRest(n: nat, b: nat) returns (q: nat, r: nat)
    requires b >= 2 && n >= b
    ensures 1 <= q < n && r < b && n == q * b + r
    ensures Digits(n, b) == Digits(q, b) + [r]
  {
    q, r := n / b, n % b;
    QuotientShrinks(n, b);
    DivModIdentity(n, b);
  }

  lemma ValueStep(init: seq<nat>, last: nat, b: nat, v: nat)
    requires Value(init, b) == v
    ensures Value(init + [last], b) == v * b + last
  {
    assert (init + [last])[..|init|] == init;
  }

  /** Minimal: no leading zero unless the number is a single digit. */
  lemma {:induction false} DigitsMinimal(n: nat, b: nat)
    requires b >= 2
    ensures |Digits(n, b)| == 1 || Digits(n, b)[0] != 0
  {
    if n >= b {
      var q, r := QuotientAndRest(n, b);
      DigitsMinimal(q, b);
    }
  }

  /** `Digits` gives the only numeral without leading zeros that has the given value. */
  lemma {:induction false} DigitsUnique(ds: seq<nat>, b: nat)
    requires b >= 2 && |ds| >= 1 && (forall i | 0 <= i < |ds| :: ds[i] < b)
    requires |ds| == 1 || ds[0] != 0
    ensures ds == Digits(Value(ds, b), b)
  {
    var init, last := ds[..|ds| - 1], ds[|ds| - 1];
    if |ds| > 1 {
      DigitsUnique(init, b);
      PositiveValue(init, b);
      SmallMultiple(Value(init, b), b);
      QuotientUnique(Value(ds, b), b, Value(init, b), last);
    } else {
      assert init == [];
      assert ds == [last];
    }
  }

  lemma {:induction false} PositiveValue(ds: seq<nat>, b: nat)
    requires b >= 2 && |ds| >= 1 && ds[0] != 0
    ensures Value(ds, b) >= 1
  {
    if |ds| > 1 {
      PositiveValue(ds[..|ds| - 1], b);
    }
  }

  /** How many digits a number has is how many powers of the base it reaches. */
  lemma {:induction false} DigitCountBounds(n: nat, b: nat)
    requires b >= 2
    ensures n < Pow(b, |Digits(n, b)|)
    ensures n >= 1 ==> Pow(b, |Digits(n, b)| - 1) <= n
    decreases n
  {
    if n < b {
      assert Pow(b, 0) == 1 && Pow(b, 1) == b;
    } else {
      QuotientShrinks(n, b);
      DigitCountBounds(n / b, b);
      OneMoreDigit(n, b, |Digits(n / b, b)|);
    }
  }

  lemma OneMoreDigit(n: nat, b: nat, k: nat)
    requires b >= 2 && k >= 1 && Pow(b, k - 1) <= n / b < Pow(b, k)
    ensures Pow(b, k) <= n < Pow(b, k + 1)
  {
    Scale(n, b, Pow(b, k - 1), Pow(b, k));
  }

  lemma Scale(n: nat, b: nat, low: nat, high: nat)
    requires b >= 1 && low <= n / b < high
    ensures b * low <= n < b * high
  {
    DivModIdentity(n, b);
    ProductMonotone(low, n / b, b);
    ProductMonotone(n / b + 1, high, b);
    assert (n / b + 1) * b == (n / b) * b + b;
  }

  lemma {:induction false} PowMonotone(b: nat, i: nat, j: nat)
    requires b >= 2 && i <= j
    ensures 1 <= Pow(b, i) <= Pow(b, j)
    decreases j
  {
    if i < j {
      PowMonotone(b, i, j - 1);
    } else if i > 0 {
      PowMonotone(b, i - 1, i - 1);
    }
  }

  /** The bounds pin the digit count down. */
  lemma DigitCountUnique(n: nat, b: nat, k: nat)
    requires b >= 2 && k >= 1 && n < Pow(b, k) && (k == 1 || Pow(b, k - 1) <= n)
    ensures |Digits(n, b)| == k
  {
    var d := |Digits(n, b)|;
    DigitCountBounds(n, b);
    if d < k {
      PowMonotone(b, d, k - 1);
    } else if k < d && n >= 1 {
      PowMonotone(b, k, d - 1);
    }
  }

  // ---- text --------------------------------------------------------------------------------

  function DigitChar(d: nat, upper: bool): char
    requires d < 16
  {
    if d < 10 then '0' + d as char
    else if upper then 'A' + (d - 10) as char
    else 'a' + (d - 10) as char
  }

  function Text(ds: seq<nat>, upper: bool): (t: string)
    requires forall i | 0 <= i < |ds| :: ds[i] < 16
    ensures |t| == |ds|
    ensures forall i | 0 <= i < |t| :: t[i] == DigitChar(ds[i], upper)
  {
    seq(|ds|, i requires 0 <= i < |ds| => DigitChar(ds[i], upper))
  }

  /** The numeral of `n` as the printers should write it. */
  function Numeral(n: nat, b: nat, upper: bool): (t: string)
    requires 2 <= b <= 16
    ensures |t| == |Digits(n, b)|
  {
    Text(Digits(n, b), upper)
  }

  function Decimal(n: nat): (t: string)
    ensures |t| == |Digits(n, 10)|
  {
    Numeral(n, 10, false)
  }

  lemma NumeralStep(n: nat, b: nat, upper: bool)
    requires 2 <= b <= 16
    ensures n < b ==> Numeral(n, b, upper) == [DigitChar(n, upper)]
    ensures n >= b ==> Numeral(n, b, upper) == Numeral(n / b, b, upper) + [DigitChar(n % b, upper)]
  {
  }

  /** Different numbers have different numerals. */
  lemma DecimalInjective(m: nat, n: nat)
    requires Decimal(m) == Decimal(n)
    ensures m == n
  {
    var a, b := Digits(m, 10), Digits(n, 10);
    forall i | 0 <= i < |a| ensures a[i] == b[i] {
      assert Decimal(m)[i] == DigitChar(a[i], false) && Decimal(n)[i] == DigitChar(b[i], false);
    }
    assert a == b;
    ValueOfDigits(m, 10);
    ValueOfDigits(n, 10);
  }
}
