/** Counting decimal digits: the leading-zero trick, its 32-bit twin and the portable fallback loop. */
module CountDigits {
  import opened Arithmetic
  import opened Numerals

  function PowersOf10(factor: nat): seq<nat> {
    [factor * 10, factor * 100, factor * 1000, factor * 10000, factor * 100000,
     factor * 1000000, factor * 10000000, factor * 100000000, factor * 1000000000]
  }

  const POWERS_OF_10_32: seq<nat> := [0] + PowersOf10(1)

  const POWERS_OF_10_64: seq<nat> :=
    [0] + PowersOf10(1) + PowersOf10(1000000000) + [1000000000 * 1000000000 * 10]

  /** The number of decimal digits, one for zero. */
  function DigitCount(n: nat): (d: nat)
    ensures d >= 1
  {
    |Digits(n, 10)|
  }

  /** `n | 1` */
  function OrOne(n: nat): nat {
    if n % 2 == 0 then n + 1 else n
  }

  /** `width - clz(n)`: the position of the highest set bit, counted from one. */
  function BitLength(n: nat): nat {
    |Digits(n, 2)|
  }

  /** The table index: `bits * 1233 >> 12`. */
  function TableIndex(bits: nat): nat {
    bits * 1233 / 4096
  }

  // ---- why 1233 / 4096 is close enough to log10(2) -------------------------------------------

  lemma {:induction false} PowAdd(b: nat, i: nat, j: nat)
    ensures Pow(b, i + j) == Pow(b, i) * Pow(b, j)
  {
    if i > 0 {
      PowAdd(b, i - 1, j);
      assert Pow(b, i + j) == b * Pow(b, i + j - 1);
      assert b * (Pow(b, i - 1) * Pow(b, j)) == (b * Pow(b, i - 1)) * Pow(b, j);
    }
  }

  lemma SmallPowers()
    ensures Pow(10, 0) == 1 && Pow(10, 1) == 10 && Pow(10, 2) == 100 && Pow(10, 3) == 1000
    ensures Pow(2, 10) == 1024
    ensures forall r | 0 <= r < 10 :: SmallPowerOfTwo(r)
  {
    assert Pow(2, 4) == 16 && Pow(2, 6) == 64;
    PowAdd(2, 4, 6);
    forall r | 0 <= r < 10 ensures SmallPowerOfTwo(r) {
      if r >= 8 {
        PowAdd(2, 4, r - 4);
      }
    }
  }

  /** How a power of two below 1024 sits between powers of ten, with room to spare above. */
  predicate SmallPowerOfTwo(r: nat) {
    118 * Pow(2, r) <= 100 * Pow(10, Above(r)) && Pow(10, r * 3 / 10) <= Pow(2, r)
  }

  function Above(r: nat): nat {
    if r <= 3 then 1 else if r <= 6 then 2 else 3
  }

  /** A thousand is less than 2^10, so powers of two outgrow the matching powers of ten. */
  lemma {:induction false} TenBelowTwo(k: nat)
    ensures Pow(10, k * 3 / 10) <= Pow(2, k)
  {
    SmallPowers();
    if k < 10 {
      assert SmallPowerOfTwo(k);
    } else {
      TenBelowTwo(k - 10);
      PowAdd(2, 10, k - 10);
      PowAdd(10, 3, (k - 10) * 3 / 10);
      assert 3 + (k - 10) * 3 / 10 == k * 3 / 10;
    }
  }

  /** Each factor 1024 overshoots a factor 1000 by at most three percent of the start. */
  lemma {:induction false} TwoOvershoots(q: nat)
    requires q <= 6
    ensures 100 * Pow(2, 10 * q) <= (100 + 3 * q) * Pow(10, 3 * q)
  {
    SmallPowers();
    if q > 0 {
      TwoOvershoots(q - 1);
      PowAdd(2, 10, 10 * (q - 1));
      PowAdd(10, 3, 3 * (q - 1));
      Overshoot(q - 1, Pow(2, 10 * (q - 1)), Pow(10, 3 * (q - 1)));
    }
  }

  lemma Overshoot(q: nat, two: nat, ten: nat)
    requires q <= 5 && 100 * two <= (100 + 3 * q) * ten
    ensures 100 * (1024 * two) <= (103 + 3 * q) * (1000 * ten)
  {
    ProductMonotone(1024 * (100 + 3 * q), 1000 * (103 + 3 * q), ten);
    assert 1024 * ((100 + 3 * q) * ten) == (1024 * (100 + 3 * q)) * ten;
    assert (103 + 3 * q) * (1000 * ten) == (1000 * (103 + 3 * q)) * ten;
  }

  lemma TwoBelowTen(bits: nat)
    requires bits <= 64
    ensures Pow(2, bits) <= Pow(10, TableIndex(bits) + 1)
  {
    var q, r := bits / 10, bits % 10;
    TwoSplits(q, r);
    IndexHighEnough(bits);
    PowMonotone(10, 3 * q + Above(r), TableIndex(bits) + 1);
  }

  lemma TwoSplits(q: nat, r: nat)
    requires q <= 6 && r < 10
    ensures Pow(2, 10 * q + r) <= Pow(10, 3 * q + Above(r))
  {
    SmallPowers();
    assert SmallPowerOfTwo(r);
    TwoOvershoots(q);
    PowAdd(2, 10 * q, r);
    PowAdd(10, 3 * q, Above(r));
    Chain(Pow(2, 10 * q), Pow(2, r), Pow(10, 3 * q), Pow(10, Above(r)), 100 + 3 * q);
  }

  lemma IndexHighEnough(bits: nat)
    requires bits <= 64
    ensures 3 * (bits / 10) + Above(bits % 10) <= TableIndex(bits) + 1
  {
  }

  lemma Chain(a: nat, b: nat, x: nat, y: nat, f: nat)
    requires 100 * a <= f * x && f <= 118 && 118 * b <= 100 * y
    ensures a * b <= x * y
  {
    var ab, xb, xy := a * b, x * b, x * y;
    ProductMonotone(100 * a, f * x, b);
    Scaled(100, a, b, ab);
    Scaled(f, x, b, xb);
    ProductMonotone(f, 118, xb);
    ProductMonotone(118 * b, 100 * y, x);
    Scaled(118, b, x, xb);
    Scaled(100, y, x, xy);
  }

  lemma Scaled(c: nat, a: nat, b: nat, ab: nat)
    requires ab == a * b || ab == b * a
    ensures (c * a) * b == c * ab
  {
  }

  // ---- the tables ------------------------------------------------------------------------------

  lemma RowIsPowers(i: nat)
    requires i < 9
    ensures PowersOf10(1)[i] == Pow(10, i + 1)
    ensures PowersOf10(1000000000)[i] == Pow(10, i + 10)
  {
    SmallPowers();
    PowAdd(10, 3, 3);
    PowAdd(10, 6, 3);
    if i >= 3 {
      PowAdd(10, 3, i - 2);
    }
    if i >= 6 {
      PowAdd(10, 6, i - 5);
    }
    PowAdd(10, 9, i + 1);
  }

  lemma TableIsPowers(t: nat)
    requires 1 <= t < 20
    ensures |POWERS_OF_10_64| == 20 && POWERS_OF_10_64[t] == Pow(10, t)
    ensures |POWERS_OF_10_32| == 10 && (t < 10 ==> POWERS_OF_10_32[t] == Pow(10, t))
  {
    if t <= 9 {
      RowIsPowers(t - 1);
    } else if t <= 18 {
      RowIsPowers(t - 10);
    } else {
      RowIsPowers(8);
      assert Pow(10, 19) == 10 * Pow(10, 18);
    }
  }

  // ---- the counting functions ------------------------------------------------------------------

  const TWO_TO_64: nat := 0x1_0000_0000_0000_0000
  const TWO_TO_32: nat := 0x1_0000_0000

  lemma WordSizes()
    ensures Pow(2, 32) == TWO_TO_32 && Pow(2, 64) == TWO_TO_64
  {
    assert Pow(2, 8) == 256;
    PowAdd(2, 8, 8);
    PowAdd(2, 16, 16);
    PowAdd(2, 32, 32);
  }

  /** A word of `w` bits has a bit length of at most `w`. */
  lemma BitLengthFits(n: nat, w: nat)
    requires 1 <= w && n < Pow(2, w)
    ensures BitLength(n) <= w
  {
    var k := BitLength(n);
    DigitCountBounds(n, 2);
    if k > w {
      PowMonotone(2, w, k - 1);
    }
  }

  lemma OrOneFits(n: nat, w: nat)
    requires 1 <= w && n < Pow(2, w)
    ensures OrOne(n) < Pow(2, w)
  {
    BelowEven(n, Pow(2, w - 1));
  }

  lemma BelowEven(n: nat, half: nat)
    requires n < 2 * half
    ensures OrOne(n) < 2 * half
  {
  }

  /** Setting the lowest bit does not change the bit length of a positive number. */
  lemma OrOneSameLength(n: nat)
    requires n >= 1
    ensures BitLength(OrOne(n)) == BitLength(n)
  {
    if n % 2 == 0 {
      assert (n + 1) / 2 == n / 2;
    }
  }

  lemma IndexInTable(n: nat)
    ensures n < TWO_TO_64 ==> TableIndex(BitLength(OrOne(n))) < |POWERS_OF_10_64|
    ensures n < TWO_TO_32 ==> TableIndex(BitLength(OrOne(n))) < |POWERS_OF_10_32|
  {
    WordSizes();
    if n < TWO_TO_64 {
      OrOneFits(n, 64);
      BitLengthFits(OrOne(n), 64);
    }
    if n < TWO_TO_32 {
      OrOneFits(n, 32);
      BitLengthFits(OrOne(n), 32);
    }
  }

  /** The 64-bit version. Both versions stay inside their table. */
  function CountDigits64(n: nat): int
    requires n < TWO_TO_64
  {
    var t := TableIndex(BitLength(OrOne(n)));
    IndexInTable(n);
    t - (if n < POWERS_OF_10_64[t] then 1 else 0) + 1
  }

  function CountDigits32(n: nat): int
    requires n < TWO_TO_32
  {
    var t := TableIndex(BitLength(OrOne(n)));
    IndexInTable(n);
    t - (if n < POWERS_OF_10_32[t] then 1 else 0) + 1
  }

  /** The index brackets the digit count: it is one or two less than a power of ten away. */
  lemma IndexBrackets(n: nat)
    requires 1 <= n < TWO_TO_64
    ensures var t := TableIndex(BitLength(OrOne(n)));
      n < Pow(10, t + 1) && (t >= 1 ==> Pow(10, t - 1) <= n)
  {
    var bits := BitLength(n);
    var t := TableIndex(bits);
    OrOneSameLength(n);
    DigitCountBounds(n, 2);
    WordSizes();
    BitLengthFits(n, 64);
    TwoBelowTen(bits);
    if t >= 1 {
      TenBelowTwo(bits - 1);
      PowMonotone(10, t - 1, (bits - 1) * 3 / 10);
    }
  }

  lemma TrickIsDigitCount(n: nat, t: nat)
    requires n < Pow(10, t + 1) && (t >= 1 ==> Pow(10, t - 1) <= n)
    ensures DigitCount(n) == t - (if t >= 1 && n < Pow(10, t) then 1 else 0) + 1
  {
    if t >= 1 && n < Pow(10, t) {
      DigitCountUnique(n, 10, t);
    } else {
      DigitCountUnique(n, 10, t + 1);
    }
  }

  /** The trick gives the digit count for every 64-bit number ... */
  lemma CountDigits64Correct(n: nat)
    requires n < TWO_TO_64
    ensures CountDigits64(n) == DigitCount(n)
  {
    var t := TableIndex(BitLength(OrOne(n)));
    IndexInTable(n);
    if n >= 1 {
      IndexBrackets(n);
      TrickIsDigitCount(n, t);
      if t >= 1 {
        TableIsPowers(t);
      }
    }
  }

  /** ... and, with its shorter table, for every 32-bit number. */
  lemma CountDigits32Correct(n: nat)
    requires n < TWO_TO_32
    ensures CountDigits32(n) == DigitCount(n)
  {
    var t := TableIndex(BitLength(OrOne(n)));
    IndexInTable(n);
    if n >= 1 {
      IndexBrackets(n);
      TrickIsDigitCount(n, t);
      if t >= 1 {
        TableIsPowers(t);
      }
    }
  }

  lemma FourDigits(n: nat)
    ensures n >= 10 ==> DigitCount(n) == 1 + DigitCount(n / 10)
    ensures n >= 10000 ==> DigitCount(n) == 4 + DigitCount(n / 10000)
  {
    if n >= 10000 {
      assert n / 10 / 10 / 10 / 10 == n / 10000;
      assert DigitCount(n / 10) == 1 + DigitCount(n / 10 / 10);
      assert DigitCount(n / 10 / 10) == 1 + DigitCount(n / 10 / 10 / 10);
      assert DigitCount(n / 10 / 10 / 10) == 1 + DigitCount(n / 10 / 10 / 10 / 10);
    }
  }

  /** The fallback used where the compiler has no leading-zero count. */
  method CountDigitsFallback(value: nat) returns (count: nat)
    ensures count == DigitCount(value)
  {
    var n := value;
    count := 1;
    while true
      invariant count - 1 + DigitCount(n) == DigitCount(value) && count >= 1
      decreases n
    {
      FourDigits(n);
      FourDigits(n / 10);
      FourDigits(n / 10 / 10);
      if n < 10 { return; }
      if n < 100 { return count + 1; }
      if n < 1000 { return count + 2; }
      if n < 10000 { return count + 3; }
      n := n / 10000;
      count := count + 4;
    }
  }
}
