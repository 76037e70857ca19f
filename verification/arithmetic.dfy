/** The few facts about products and remainders the other modules lean on. */
module Arithmetic {

  lemma QuotientUnique(a: int, d: int, q: int, r: int)
    requires 0 <= r < d && a == q * d + r
    ensures a % d == r && a / d == q
  {
    var q', r' := a / d, a % d;
    var k := q - q';
    assert k * d == r' - r by {
      assert k * d == q * d - q' * d;
    }
    SmallMultiple(k, d);
  }

  lemma SmallMultiple(k: int, d: int)
    requires d > 0
    ensures k >= 1 ==> k * d >= d
    ensures k <= -1 ==> k * d <= -d
  {
  }

  lemma DivModIdentity(n: nat, d: nat)
    requires d >= 1
    ensures n == (n / d) * d + n % d
  {
  }

  lemma QuotientShrinks(n: nat, d: nat)
    requires d >= 2
    ensures n >= 1 ==> n / d < n
    ensures n >= d ==> n / d >= 1
  {
    var q, r := n / d, n % d;
    DivModIdentity(n, d);
    if q >= 1 {
      assert q * d >= q * 2 by { ProductMonotone(2, d, q); }
    }
  }

  lemma ProductMonotone(a: nat, b: nat, d: nat)
    requires a <= b
    ensures a * d <= b * d
  {
  }
}
