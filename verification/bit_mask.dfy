/** Masking a position with `size - 1`, as the ring buffer does instead of dividing. */
module BitMask {
  import opened Arithmetic

  /** Bitwise AND of two unsigned numbers, computed bit by bit. */
  function And(a: nat, b: nat): (r: nat)
    ensures r <= b
  {
    if a == 0 || b == 0 then 0
    else (if a % 2 == 1 && b % 2 == 1 then 1 else 0) + 2 * And(a / 2, b / 2)
  }

  function Pow2(k: nat): (r: nat)
    ensures r >= 1
  {
    if k == 0 then 1 else 2 * Pow2(k - 1)
  }

  ghost predicate IsPowerOfTwo(n: nat) {
    exists k: nat :: Pow2(k) == n
  }

  /** The test the queue's constructor applies to its size. */
  predicate SizeAccepted(n: nat) {
    n >= 2 && And(n, n - 1) == 0
  }

  lemma {:induction false} MaskPow2(pos: nat, k: nat)
    ensures And(pos, Pow2(k) - 1) == pos % Pow2(k)
  {
    if k > 0 {
      var m := Pow2(k - 1);
      MaskPow2(pos / 2, k - 1);
      MaskHalves(pos, m);
      HalvedModulo(pos, m);
    }
  }

  lemma MaskHalves(pos: nat, m: nat)
    requires m >= 1
    ensures And(pos, 2 * m - 1) == pos % 2 + 2 * And(pos / 2, m - 1)
  {
    assert (2 * m - 1) / 2 == m - 1 && (2 * m - 1) % 2 == 1;
    assert And(0, m - 1) == 0 && And(pos / 2, 0) == 0;
  }

  lemma HalvedModulo(pos: nat, m: nat)
    requires m >= 1
    ensures pos % (2 * m) == pos % 2 + 2 * ((pos / 2) % m)
  {
    var q, r := (pos / 2) / m, (pos / 2) % m;
    var low := pos % 2 + 2 * r;
    assert pos == 2 * (q * m + r) + pos % 2;
    assert pos == q * (2 * m) + low;
    assert 0 <= low < 2 * m;
    QuotientUnique(pos, 2 * m, q, low);
  }

  lemma NextLap(pos: nat, n: nat)
    requires n >= 1
    ensures (pos + n) % n == pos % n
  {
    var q, r := pos / n, pos % n;
    assert (q + 1) * n == q * n + n;
    QuotientUnique(pos + n, n, q + 1, r);
  }

  /** Two positions less than a lap apart have different remainders. */
  lemma RemaindersDiffer(j: nat, k: nat, n: nat)
    requires j != k && j < k + n && k < j + n
    ensures j % n != k % n
  {
    var q, p := j / n, k / n;
    assert j == q * n + j % n && k == p * n + k % n;
    assert (p - q) * n == p * n - q * n;
    SmallMultiple(p - q, n);
  }

  /** The mask is the remainder for every size that is a power of two. */
  lemma MaskIsModulo(pos: nat, n: nat)
    requires IsPowerOfTwo(n)
    ensures And(pos, n - 1) == pos % n
  {
    var k: nat :| Pow2(k) == n;
    MaskPow2(pos, k);
  }

  /** An even number is a power of two iff its half is. */
  lemma HalfPower(n: nat)
    requires n >= 2 && n % 2 == 0
    ensures IsPowerOfTwo(n) <==> IsPowerOfTwo(n / 2)
  {
    if IsPowerOfTwo(n / 2) {
      var k: nat :| Pow2(k) == n / 2;
      assert Pow2(k + 1) == n;
    }
    if IsPowerOfTwo(n) {
      var k: nat :| Pow2(k) == n;
      assert Pow2(k - 1) == n / 2;
    }
  }

  lemma OddIsNoPower(n: nat)
    requires n >= 3 && n % 2 == 1
    ensures !IsPowerOfTwo(n)
  {
    forall k: nat ensures Pow2(k) != n {
      assert k > 0 ==> Pow2(k) == 2 * Pow2(k - 1);
    }
  }

  /** One bit at a time. */
  lemma AndStep(a: nat, b: nat)
    ensures And(a, b) == 0 <==> (a == 0 || b == 0 || ((a % 2 == 0 || b % 2 == 0) && And(a / 2, b / 2) == 0))
  {
  }

  lemma {:induction false} NoCommonBits(n: nat)
    requires n >= 1
    ensures And(n, n - 1) == 0 <==> IsPowerOfTwo(n)
    decreases n
  {
    AndStep(n, n - 1);
    if n == 1 {
      assert Pow2(0) == 1;
    } else if n % 2 == 0 {
      NoCommonBits(n / 2);
      HalfPower(n);
      assert (n - 1) / 2 == n / 2 - 1;
    } else {
      AndSelf(n / 2);
      OddIsNoPower(n);
      assert (n - 1) / 2 == n / 2;
    }
  }

  lemma {:induction false} AndSelf(n: nat)
    ensures And(n, n) == n
  {
    if n > 0 {
      AndSelf(n / 2);
    }
  }

  /** The constructor's test accepts exactly the powers of two from 2 up. */
  lemma SizeAcceptedIff(n: nat)
    ensures SizeAccepted(n) <==> n >= 2 && IsPowerOfTwo(n)
  {
    if n >= 2 {
      NoCommonBits(n);
    }
  }
}
