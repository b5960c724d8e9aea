/** Powers of two and right shifts, the integer arithmetic behind lengths and tree paths. */
module BinaryArith {

  /** The sorters index with 32-bit integers and double a power of two past the length. */
  const MAX_SORTABLE: nat := 0x4000_0000

  function Pow2(k: nat): (r: nat)
    ensures r >= 1
  {
    if k == 0 then 1 else 2 * Pow2(k - 1)
  }

  ghost predicate IsPow2(n: nat) {
    exists k: nat :: n == Pow2(k)
  }

  lemma Pow2Double(k: nat)
    ensures Pow2(k + 1) == 2 * Pow2(k)
  {}

  lemma {:induction false} Pow2Monotone(a: nat, b: nat)
    requires a < b
    ensures 2 * Pow2(a) <= Pow2(b)
  {
    if a + 1 == b {
    } else {
      Pow2Monotone(a, b - 1);
    }
  }

  lemma DoublePow2(n: nat)
    requires IsPow2(n)
    ensures n > 0 && IsPow2(2 * n)
  {
    var k: nat :| n == Pow2(k);
    assert 2 * n == Pow2(k + 1);
  }

  /** Doubling from k for as long as the double stays below n. */
  function DoubleBelow(k: nat, n: nat): (m: nat)
    requires 0 < k < n
    ensures k <= m < n <= 2 * m
    decreases n - k
  {
    if 2 * k < n then DoubleBelow(2 * k, n) else k
  }

  lemma {:induction false} DoubleBelowIsPow2(k: nat, e: nat, n: nat) returns (d: nat)
    requires 0 < k < n && k == Pow2(e)
    ensures DoubleBelow(k, n) == Pow2(d)
    decreases n - k
  {
    d := e;
    if 2 * k >= n {
    } else {
      d := DoubleBelowIsPow2(2 * k, e + 1, n);
    }
  }

  /** The power of two m with m < n <= 2m. */
  function GreatestPow2Below(n: nat): (m: nat)
    requires n >= 2
    ensures m < n <= 2 * m
  {
    DoubleBelow(1, n)
  }

  lemma GreatestPow2BelowExponent(n: nat) returns (d: nat)
    requires n >= 2
    ensures GreatestPow2Below(n) == Pow2(d)
  {
    d := DoubleBelowIsPow2(1, 0, n);
  }

  lemma GreatestPow2BelowUnique(n: nat, e: nat)
    requires n >= 2 && Pow2(e) < n <= 2 * Pow2(e)
    ensures GreatestPow2Below(n) == Pow2(e)
  {
    var d := GreatestPow2BelowExponent(n);
    if d < e {
      Pow2Monotone(d, e);
    } else if e < d {
      Pow2Monotone(e, d);
    }
  }

  lemma Pow2Values()
    ensures Pow2(15) == 0x8000 && Pow2(30) == 0x4000_0000
  {
    assert Pow2(8) == 256;
    assert Pow2(16) == 256 * Pow2(8);
    assert Pow2(24) == 256 * Pow2(16);
  }

  /** The exponent of the least power of two that is at least n. */
  function CeilLog2(n: nat): (e: nat)
    ensures n <= Pow2(e)
  {
    if n <= 1 then 0 else 1 + CeilLog2((n + 1) / 2)
  }

  lemma {:induction false} CeilLog2OfPow2(e: nat)
    ensures CeilLog2(Pow2(e)) == e
  {
    if e == 0 {
    } else {
      CeilLog2OfPow2(e - 1);
      assert (Pow2(e) + 1) / 2 == Pow2(e - 1);
    }
  }

  /** The power-of-two test: compare with two to the rounded-up logarithm. */
  predicate TestPo2(num: nat) {
    num == Pow2(CeilLog2(num))
  }

  lemma TestPo2Exact(num: nat)
    ensures TestPo2(num) <==> IsPow2(num)
  {
    if e: nat :| num == Pow2(e) {
      CeilLog2OfPow2(e);
    }
  }

  /** x >> k. */
  function Shr(x: nat, k: nat): nat {
    if k == 0 then x else Shr(x / 2, k - 1)
  }

  lemma {:induction false} ShrStep(x: nat, k: nat)
    ensures Shr(x, k + 1) == Shr(x, k) / 2
  {
    if k == 0 {
    } else {
      ShrStep(x / 2, k - 1);
    }
  }

  lemma {:induction false} ShrPlusPow2(x: nat, n: nat, k: nat)
    requires k <= n
    ensures Shr(x + Pow2(n), k) == Shr(x, k) + Pow2(n - k)
  {
    if k == 0 {
    } else {
      assert (x + Pow2(n)) / 2 == x / 2 + Pow2(n - 1);
      ShrPlusPow2(x / 2, n - 1, k - 1);
    }
  }

  lemma {:induction false} ShrBound(x: nat, n: nat, k: nat)
    requires k <= n && x < Pow2(n)
    ensures Shr(x, k) < Pow2(n - k)
  {
    if k == 0 {
    } else {
      ShrBound(x / 2, n - 1, k - 1);
    }
  }

  lemma {:induction false} ShrMonotone(x: nat, y: nat, k: nat)
    requires x <= y
    ensures Shr(x, k) <= Shr(y, k)
  {
    if k == 0 {
    } else {
      ShrMonotone(x / 2, y / 2, k - 1);
    }
  }

  lemma HalveQuotient(x: nat, p: nat)
    requires p > 0
    ensures x / (2 * p) == (x / 2) / p
  {
    var q, r := (x / 2) / p, (x / 2) % p;
    assert x / 2 == q * p + r;
    var rest := 2 * r + x % 2;
    assert x == q * (2 * p) + rest && 0 <= rest < 2 * p;
    QuotientUnique(x, 2 * p, q, rest);
  }

  lemma QuotientUnique(x: nat, d: nat, q: nat, r: nat)
    requires d > 0 && r < d && x == q * d + r
    ensures x / d == q
  {
    var q', r' := x / d, x % d;
    assert x == q' * d + r';
    MulMonotone(q + 1, q', d);
    MulMonotone(q' + 1, q, d);
  }

  lemma MulMonotone(a: nat, b: nat, d: nat)
    ensures a <= b ==> a * d <= b * d
  {}

  /** Quotient and remainder are unique. */
  lemma DivMod(x: nat, q: nat, r: nat, d: nat)
    requires r < d && x == q * d + r
    ensures x / d == q && x % d == r
  {
    SameMultiple(q, x / d, r, x % d, d);
  }

  lemma SameMultiple(k: nat, q: nat, r: nat, t: nat, d: nat)
    requires r < d && t < d && k * d + r == q * d + t
    ensures q == k && r == t
  {
    MulMonotone(q + 1, k, d);
    MulMonotone(k + 1, q, d);
    assert (q + 1) * d == q * d + d && (k + 1) * d == k * d + d;
  }

  lemma {:induction false} ShrIsQuotient(x: nat, k: nat)
    ensures Shr(x, k) == x / Pow2(k)
  {
    if k == 0 {
    } else {
      ShrIsQuotient(x / 2, k - 1);
      HalveQuotient(x, Pow2(k - 1));
    }
  }

  /** The bit of x under a one-bit mask. */
  predicate MaskBit(mask: nat, x: nat)
    requires mask > 0
  {
    x / mask % 2 == 1
  }

  /** The exponent of the greatest power of two that is at most n. */
  function FloorLog2(n: nat): (e: nat)
    requires n >= 1
    ensures Pow2(e) <= n < Pow2(e + 1)
  {
    if n == 1 then 0 else 1 + FloorLog2(n / 2)
  }
}
