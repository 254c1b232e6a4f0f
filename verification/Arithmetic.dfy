/** Facts about products, quotients and remainders that the solver does not find by itself. */
module Arithmetic {
  lemma {:induction false} ProductBound(a: nat, b: nat, c: nat, d: nat)
    requires a <= b && c <= d
    ensures a * c <= b * d
  {
    assert b * d - a * c == (b - a) * d + a * (d - c);
  }

  lemma {:induction false} MultipleAtLeast(n: int, d: int)
    requires n >= 1 && d >= 0
    ensures n * d >= d
  {
    assert n * d == d + (n - 1) * d;
  }

  lemma {:induction false} SmallMultiple(n: int, d: int)
    requires 0 <= d && -d < n * d < d
    ensures n == 0
  {
    if n >= 1 {
      MultipleAtLeast(n, d);
    } else if n <= -1 {
      MultipleAtLeast(-n, d);
    }
  }

  lemma {:induction false} NonnegativeFactor(n: int, d: int)
    requires 0 < d && -d < n * d
    ensures n >= 0
  {
    if n <= -1 {
      MultipleAtLeast(-n, d);
    }
  }

  lemma {:induction false} QuotientUnique(a: nat, d: nat, q: nat, r: nat)
    requires 0 < d && a == q * d + r && r < d
    ensures a / d == q && a % d == r
  {
    var k, s := a / d, a % d;
    assert a == k * d + s;
    assert (k - q) * d == k * d - q * d == r - s;
    SmallMultiple(k - q, d);
  }

  lemma {:induction false} ModOfProduct(q: nat, d: nat)
    requires 0 < d
    ensures (q * d) % d == 0 && (q * d) / d == q
  {
    QuotientUnique(q * d, d, q, 0);
  }

  lemma {:induction false} SumOfMultiples(a: nat, b: nat, d: nat)
    requires 0 < d && a % d == 0 && b % d == 0
    ensures (a + b) % d == 0
  {
    var p, q := a / d, b / d;
    assert a == p * d && b == q * d;
    assert a + b == (p + q) * d;
    ModOfProduct(p + q, d);
  }

  lemma {:induction false} QuotientBound(a: nat, d: nat)
    requires 0 < d
    ensures 0 <= a / d <= a && (d >= 2 ==> a / d <= a / 2)
  {
    var q := a / d;
    assert a == q * d + a % d;
    NonnegativeFactor(q, d);
    if d >= 2 {
      ProductBound(q, q, 2, d);
    } else {
      assert d == 1;
    }
  }

  lemma {:induction false} QuotientMonotone(a: nat, b: nat, d: nat)
    requires a <= b && 0 < d
    ensures a / d <= b / d
  {
    var qa, qb := a / d, b / d;
    assert a == qa * d + a % d && b == qb * d + b % d;
    assert (qb - qa) * d == qb * d - qa * d;
    NonnegativeFactor(qb - qa, d);
  }

  // ----- binary digits --------------------------------------------------------------------------------

  /** The `k`-th binary digit. */
  function Digit(n: nat, k: nat): (d: nat)
    ensures d < 2
  {
    if k == 0 then n % 2 else Digit(n / 2, k - 1)
  }

  /** `v` times the `k`-th power of two. */
  function Doubled(v: nat, k: nat): nat { if k == 0 then v else 2 * Doubled(v, k - 1) }
}
