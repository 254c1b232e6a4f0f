/** The reordering of fast-explicit-diffusion steps (gpu_features.cpp): a stride modulo the next prime
    visits every step once.  Termination of the prime search needs a prime above any bound, and the
    permutation needs that multiplication by the stride is injective modulo the prime. */
module FedSteps {
  import opened Arithmetic

  ghost predicate Prime(n: nat) {
    n >= 2 && forall m :: 2 <= m < n ==> n % m != 0
  }

  // ----- arithmetic ------------------------------------------------------------------------------

  lemma {:induction false} DivisorSum(a: nat, b: nat, d: nat)
    requires 0 < d && a % d == 0 && b % d == 0 && b <= a
    ensures (a - b) % d == 0
  {
    var p, q := a / d, b / d;
    assert a == p * d && b == q * d;
    assert a - b == (p - q) * d;
    NonnegativeFactor(p - q, d);
    ModOfProduct(p - q, d);
  }

  /** Euclid's lemma in the form needed: no product of smaller factors is a multiple of a prime. */
  lemma {:induction false} PrimeSplitsNothing(p: nat, a: nat, b: nat)
    requires Prime(p) && 0 < a < p && 0 < b < p
    ensures (a * b) % p != 0
    decreases a
  {
    if a == 1 {
      assert a * b == b;
      QuotientUnique(b, p, 0, b);
    } else {
      var q, r := p / a, p % a;
      assert p == q * a + r && 0 < r < a;
      PrimeSplitsNothing(p, r, b);
      if (a * b) % p == 0 {
        var k := (a * b) / p;
        assert a * b == k * p;
        assert r * b == p * b - q * (a * b) == p * b - q * (k * p) by {
          assert (p - q * a) * b == p * b - q * a * b;
          assert q * a * b == q * (a * b);
        }
        assert r * b == (b - q * k) * p by { assert q * (k * p) == (q * k) * p; }
        NonnegativeFactor(b - q * k, p);
        ModOfProduct(b - q * k, p);
      }
    }
  }

  /** The step chosen at cursor position `k` (1-based, before the `- 1`). */
  function Selected(k: nat, stride: nat, prime: nat): nat
    requires 0 < prime
  {
    (k * stride) % prime
  }

  lemma {:induction false} SelectedDistinct(j: nat, k: nat, stride: nat, prime: nat)
    requires Prime(prime) && 0 < stride < prime && j < k < prime
    ensures Selected(j, stride, prime) != Selected(k, stride, prime)
  {
    var a, b := j * stride, k * stride;
    if a % prime == b % prime {
      assert a == (a / prime) * prime + a % prime && b == (b / prime) * prime + b % prime;
      assert b - a == (k - j) * stride == (b / prime - a / prime) * prime;
      ProductBound(1, k - j, 0, stride);
      NonnegativeFactor(b / prime - a / prime, prime);
      ModOfProduct(b / prime - a / prime, prime);
      PrimeSplitsNothing(prime, k - j, stride);
    }
  }

  lemma {:induction false} SelectedPositive(k: nat, stride: nat, prime: nat)
    requires Prime(prime) && 0 < stride < prime && 0 < k < prime
    ensures 0 < Selected(k, stride, prime) < prime
  {
    PrimeSplitsNothing(prime, k, stride);
  }

  function UpTo(n: nat): (s: set<nat>)
    ensures |s| == n
    ensures forall v :: v in s <==> 0 < v <= n
  {
    if n == 0 then {} else UpTo(n - 1) + {n}
  }

  function Image(f: nat -> nat, n: nat): set<nat> {
    if n == 0 then {} else Image(f, n - 1) + {f(n)}
  }

  lemma {:induction false} ImageWitness(f: nat -> nat, n: nat, v: nat) returns (k: nat)
    requires v in Image(f, n)
    ensures 0 < k <= n && f(k) == v
  {
    if v == f(n) { k := n; } else { k := ImageWitness(f, n - 1, v); }
  }

  lemma {:induction false} ImageWithin(f: nat -> nat, n: nat, limit: nat)
    requires forall j :: 0 < j <= n ==> 0 < f(j) <= limit
    ensures Image(f, n) <= UpTo(limit)
  {
    if n > 0 {
      ImageWithin(f, n - 1, limit);
    }
  }

  ghost predicate InjectiveUpTo(f: nat -> nat, n: nat) {
    forall j, k :: 0 < j < k <= n ==> f(j) != f(k)
  }

  lemma {:induction false} ImageSize(f: nat -> nat, n: nat)
    requires InjectiveUpTo(f, n)
    ensures |Image(f, n)| == n
  {
    if n > 0 {
      ImageSize(f, n - 1);
      if f(n) in Image(f, n - 1) {
        var k := ImageWitness(f, n - 1, f(n));
      }
    }
  }

  lemma {:induction false} SubsetOfSameSize(a: set<nat>, b: set<nat>)
    requires a <= b && |a| == |b|
    ensures a == b
  {
    if !(b <= a) {
      var x :| x in b && x !in a;
      assert a <= b - {x};
      SubsetSize(a, b - {x});
    }
  }

  lemma {:induction false} SubsetSize(a: set<nat>, b: set<nat>)
    requires a <= b
    ensures |a| <= |b|
  {
    if a != {} {
      var x :| x in a;
      SubsetSize(a - {x}, b - {x});
    }
  }

  /** An injective map of `1 ..= n` into itself reaches everything. */
  lemma {:induction false} InjectiveReaches(f: nat -> nat, n: nat, v: nat) returns (k: nat)
    requires InjectiveUpTo(f, n) && (forall j :: 0 < j <= n ==> 0 < f(j) <= n) && 0 < v <= n
    ensures 0 < k <= n && f(k) == v
  {
    ImageSize(f, n);
    ImageWithin(f, n, n);
    SubsetOfSameSize(Image(f, n), UpTo(n));
    k := ImageWitness(f, n, v);
  }

  // ----- primes ------------------------------------------------------------------------------------

  function Factorial(n: nat): (f: nat)
    ensures f >= 1
  {
    if n == 0 then 1 else n * Factorial(n - 1)
  }

  lemma {:induction false} FactorialDivisible(n: nat, m: nat)
    requires 1 <= m <= n
    ensures Factorial(n) % m == 0
  {
    if m == n {
      assert n * Factorial(n - 1) == Factorial(n - 1) * m;
      ModOfProduct(Factorial(n - 1), m);
    } else {
      FactorialDivisible(n - 1, m);
      var q := Factorial(n - 1) / m;
      assert Factorial(n - 1) == q * m;
      assert n * (q * m) == (n * q) * m;
      ModOfProduct(n * q, m);
    }
  }

  lemma {:induction false} SmallestDivisor(n: nat, from: nat) returns (d: nat)
    requires 2 <= from <= n && forall m :: 2 <= m < from ==> n % m != 0
    ensures from <= d <= n && n % d == 0 && forall m :: 2 <= m < d ==> n % m != 0
    decreases n - from
  {
    if n % from == 0 {
      d := from;
    } else {
      ModOfProduct(1, n);
      d := SmallestDivisor(n, from + 1);
    }
  }

  lemma {:induction false} DividesTransitive(n: nat, d: nat, m: nat)
    requires 0 < d && 0 < m && n % d == 0 && d % m == 0
    ensures n % m == 0
  {
    var a, b := n / d, d / m;
    assert n == a * d && d == b * m;
    assert a * (b * m) == (a * b) * m;
    ModOfProduct(a * b, m);
  }

  /** There is a prime above any bound. */
  lemma {:induction false} PrimeAbove(n: nat) returns (p: nat)
    ensures p > n && Prime(p)
  {
    var f := Factorial(n) + 1;
    p := SmallestDivisor(f, 2);
    forall m | 2 <= m < p ensures p % m != 0 {
      if p % m == 0 {
        DividesTransitive(f, p, m);
      }
    }
    if p <= n {
      FactorialDivisible(n, p);
      DivisorSum(f, Factorial(n), p);
      QuotientUnique(1, p, 0, 1);
    }
  }

  /** `is_prime`: trial division while the divisor is at most the quotient decides primality. */
  method IsPrime(value: nat) returns (r: bool)
    ensures r <==> Prime(value)
  {
    if value < 2 { return false; }
    var divisor := 2;
    while divisor <= value / divisor
      invariant 2 <= divisor <= value
      invariant forall m :: 2 <= m < divisor ==> value % m != 0
      decreases value - divisor
    {
      SquareBound(value, divisor);
      if value % divisor == 0 {
        return false;
      }
      divisor := divisor + 1;
    }
    forall m | 2 <= m < value ensures value % m != 0 {
      if value % m == 0 && m >= divisor {
        Cofactor(value, m, divisor);
      }
    }
    return true;
  }

  lemma {:induction false} SquareBound(value: nat, d: nat)
    requires 2 <= d <= value / d
    ensures d < value
  {
    var q := value / d;
    assert value == q * d + value % d;
    assert q * d >= d * 2 by { assert (q - 2) * d >= 0; }
  }

  /** A divisor past the square root has a cofactor below it. */
  lemma {:induction false} Cofactor(value: nat, m: nat, divisor: nat)
    requires 2 <= divisor <= m < value && value % m == 0 && value / divisor < divisor
    ensures exists c :: 2 <= c < divisor && value % c == 0
  {
    var c, k := value / m, value / divisor;
    assert value == c * m && value == k * divisor + value % divisor;
    if c <= 1 {
      ProductBound(c, 1, m, m);
    }
    assert (k + 1) * divisor == k * divisor + divisor;
    if c > k {
      ProductBound(k + 1, c, divisor, m);
    }
    ModOfProduct(m, c);
    assert value == m * c;
  }

  /** The search for the least prime above the step count. */
  method NextPrime(count: nat) returns (prime: nat)
    ensures prime > count && Prime(prime)
    ensures forall m :: count < m < prime ==> !Prime(m)
  {
    ghost var bound := PrimeAbove(count);
    prime := count + 1;
    var found := IsPrime(prime);
    while !found
      invariant count < prime <= bound
      invariant found <==> Prime(prime)
      invariant forall m :: count < m < prime ==> !Prime(m)
      decreases bound - prime
    {
      prime := prime + 1;
      found := IsPrime(prime);
    }
  }

  // ----- the reordering --------------------------------------------------------------------------

  /** The cursor positions `1 ..= k` that pick a real step, in order. */
  function Visited(pick: nat -> nat, k: nat, count: nat): seq<nat> {
    if k == 0 then []
    else Visited(pick, k - 1, count) + (if 0 < pick(k) <= count then [pick(k) - 1] else [])
  }

  lemma {:induction false} VisitedMembers(pick: nat -> nat, k: nat, count: nat, v: nat)
    ensures v in Visited(pick, k, count) <==> v < count && exists j :: 0 < j <= k && pick(j) == v + 1
  {
    if k > 0 {
      VisitedMembers(pick, k - 1, count, v);
    }
  }

  lemma {:induction false} VisitedDistinct(pick: nat -> nat, k: nat, count: nat)
    requires InjectiveUpTo(pick, k)
    ensures forall i, j :: 0 <= i < j < |Visited(pick, k, count)| ==>
              Visited(pick, k, count)[i] != Visited(pick, k, count)[j]
  {
    if k > 0 {
      VisitedDistinct(pick, k - 1, count);
      if 0 < pick(k) <= count {
        VisitedMembers(pick, k - 1, count, pick(k) - 1);
        var before := Visited(pick, k - 1, count);
        assert forall i :: 0 <= i < |before| ==> before[i] in before;
      }
    }
  }

  lemma {:induction false} VisitedPrefix(pick: nat -> nat, k: nat, m: nat, count: nat)
    requires k <= m
    ensures Visited(pick, k, count) <= Visited(pick, m, count)
  {
    if k < m {
      VisitedPrefix(pick, k, m - 1, count);
    }
  }

  /** The cursors behind the visited steps rise, and each names its step. */
  ghost predicate Names(pick: nat -> nat, k: nat, order: seq<nat>, cursors: seq<nat>) {
    && |cursors| == |order|
    && (forall i, j :: 0 <= i < j < |cursors| ==> cursors[i] < cursors[j])
    && forall i :: 0 <= i < |cursors| ==> 0 < cursors[i] <= k && order[i] + 1 == pick(cursors[i])
  }

  lemma {:induction false} VisitedCursors(pick: nat -> nat, k: nat, count: nat) returns (cursors: seq<nat>)
    ensures Names(pick, k, Visited(pick, k, count), cursors)
  {
    if k == 0 { return []; }
    cursors := VisitedCursors(pick, k - 1, count);
    if 0 < pick(k) <= count { cursors := cursors + [k]; }
  }

  ghost predicate Permutation(order: seq<nat>, count: nat) {
    && |order| == count
    && (forall i :: 0 <= i < count ==> order[i] < count)
    && (forall v :: 0 <= v < count ==> v in order)
    && (forall i, j :: 0 <= i < j < count ==> order[i] != order[j])
  }

  /** A map of `1 ..= n` onto itself visits each of fewer steps exactly once. */
  lemma {:induction false} VisitedPermutes(pick: nat -> nat, n: nat, count: nat)
    requires InjectiveUpTo(pick, n) && (forall j :: 0 < j <= n ==> 0 < pick(j) <= n) && count <= n
    ensures Permutation(Visited(pick, n, count), count)
  {
    var all := Visited(pick, n, count);
    VisitedDistinct(pick, n, count);
    forall v: nat ensures v in all <==> v < count {
      VisitedMembers(pick, n, count, v);
      if v < count {
        var k := InjectiveReaches(pick, n, v + 1);
      }
    }
    forall i | 0 <= i < |all| ensures all[i] < count { assert all[i] in all; }
    DistinctCount(all, count);
  }

  lemma {:induction false} DistinctCount(order: seq<nat>, count: nat)
    requires forall v: nat :: v in order <==> v < count
    requires forall i, j :: 0 <= i < j < |order| ==> order[i] != order[j]
    ensures |order| == count
  {
    var s := set i | 0 <= i < |order| :: order[i] + 1;
    DistinctSize(order);
    forall v: nat ensures v in s <==> v in UpTo(count) {
      if v in UpTo(count) {
        assert v - 1 in order;
      }
      if v in s {
        var i :| 0 <= i < |order| && v == order[i] + 1;
        assert order[i] in order;
      }
    }
    assert s == UpTo(count);
  }

  lemma {:induction false} DistinctSize(order: seq<nat>)
    requires forall i, j :: 0 <= i < j < |order| ==> order[i] != order[j]
    ensures |set i | 0 <= i < |order| :: order[i] + 1| == |order|
  {
    if order != [] {
      var last := |order| - 1;
      DistinctSize(order[..last]);
      var s := set i | 0 <= i < |order| :: order[i] + 1;
      var t := set i | 0 <= i < last :: order[..last][i] + 1;
      assert s == t + {order[last] + 1} && order[last] + 1 !in t;
    }
  }

  /** The cursor loop of `fed_steps` for any picking rule that is a bijection below the prime: it ends,
      the cursor never passes `prime - 1`, and every step is listed exactly once. */
  method CursorLoop(pick: nat -> nat, prime: nat, count: nat) returns (order: seq<nat>)
    requires 0 < prime && Permutation(Visited(pick, prime - 1, count), count)
    ensures order == Visited(pick, prime - 1, count)
  {
    order := [];
    var cursor := 0;
    ghost var all := Visited(pick, prime - 1, count);
    for output := 0 to count
      invariant cursor < prime
      invariant |order| == output && order == Visited(pick, cursor, count)
    {
      VisitedPrefix(pick, cursor, prime - 1, count);
      assert cursor < prime - 1;
      var selected := pick(cursor + 1);
      while selected == 0 || selected - 1 >= count
        invariant cursor < prime - 1
        invariant selected == pick(cursor + 1)
        invariant order == Visited(pick, cursor, count)
        decreases prime - cursor
      {
        cursor := cursor + 1;
        assert order == Visited(pick, cursor, count);
        assert cursor < prime - 1;
        selected := pick(cursor + 1);
      }
      order := order + [selected - 1];
      cursor := cursor + 1;
    }
    VisitedPrefix(pick, cursor, prime - 1, count);
    assert order == all;
  }

  ghost predicate LeastPrimeAbove(prime: nat, count: nat) {
    prime > count && Prime(prime) && forall m :: count < m < prime ==> !Prime(m)
  }

  /** The steps come in the order of rising cursors, each one more than its cursor times half the count modulo the
      least prime above the count. */
  ghost predicate StrideOrder(order: seq<nat>, cursors: seq<nat>, prime: nat, count: nat) {
    && LeastPrimeAbove(prime, count) && |order| == |cursors| == count
    && (forall i, j :: 0 <= i < j < count ==> cursors[i] < cursors[j])
    && forall i :: 0 <= i < count ==>
         0 < cursors[i] < prime && order[i] + 1 == (cursors[i] * (count / 2)) % prime
  }

  /** The index order for at least two steps: stride half the count, modulo the next prime. */
  method StepOrder(count: nat) returns (order: seq<nat>, ghost cursors: seq<nat>, ghost modulus: nat)
    requires count >= 2
    ensures Permutation(order, count) && StrideOrder(order, cursors, modulus, count)
  {
    var stride := count / 2;
    var prime := NextPrime(count);
    var pick := (k: nat) => (k * stride) % prime;
    StridePermutes(pick, stride, prime, count);
    order := CursorLoop(pick, prime, count);
    modulus := prime;
    cursors := VisitedCursors(pick, prime - 1, count);
  }

  /** Striding modulo a prime above the count visits every step exactly once. */
  lemma {:induction false} StridePermutes(pick: nat -> nat, stride: nat, prime: nat, count: nat)
    requires Prime(prime) && 0 < stride < prime && count < prime
    requires forall k: nat :: pick(k) == (k * stride) % prime
    ensures Permutation(Visited(pick, prime - 1, count), count)
  {
    forall i, j | 0 < i < j < prime ensures pick(i) != pick(j) {
      SelectedDistinct(i, j, stride, prime);
    }
    forall j | 0 < j < prime ensures 0 < pick(j) < prime {
      SelectedPositive(j, stride, prime);
    }
    VisitedPermutes(pick, prime - 1, count);
  }

  /** `fed_steps` after the step values are known: a single step, or none, is kept as it is. */
  method Reorder<T>(values: seq<T>)
    returns (reordered: seq<T>, ghost order: seq<nat>, ghost cursors: seq<nat>, ghost modulus: nat)
    ensures |reordered| == |values| && multiset(reordered) == multiset(values)
    ensures |values| <= 1 ==> reordered == values
    ensures |values| >= 2 ==> Permutation(order, |values|) && StrideOrder(order, cursors, modulus, |values|)
    ensures |values| >= 2 ==> forall i :: 0 <= i < |values| ==> reordered[i] == values[order[i]]
  {
    if |values| <= 1 { return values, [], [], 0; }
    var steps;
    steps, cursors, modulus := StepOrder(|values|);
    order := steps;
    reordered := [];
    for i := 0 to |values|
      invariant reordered == Pick(values, steps[..i])
    {
      assert steps[..i + 1] == steps[..i] + [steps[i]];
      reordered := reordered + [values[steps[i]]];
    }
    assert order[..|values|] == order;
    PickPermutes(values, order);
  }

  function Pick<T>(values: seq<T>, order: seq<nat>): (r: seq<T>)
    requires forall i :: 0 <= i < |order| ==> order[i] < |values|
    ensures |r| == |order| && forall i :: 0 <= i < |order| ==> r[i] == values[order[i]]
  {
    seq(|order|, i requires 0 <= i < |order| => values[order[i]])
  }

  /** Reading through a permutation keeps every value as often as it occurs. */
  lemma {:induction false} PickPermutes<T>(values: seq<T>, order: seq<nat>)
    requires Permutation(order, |values|)
    ensures multiset(Pick(values, order)) == multiset(values)
  {
    if values != [] {
      var n := |values| - 1;
      assert n in order;
      var at :| 0 <= at < |order| && order[at] == n;
      var rest := order[..at] + order[at + 1..];
      RemovePermutes(order, at, n);
      PickPermutes(values[..n], rest);
      var full := Pick(values, order);
      assert Pick(values[..n], rest) == full[..at] + full[at + 1..];
      assert full[at] == values[n];
      ExtractOne(full, at);
      ExtractOne(values, n);
      assert values[..n] + values[n + 1..] == values[..n];
    }
  }

  lemma {:induction false} ExtractOne<T>(s: seq<T>, at: nat)
    requires at < |s|
    ensures multiset(s) == multiset(s[..at] + s[at + 1..]) + multiset{s[at]}
  {
    assert s == s[..at] + [s[at]] + s[at + 1..];
  }

  lemma {:induction false} RemovePermutes(order: seq<nat>, at: nat, n: nat)
    requires Permutation(order, n + 1) && at < |order| && order[at] == n
    ensures Permutation(order[..at] + order[at + 1..], n)
  {
    var rest := order[..at] + order[at + 1..];
    assert forall i :: 0 <= i < n ==> rest[i] == (if i < at then order[i] else order[i + 1]);
    forall v | 0 <= v < n ensures v in rest {
      assert v in order;
      var i :| 0 <= i < |order| && order[i] == v;
      assert rest[if i < at then i else i - 1] == v;
    }
  }
}
