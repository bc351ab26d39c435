// Products, quotients, powers of two and common divisors, one step at a time.

module Arithmetic {

  lemma {:induction false} TimesMonotone(x: nat, y: nat, n: nat)
    requires x <= y
    ensures x * n <= y * n
    decreases y
  {
    if x < y {
      TimesMonotone(x, y - 1, n);
      assert y * n == (y - 1) * n + n;
    }
  }

  lemma Distributes(x: int, y: int, n: int)
    ensures (x + y) * n == x * n + y * n
  {
  }

  lemma Split(x: nat, n: nat)
    requires n > 0
    ensures x == (x / n) * n + x % n
  {
  }

  // There is one quotient and one remainder.
  lemma Quotient(q: nat, r: nat, n: nat)
    requires r < n
    ensures (q * n + r) / n == q && (q * n + r) % n == r
  {
    var x := q * n + r;
    Split(x, n);
    if x / n > q { TimesMonotone(q + 1, x / n, n); }
    if x / n < q { TimesMonotone(x / n + 1, q, n); }
  }

  lemma DivMonotone(x: nat, y: nat, n: nat)
    requires x <= y && n > 0
    ensures x / n <= y / n
  {
    Split(x, n);
    Split(y, n);
    if x / n > y / n { TimesMonotone(y / n + 1, x / n, n); }
  }

  // Euclid's algorithm.
  function Gcd(a: nat, b: nat): (g: nat)
    ensures a > 0 || b > 0 ==> g > 0
    decreases b
  {
    if b == 0 then a else Gcd(b, a % b)
  }

  function Pow2(k: nat): (r: nat)
    ensures r >= 1
  {
    if k == 0 then 1 else 2 * Pow2(k - 1)
  }

  lemma {:induction false} Pow2Monotone(j: nat, k: nat)
    requires j <= k
    ensures Pow2(j) <= Pow2(k)
    decreases k
  {
    if j < k { Pow2Monotone(j, k - 1); }
  }

  lemma {:induction false} Pow2Splits(k: nat, n: nat)
    requires k <= n
    ensures Pow2(n) == Pow2(k) * Pow2(n - k)
    decreases n
  {
    if k < n {
      Pow2Splits(k, n - 1);
      Double(Pow2(k), Pow2(n - 1 - k));
    }
  }

  lemma Double(x: nat, y: nat)
    ensures x * (2 * y) == 2 * (x * y)
  {
  }

  // The smaller power divides the larger.
  lemma Pow2Divides(j: nat, k: nat)
    requires j <= k
    ensures Pow2(k) % Pow2(j) == 0
  {
    Pow2Splits(j, k);
    MultipleDivides(Pow2(k - j), Pow2(j));
  }

  lemma MultipleDivides(q: nat, n: nat)
    requires n > 0
    ensures (n * q) % n == 0
  {
    Quotient(q, 0, n);
  }
}
