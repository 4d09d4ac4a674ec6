/** Division and remainder by a variable amount, which the solver needs help with. */
module Arith {

  function Min(x: int, y: int): int { if x < y then x else y }
  function Max(x: int, y: int): int { if x < y then y else x }

  lemma MulAtLeast(a: int, n: int)
    requires a >= 1 && n > 0
    ensures a * n >= n
  {
    assert (a - 1) * n >= 0;
    assert a * n == (a - 1) * n + n;
  }

  /** Quotient and remainder are determined by their defining equation. */
  lemma DivUnique(x: int, n: int, q: int, r: int)
    requires n > 0 && 0 <= r < n && x == q * n + r
    ensures x / n == q && x % n == r
  {
    var d := x / n;
    var m := x % n;
    assert x == d * n + m;
    assert (q - d) * n == q * n - d * n == m - r;
    assert (d - q) * n == d * n - q * n;
    if q > d {
      MulAtLeast(q - d, n);
    } else if q < d {
      MulAtLeast(d - q, n);
    }
  }

  /** A value below the divisor is its own remainder. */
  lemma ModSmall(x: int, n: int)
    requires 0 <= x < n
    ensures x % n == x
  {
    DivUnique(x, n, 0, x);
  }

  lemma ModPeriod(c: int, n: int)
    requires n > 0
    ensures (c + n) % n == c % n && (c + n) / n == c / n + 1
  {
    assert (c / n + 1) * n == (c / n) * n + n;
    DivUnique(c + n, n, c / n + 1, c % n);
  }

  /** Shifting by whole multiples shifts the quotient and keeps the remainder. */
  lemma DivShift(c: int, k: int, n: int)
    requires n > 0
    ensures (c + k * n) / n == c / n + k && (c + k * n) % n == c % n
  {
    assert (c / n + k) * n == (c / n) * n + k * n;
    DivUnique(c + k * n, n, c / n + k, c % n);
  }

  /** Reducing makes a value smaller exactly when it reached the modulus. */
  lemma ModLess(x: int, n: int)
    requires n > 0 && x >= 0
    ensures 0 <= x % n <= x && (x % n == x <==> x < n)
  {
    if x < n { ModSmall(x, n); } else { DivMonotone(n, x, n); DivUnique(n, n, 1, 0); MulAtLeast(x / n, n); }
  }

  /** Reducing a summand first does not change the remainder. */
  lemma ModAdd(x: int, y: int, n: int)
    requires n > 0
    ensures (x % n + y) % n == (x + y) % n
  {
    var q, r := (x % n + y) / n, (x % n + y) % n;
    assert (x / n + q) * n == (x / n) * n + q * n;
    DivUnique(x + y, n, x / n + q, r);
  }

  lemma MulSplit(n: int, a: int, b: int)
    ensures n * (a + b) == n * a + n * b
  {
  }

  lemma MulNonNegative(a: int, b: int)
    requires a >= 0 && b >= 0
    ensures a * b >= 0
  {
  }

  lemma DivMonotone(a: int, b: int, n: int)
    requires n > 0 && a <= b
    ensures a / n <= b / n
  {
    assert (a / n - b / n) * n == (a / n) * n - (b / n) * n;
    if a / n > b / n {
      MulAtLeast(a / n - b / n, n);
    }
  }

  lemma MulMonotone(a: int, b: int, n: int)
    requires n >= 0 && a <= b
    ensures a * n <= b * n
  {
    assert (b - a) * n >= 0;
    assert (b - a) * n == b * n - a * n;
  }
}
