/** Python's `round`: to the nearest integer, ties to the even one. */
module Rounding {

  function Round(x: real): (r: int)
    ensures -0.5 <= x - r as real <= 0.5
    ensures x - r as real == 0.5 || x - r as real == -0.5 ==> r % 2 == 0
  {
    var f := x.Floor;
    var rest := x - f as real;
    if rest < 0.5 || (rest == 0.5 && f % 2 == 0) then f else f + 1
  }

  lemma RoundOfNonNegative(x: real)
    requires 0.0 <= x
    ensures 0 <= Round(x)
  {
  }

  lemma RoundAtMost(x: real, n: int)
    requires x <= n as real
    ensures Round(x) <= n
  {
  }

  lemma RoundOfInteger(n: int)
    ensures Round(n as real) == n
  {
  }

  // ---------------- rounding a quotient of integers ----------------

  lemma SameSign(x: real, y: real)
    requires 0.0 < y
    ensures (x > 0.0 ==> x * y > 0.0) && (x == 0.0 ==> x * y == 0.0) && (x < 0.0 ==> x * y < 0.0)
  {
  }

  /** A distance from a quotient, times the divisor. */
  lemma Expanded(c: real, q: real, k: real, y: real, a: real)
    requires 0.0 < y && q == a / y
    ensures (c - k + q) * y == c * y - k * y + a
  {
    assert q * y == a;
  }

  lemma Side(c: real, q: real, k: real, y: real, a: real)
    requires 0.0 < y && q == a / y
    ensures k - q < c <==> k * y - a < c * y
    ensures k - q == c <==> k * y - a == c * y
  {
    Expanded(c, q, k, y, a);
    SameSign(c - k + q, y);
  }

  /** The nearest integer to a quotient, with ties to even. */
  ghost predicate Nearest(k: int, a: int, n: int) {
    var error := k * n - a;
    && -n <= 2 * error <= n
    && (2 * error == n || 2 * error == -n ==> k % 2 == 0)
  }

  lemma RoundedQuotient(a: int, n: int)
    requires 0 < n
    ensures Nearest(Round(a as real / n as real), a, n)
  {
    hide Round;
    var k, q := Round(a as real / n as real), a as real / n as real;
    Side(0.5, q, k as real, n as real, a as real);
    Side(-0.5, q, k as real, n as real, a as real);
    ProductReal(k, n);
    assert (2 * (k * n - a)) as real == 2.0 * ((k * n) as real - a as real);
  }

  lemma ProductReal(k: int, n: int)
    ensures (k * n) as real == k as real * n as real
  {
  }
}
