/** Products, quotients and squares of real numbers. */
module Reals {

  function Square(x: real): (r: real)
    ensures if x == 0.0 then r == 0.0 else r > 0.0
  {
    var y := x * x;
    SignOfSquare(x, y);
    y
  }

  lemma SignOfSquare(x: real, y: real)
    requires y == x * x
    ensures if x == 0.0 then y == 0.0 else y > 0.0
  {
    if x > 0.0 {
      Positive(x, x, y);
    } else if x < 0.0 {
      Positive(-x, -x, y);
    }
  }

  lemma Positive(a: real, b: real, y: real)
    requires a > 0.0 && b > 0.0 && y == a * b
    ensures y > 0.0
  {
  }

  function Times(n: nat, x: real): real { n as real * x }

  lemma TimesNext(n: nat, x: real)
    ensures Times(n + 1, x) == Times(n, x) + x
  {
  }

  lemma TimesZero(x: real)
    ensures Times(0, x) == 0.0
  {
  }

  lemma Distribute(a: real, b: real, d: real)
    ensures (a + b) * d == a * d + b * d
  {
  }

  lemma SquareOfProduct(q: real, d: real)
    ensures Square(q) * Square(d) == Square(q * d)
  {
  }

  lemma SquareQuotient(x: real, d: real)
    requires d != 0.0
    ensures Square(x / d) * Square(d) == Square(x)
  {
    hide Square;
    var q := x / d;
    DivideBack(x, d, q);
    SquareOfProduct(q, d);
    assert q * d == x && Square(q * d) == Square(x);
  }

  lemma QuotientTimes(a: real, n: nat)
    requires n > 0
    ensures Times(n, a / n as real) == a
  {
    DivideBack(a, n as real, a / n as real);
  }

  lemma SameFactor(n: nat, x: real, y: real)
    requires n > 0 && Times(n, x) == Times(n, y)
    ensures x == y
  {
    assert n as real * (x - y) == 0.0;
  }

  lemma NothingTimes(n: nat)
    ensures Times(n, 0.0) == 0.0
  {
  }

  lemma PositiveQuotient(a: real, n: real)
    requires a > 0.0 && n > 0.0
    ensures a / n > 0.0
  {
  }

  lemma NoFactor(x: real, d: real)
    requires d != 0.0 && x * d == 0.0
    ensures x == 0.0
  {
  }

  lemma SameQuotient(x: real, v: real, a: real, n: nat)
    requires n > 0 && v != 0.0 && v == a / n as real && x * v == a
    ensures x == n as real
  {
    DivideBack(a, n as real, v);
    assert (x - n as real) * v == 0.0;
    NoFactor(x - n as real, v);
  }

  lemma DivideBack(a: real, d: real, y: real)
    requires d != 0.0 && y == a / d
    ensures y * d == a
  {
  }

  lemma Unique(x: real, a: real, d: real)
    requires d != 0.0 && x * d == a
    ensures x == a / d
  {
    var y := a / d;
    DivideBack(a, d, y);
    assert (x - y) * d == 0.0;
    NoFactor(x - y, d);
  }

  lemma NonNegative(a: real, d: real)
    requires a >= 0.0 && d > 0.0
    ensures a / d >= 0.0
  {
  }
}
