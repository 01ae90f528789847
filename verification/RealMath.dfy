/** Multiplication and division of reals behind names, so that each proof step is one lemma. */
module RealMath {

  function Times(a: real, b: real): real { a * b }

  function Square(d: real): real { Times(d, d) }

  lemma SignOfTimes(a: real, b: real)
    ensures a > 0.0 && b > 0.0 ==> Times(a, b) > 0.0
    ensures a < 0.0 && b < 0.0 ==> Times(a, b) > 0.0
    ensures a == 0.0 ==> Times(a, b) == 0.0
  {
  }

  lemma SquareSign(d: real)
    ensures Square(d) >= 0.0
    ensures Square(d) == 0.0 <==> d == 0.0
  {
    SignOfTimes(d, d);
  }

  lemma SquareOfDifference(x: real, m: real)
    ensures Square(x - m) == Square(x) - 2.0 * Times(m, x) + Square(m)
  {
  }

  lemma Distribute(a: real, b: real, c: real)
    ensures Times(a + b, c) == Times(a, c) + Times(b, c)
    ensures Times(c, a + b) == Times(c, a) + Times(c, b)
  {
  }

  lemma Associate(a: real, b: real, c: real)
    ensures Times(a, Times(b, c)) == Times(Times(a, b), c)
    ensures Times(a, b) == Times(b, a)
  {
  }

  lemma ScaleOrder(x: real, y: real, n: real)
    requires n > 0.0
    ensures x <= y <==> Times(x, n) <= Times(y, n)
  {
    SignOfTimes(y - x, n);
    SignOfTimes(x - y, n);
    Distribute(x, y - x, n);
    Distribute(y, x - y, n);
  }

  lemma Quotient(x: real, n: real)
    requires n > 0.0
    ensures Times(x / n, n) == x
  {
  }

  lemma QuotientBounds(x: real, n: real, b: real)
    requires n > 0.0
    ensures x / n <= b <==> x <= Times(b, n)
    ensures x / n >= b <==> x >= Times(b, n)
  {
    Quotient(x, n);
    ScaleOrder(x / n, b, n);
    ScaleOrder(b, x / n, n);
  }
}
