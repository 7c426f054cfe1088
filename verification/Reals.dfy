/** Small facts about products and quotients of reals, each proved on its own so that no
    larger proof has to reason about non-linear arithmetic.
 */
module Reals {
  /** A named product: it keeps the solver from multiplying out where only its parts matter. */
  function Product(a: real, b: real): real { a * b }

  function Abs(x: real): real { if x >= 0.0 then x else -x }

  lemma ProductSign(a: real, b: real)
    requires a >= 0.0 && b >= 0.0
    ensures a * b >= 0.0
    ensures a > 0.0 && b > 0.0 ==> a * b > 0.0
  {
  }

  lemma ProductMinus(x: real, a: real, b: real)
    ensures Product(x, b) - Product(x, a) == Product(x, b - a)
  {
  }

  lemma ProductPositive(a: real, b: real)
    requires a >= 0.0 && b >= 0.0
    ensures Product(a, b) >= 0.0
    ensures a > 0.0 && b > 0.0 ==> Product(a, b) > 0.0
  {
    ProductSign(a, b);
  }

  lemma ProductOrder(a: real, b: real, c: real)
    requires a <= b && c >= 0.0
    ensures a * c <= b * c
    ensures a < b && c > 0.0 ==> a * c < b * c
  {
    ProductSign(b - a, c);
    assert (b - a) * c == b * c - a * c;
  }

  lemma Quotient(a: real, c: real)
    requires c > 0.0
    ensures (a / c) * c == a
    ensures a / c == 1.0 <==> a == c
    ensures a / c == 0.0 <==> a == 0.0
  {
    var q := a / c;
    assert q * c == a;
  }

  lemma QuotientIsUnique(q: real, a: real, c: real)
    requires c > 0.0 && q * c == a
    ensures a / c == q
  {
  }

  lemma DivideOrder(a: real, b: real, c: real)
    requires c > 0.0
    ensures a >= b <==> a / c >= b / c
    ensures a > b <==> a / c > b / c
  {
    assert (a / c) * c == a && (b / c) * c == b;
  }

  lemma SquareLess(x: real, y: real)
    requires 0.0 <= x < y
    ensures x * x < y * y
  {
    ProductSign(y - x, y + x);
    assert (y - x) * (y + x) == y * y - x * x;
  }

  lemma NegateBoth(x: real)
    ensures -x * -x == x * x
  {
  }

  lemma SquareSign(x: real)
    ensures x * x >= 0.0
    ensures x * x == 0.0 <==> x == 0.0
  {
    NegateBoth(x);
    if x > 0.0 {
      SquareLess(0.0, x);
    } else if x < 0.0 {
      SquareLess(0.0, -x);
    }
  }

  lemma SquareOrder(x: real, y: real)
    requires y >= 0.0
    ensures x >= 0.0 ==> (x <= y <==> x * x <= y * y)
    ensures x * x <= y * y ==> -y <= x <= y
  {
    NegateBoth(x);
    if x > y {
      SquareLess(y, x);
    } else if x < -y {
      SquareLess(y, -x);
    } else if 0.0 <= x < y {
      SquareLess(x, y);
    }
  }

  lemma SameSquare(x: real, y: real)
    requires x >= 0.0 && y >= 0.0 && x * x == y * y
    ensures x == y
  {
    SquareOrder(x, y);
    SquareOrder(y, x);
  }

  lemma ProductOfSquares(x: real, y: real)
    ensures (x * y) * (x * y) == (x * x) * (y * y)
  {
  }
}
