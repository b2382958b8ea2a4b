/** Signs and order of products of reals: the few nonlinear facts the other proofs stand on. */
module RealArithmetic {

  lemma {:induction false} SquareSign(e: real)
    ensures e * e >= 0.0
    ensures e * e == 0.0 <==> e == 0.0
  {
    if e < 0.0 {
      SignOfProduct(-e, -e);
      assert (-e) * (-e) == e * e;
    } else if e > 0.0 {
      SignOfProduct(e, e);
    } else {
      assert e * e == 0.0 * e;
    }
  }

  lemma {:induction false} SignOfProduct(n: real, d: real)
    requires n > 0.0
    ensures n * d >= 0.0 <==> d >= 0.0
    ensures n * d == 0.0 <==> d == 0.0
  {
  }

  lemma {:induction false} CancelFactor(k: real, x: real, y: real)
    requires k != 0.0 && k * x == k * y
    ensures x == y
  {
  }

  /** Multiplying by a positive number keeps the order. */
  lemma {:induction false} OrderOfProducts(k: real, x: real, y: real)
    requires k > 0.0
    ensures k * x < k * y <==> x < y
    ensures k * x <= k * y <==> x <= y
  {
    SignOfProduct(k, y - x);
    SignOfProduct(k, x - y);
  }

  lemma {:induction false} ProductWithin(k: real, x: real, lo: real, hi: real, product: real)
    requires k > 0.0 && lo <= x <= hi && product == k * x
    ensures k * lo <= product <= k * hi
  {
    OrderOfProducts(k, lo, x);
    OrderOfProducts(k, x, hi);
  }
}
