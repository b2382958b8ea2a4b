/**
 Ordinary least squares through the points (0, y0), (1, y1), ... in closed form. The five sums
 of the regression are carried in one record; everything about a fitted line is algebra on it.
 */
module LeastSquares {
  import opened RealArithmetic

  datatype Sums = Sums(n: real, x: real, xx: real, y: real, xy: real, yy: real) {

    function Add(px: real, py: real): Sums {
      Sums(n + 1.0, x + px, xx + px * px, y + py, xy + px * py, yy + py * py)
    }

    function Denominator(): real {
      n * xx - x * x
    }

    function Slope(): real
      requires Denominator() != 0.0
    {
      (n * xy - x * y) / Denominator()
    }

    function Intercept(): real
      requires n != 0.0 && Denominator() != 0.0
    {
      (y - Slope() * x) / n
    }

    /** The normal equations of least squares, for a line of slope a and intercept b. */
    predicate IsFit(a: real, b: real) {
      a * xx + b * x == xy && a * x + b * n == y
    }

    /** The residual sum of the line (a, b), expanded over the sums. */
    function Expansion(a: real, b: real): real {
      yy - 2.0 * a * xy - 2.0 * b * y + a * a * xx + 2.0 * (a * b) * x + b * b * n
    }

    /** What a line off the fitted one by (u, v) costs more, times n. */
    function Gap(u: real, v: real): real {
      (n * v + u * x) * (n * v + u * x) + u * u * Denominator()
    }

    /** The sums when the abscissae are exactly 0, 1, ..., n - 1. */
    predicate IndexSums() {
      2.0 * x == n * (n - 1.0) && 6.0 * xx == n * (n - 1.0) * (2.0 * n - 1.0)
    }
  }

  const ZERO := Sums(0.0, 0.0, 0.0, 0.0, 0.0, 0.0)

  /** The line of the given slope and intercept, at x. */
  function LineAt(slope: real, intercept: real, x: real): real {
    slope * x + intercept
  }

  function SquaredResidual(x: real, y: real, a: real, b: real): (r: real)
    ensures r >= 0.0
    ensures r == 0.0 <==> y == LineAt(a, b, x)
  {
    var e := y - LineAt(a, b, x);
    SquareSign(e);
    e * e
  }

  lemma {:induction false} ClosedFormsFit(s: Sums)
    requires s.n > 0.0 && s.Denominator() != 0.0
    ensures s.IsFit(s.Slope(), s.Intercept())
  {
    SolveNormalEquations(s, s.Slope(), s.Intercept(), s.Denominator());
  }

  lemma {:induction false} SolveNormalEquations(s: Sums, a: real, b: real, den: real)
    requires s.n > 0.0 && den != 0.0
    requires den == s.n * s.xx - s.x * s.x
    requires a == (s.n * s.xy - s.x * s.y) / den
    requires b == (s.y - a * s.x) / s.n
    ensures s.IsFit(a, b)
  {
    assert b * s.n == s.y - a * s.x;
    assert a * (s.n * s.xx) - a * (s.x * s.x) == s.n * s.xy - s.x * s.y by {
      assert a * den == s.n * s.xy - s.x * s.y;
    }
    assert s.n * (a * s.xx + b * s.x) == s.n * s.xy by {
      assert (b * s.n) * s.x == s.y * s.x - a * (s.x * s.x);
    }
  }

  lemma {:induction false} Distributes(k: real, u: real, v: real)
    ensures k * (u + v) == k * u + k * v
  {
  }

  lemma {:induction false} SquareExpanded(x: real, y: real, a: real, b: real)
    ensures SquaredResidual(x, y, a, b)
         == y * y - 2.0 * a * (x * y) - 2.0 * b * y + a * a * (x * x) + 2.0 * (a * b) * x + b * b
  {
  }

  /** One more point adds its own squared residual. */
  lemma {:induction false} ExpansionStep(s: Sums, x: real, y: real, a: real, b: real)
    ensures s.Add(x, y).Expansion(a, b) == s.Expansion(a, b) + SquaredResidual(x, y, a, b)
  {
    SquareExpanded(x, y, a, b);
    Distributes(2.0 * a, s.xy, x * y);
    Distributes(2.0 * b, s.y, y);
    Distributes(a * a, s.xx, x * x);
    Distributes(2.0 * (a * b), s.x, x);
    Distributes(b * b, s.n, 1.0);
  }

  /** Completing the square. */
  lemma {:induction false} GapAlgebra(s: Sums, a: real, b: real, p: real, q: real)
    requires s.IsFit(a, b)
    ensures s.n * (s.Expansion(p, q) - s.Expansion(a, b)) == s.Gap(p - a, q - b)
  {
    var u, v := p - a, q - b;
    assert p * p == a * a + 2.0 * (a * u) + u * u;
    assert q * q == b * b + 2.0 * (b * v) + v * v;
    assert p * q == a * b + a * v + u * b + u * v;
    assert u * s.xy == u * (a * s.xx) + u * (b * s.x);
    assert v * s.y == v * (a * s.x) + v * (b * s.n);
    assert s.Expansion(p, q) - s.Expansion(a, b) == u * u * s.xx + 2.0 * (u * v) * s.x + v * v * s.n;
  }

  /** The gap is never negative and vanishes only for the fitted line itself. */
  lemma {:induction false} GapDecides(s: Sums, u: real, v: real)
    requires s.n > 0.0 && s.Denominator() > 0.0
    ensures s.Gap(u, v) >= 0.0
    ensures s.Gap(u, v) == 0.0 <==> u == 0.0 && v == 0.0
  {
    SquareSign(s.n * v + u * s.x);
    SquareSign(u);
    SignOfProduct(s.Denominator(), u * u);
    if u == 0.0 && v != 0.0 {
      assert s.n * v != 0.0;
    }
  }

  /** A line satisfying the normal equations beats every other line. */
  lemma {:induction false} FitIsUniqueMinimum(s: Sums, a: real, b: real, p: real, q: real)
    requires s.n > 0.0 && s.Denominator() > 0.0 && s.IsFit(a, b)
    ensures s.Expansion(a, b) <= s.Expansion(p, q)
    ensures s.Expansion(a, b) == s.Expansion(p, q) <==> p == a && q == b
  {
    GapAlgebra(s, a, b, p, q);
    GapDecides(s, p - a, q - b);
    SignOfProduct(s.n, s.Expansion(p, q) - s.Expansion(a, b));
  }

  lemma {:induction false} IndexSumsStep(s: Sums, y: real)
    requires s.IndexSums()
    ensures s.Add(s.n, y).IndexSums()
  {
  }

  lemma {:induction false} IndexDenominator(s: Sums)
    requires s.IndexSums()
    ensures 12.0 * s.Denominator() == s.n * s.n * (s.n * s.n - 1.0)
  {
    assert 4.0 * (s.x * s.x) == s.n * (s.n - 1.0) * (s.n * (s.n - 1.0)) by {
      assert (2.0 * s.x) * (2.0 * s.x) == s.n * (s.n - 1.0) * (s.n * (s.n - 1.0));
    }
    assert 12.0 * (s.n * s.xx) == 2.0 * s.n * (s.n * (s.n - 1.0) * (2.0 * s.n - 1.0)) by {
      assert 12.0 * (s.n * s.xx) == 2.0 * s.n * (6.0 * s.xx);
    }
  }

  /** How far the next value of a trend and a weighted average move away from the mean. */
  predicate SpanRatio(n: real, trend: real, mean: real, weighted: real) {
    (trend - mean) * (n - 1.0) == 3.0 * (n + 1.0) * (weighted - mean)
  }

  lemma {:induction false} TrendAlgebra(s: Sums, a: real, b: real, mean: real, weighted: real)
    requires s.n >= 2.0 && s.IndexSums() && s.IsFit(a, b)
    requires mean * s.n == s.y
    requires weighted * (s.n * (s.n + 1.0)) == 2.0 * (s.xy + s.y)
    ensures SpanRatio(s.n, LineAt(a, b, s.n), mean, weighted)
  {
    var n := s.n;
    // mean = b + a (n - 1) / 2, hence trend - mean = a (n + 1) / 2
    assert 2.0 * mean == 2.0 * b + a * (n - 1.0) by {
      assert n * (2.0 * mean) == a * (n * (n - 1.0)) + 2.0 * (b * n);
      CancelFactor(n, 2.0 * mean, 2.0 * b + a * (n - 1.0));
    }
    // weighted - mean = a (n - 1) / 6
    assert 6.0 * (weighted - mean) == a * (n - 1.0) by {
      assert 6.0 * s.xy == a * (n * (n - 1.0) * (2.0 * n - 1.0)) + 3.0 * b * (n * (n - 1.0));
      var tripled := a * (n - 1.0) * (2.0 * n - 1.0) + 3.0 * b * (n - 1.0) + 6.0 * mean;
      assert n * (3.0 * weighted * (n + 1.0)) == n * tripled;
      CancelFactor(n, 3.0 * weighted * (n + 1.0), tripled);
      assert 3.0 * b * (n - 1.0) == 3.0 * mean * (n - 1.0) - 1.5 * (a * (n - 1.0)) * (n - 1.0);
      assert 3.0 * weighted * (n + 1.0) == 3.0 * mean * (n + 1.0) + 0.5 * (a * (n - 1.0)) * (n + 1.0);
      CancelFactor(n + 1.0, 6.0 * (weighted - mean), a * (n - 1.0));
    }
    assert 2.0 * (a * n + b - mean) == a * (n + 1.0);
    assert 2.0 * ((a * n + b - mean) * (n - 1.0)) == (a * (n + 1.0)) * (n - 1.0);
    assert 6.0 * ((weighted - mean) * (n + 1.0)) == (a * (n - 1.0)) * (n + 1.0);
  }

  /** The same, from the quotients the two averages are computed as. */
  lemma {:induction false} TrendFromQuotients(s: Sums, a: real, b: real, mean: real, weights: real, weighted: real)
    requires s.n >= 2.0 && s.IndexSums() && s.IsFit(a, b)
    requires weights > 0.0 && 2.0 * weights == s.n * (s.n + 1.0)
    requires mean == s.y / s.n && weighted == (s.xy + s.y) / weights
    ensures SpanRatio(s.n, LineAt(a, b, s.n), mean, weighted)
  {
    ScaleBack(s.y, s.n, mean);
    ScaleBack(s.xy + s.y, weights, weighted);
    Doubled(weighted, weights, s.n * (s.n + 1.0), s.xy + s.y);
    TrendAlgebra(s, a, b, mean, weighted);
  }

  lemma {:induction false} ScaleBack(total: real, divisor: real, quotient: real)
    requires divisor > 0.0 && quotient == total / divisor
    ensures quotient * divisor == total
  {
  }

  lemma {:induction false} Doubled(q: real, half: real, whole: real, total: real)
    requires 2.0 * half == whole && q * half == total
    ensures q * whole == 2.0 * total
  {
  }

  predicate Between(x: real, lo: real, hi: real) {
    lo <= x <= hi || hi <= x <= lo
  }

  lemma {:induction false} SpanRatioOrders(n: real, trend: real, mean: real, weighted: real)
    requires n >= 2.0 && SpanRatio(n, trend, mean, weighted)
    ensures Between(weighted, mean, trend)
  {
    var near, far := weighted - mean, trend - mean;
    var small, large := n - 1.0, 3.0 * (n + 1.0);
    assert far * small == large * near;
    if near >= 0.0 {
      assert large * near >= small * near;
      SignOfProduct(small, far - near);
    } else {
      assert large * near <= small * near;
      SignOfProduct(small, near - far);
    }
  }
}
