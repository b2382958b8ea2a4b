/**
 One-period forecasts from a historical series: simple and weighted moving averages and a
 hand-rolled least-squares trend line, over exact real arithmetic.
 */
module Forecast {
  import opened Wrappers
  import opened Rounding
  import opened LeastSquares
  import opened RealArithmetic

  const MIN_HISTORY := 2

  datatype Method = SimpleMovingAverage | WeightedMovingAverage | LinearTrend

  /** An unavailable forecast is an honest gap, not a made-up value. */
  datatype Forecast =
    | Unavailable(inputs: seq<real>)
    | Available(algorithm: Method, value: real, inputs: seq<real>, windowSize: Option<nat>)

  function Sum(values: seq<real>): real {
    if values == [] then 0.0 else Sum(values[..|values| - 1]) + values[|values| - 1]
  }

  function Scaled(x: real, factor: real): real {
    x * factor
  }

  /** Weights 1..n, oldest to newest. */
  function WeightedSum(values: seq<real>): real {
    if values == [] then 0.0
    else WeightedSum(values[..|values| - 1]) + Scaled(values[|values| - 1], |values| as real)
  }

  function WeightTotal(n: nat): (w: real)
    ensures n == 0 ==> w == 0.0
    ensures n > 0 ==> w > 0.0
  {
    if n == 0 then 0.0 else WeightTotal(n - 1) + n as real
  }

  /** The five sums of the regression over x = 0..n-1, y = values. */
  function SumsOf(values: seq<real>): Sums {
    if values == [] then ZERO
    else SumsOf(values[..|values| - 1]).Add((|values| - 1) as real, values[|values| - 1])
  }

  /** The Python slice `history[-window:] if window > 0 else history`. */
  function Used(history: seq<real>, window: int): (used: seq<real>)
    ensures |used| == if 0 < window < |history| then window else |history|
    ensures used == history[|history| - |used|..]
  {
    if 0 < window < |history| then history[|history| - window..] else history
  }

  function SimpleAverage(used: seq<real>): real
    requires used != []
  {
    Sum(used) / |used| as real
  }

  function WeightedAverage(used: seq<real>): real
    requires used != []
  {
    WeightedSum(used) / WeightTotal(|used|)
  }

  function LinearRegressionNext(values: seq<real>): real
    requires values != []
  {
    SumsOfShape(values);
    var s := SumsOf(values);
    if s.Denominator() == 0.0 then values[|values| - 1]
    else LineAt(s.Slope(), s.Intercept(), s.n)
  }

  function ForecastSimpleMovingAverage(history: seq<real>, window: int): Forecast {
    if |history| < MIN_HISTORY then Unavailable(history)
    else
      var used := Used(history, window);
      Available(SimpleMovingAverage, QuantizeMoney(SimpleAverage(used)), used, Some(|used|))
  }

  function ForecastWeightedMovingAverage(history: seq<real>, window: int): Forecast {
    if |history| < MIN_HISTORY then Unavailable(history)
    else
      var used := Used(history, window);
      Available(WeightedMovingAverage, QuantizeMoney(WeightedAverage(used)), used, Some(|used|))
  }

  function ForecastLinearTrend(history: seq<real>): Forecast {
    if |history| < MIN_HISTORY then Unavailable(history)
    else Available(LinearTrend, QuantizeMoney(LinearRegressionNext(history)), history, None)
  }

  function ForecastNextPeriod(history: seq<real>, algorithm: Method, window: int): (f: Forecast)
    ensures f.Available? <==> |history| >= 2
    ensures f.Available? ==> f.algorithm == algorithm
    ensures |f.inputs| == if f.Available? && algorithm != LinearTrend && 0 < window < |history| then window else |history|
    ensures f.inputs == history[|history| - |f.inputs|..]
    ensures f.Available? ==> f.windowSize == if algorithm == LinearTrend then None else Some(|f.inputs|)
  {
    match algorithm
    case SimpleMovingAverage => ForecastSimpleMovingAverage(history, window)
    case WeightedMovingAverage => ForecastWeightedMovingAverage(history, window)
    case LinearTrend => ForecastLinearTrend(history)
  }

  // ---------------------------------------------------------------- sums in closed form

  lemma {:induction false} SumsOfShape(values: seq<real>)
    ensures SumsOf(values).n == |values| as real
    ensures SumsOf(values).IndexSums()
  {
    if values != [] {
      SumsOfShape(values[..|values| - 1]);
      IndexSumsStep(SumsOf(values[..|values| - 1]), values[|values| - 1]);
    }
  }

  lemma {:induction false} SumsOfAverages(values: seq<real>)
    ensures SumsOf(values).y == Sum(values)
    ensures SumsOf(values).xy + SumsOf(values).y == WeightedSum(values)
  {
    if values != [] {
      var before, last := values[..|values| - 1], values[|values| - 1];
      SumsOfAverages(before);
      AddedPoint(SumsOf(before), |values| as real, last, SumsOf(before).Add(|values| as real - 1.0, last));
    }
  }

  lemma {:induction false} AddedPoint(s: Sums, position: real, value: real, added: Sums)
    requires added == s.Add(position - 1.0, value)
    ensures added.y == s.y + value
    ensures added.xy + added.y == s.xy + s.y + Scaled(value, position)
  {
  }

  lemma {:induction false} WeightTotalClosedForm(n: nat)
    ensures 2.0 * WeightTotal(n) == n as real * (n as real + 1.0)
  {
    if n > 0 {
      WeightTotalClosedForm(n - 1);
    }
  }

  /** The zero guard of the regression is taken for a single point only. */
  lemma {:induction false} DenominatorClosedForm(values: seq<real>)
    requires values != []
    ensures var n := |values| as real;
            12.0 * SumsOf(values).Denominator() == n * n * (n * n - 1.0)
    ensures SumsOf(values).Denominator() == 0.0 <==> |values| == 1
    ensures |values| >= 2 ==> SumsOf(values).Denominator() > 0.0
  {
    SumsOfShape(values);
    IndexDenominator(SumsOf(values));
    var n := |values| as real;
    if |values| >= 2 {
      assert n * n >= 4.0;
      SignOfProduct(n * n, n * n - 1.0);
    }
  }

  // ---------------------------------------------------------------- least squares

  /** Sum of squared residuals of the line over x = 0..n-1. */
  function Residuals(values: seq<real>, slope: real, intercept: real): (r: real)
    ensures r >= 0.0
  {
    if values == [] then 0.0
    else
      var last := |values| - 1;
      Residuals(values[..last], slope, intercept) + SquaredResidual(last as real, values[last], slope, intercept)
  }

  lemma {:induction false} ResidualsExpanded(values: seq<real>, a: real, b: real)
    ensures Residuals(values, a, b) == SumsOf(values).Expansion(a, b)
  {
    if values != [] {
      var last := |values| - 1;
      ResidualsExpanded(values[..last], a, b);
      ExpansionStep(SumsOf(values[..last]), last as real, values[last], a, b);
    }
  }

  lemma {:induction false} FitExists(values: seq<real>)
    requires |values| >= 2
    ensures var s := SumsOf(values);
            s.n == |values| as real && s.IndexSums() && s.Denominator() > 0.0 && s.IsFit(s.Slope(), s.Intercept())
  {
    SumsOfShape(values);
    DenominatorClosedForm(values);
    ClosedFormsFit(SumsOf(values));
  }

  lemma {:induction false} NextOnLine(values: seq<real>, d: real, c: real)
    requires values != [] && SumsOf(values).n == |values| as real && SumsOf(values).Denominator() > 0.0
    requires SumsOf(values).Slope() == d && SumsOf(values).Intercept() == c
    ensures LinearRegressionNext(values) == LineAt(d, c, |values| as real)
  {
  }

  /** The fitted line is the one and only line with the least sum of squared residuals. */
  lemma {:induction false} FitIsTheUniqueLeastSquaresLine(values: seq<real>, p: real, q: real)
    requires |values| >= 2
    ensures SumsOf(values).n > 0.0 && SumsOf(values).Denominator() > 0.0
    ensures var a, b := SumsOf(values).Slope(), SumsOf(values).Intercept();
            && Residuals(values, a, b) <= Residuals(values, p, q)
            && (Residuals(values, a, b) == Residuals(values, p, q) <==> p == a && q == b)
  {
    FitExists(values);
    var s := SumsOf(values);
    ResidualsExpanded(values, p, q);
    ResidualsExpanded(values, s.Slope(), s.Intercept());
    FitIsUniqueMinimum(s, s.Slope(), s.Intercept(), p, q);
  }

  lemma {:induction false} AffineHasNoResidual(values: seq<real>, c: real, d: real)
    requires forall i :: 0 <= i < |values| ==> values[i] == LineAt(d, c, i as real)
    ensures Residuals(values, d, c) == 0.0
  {
    if values != [] {
      AffineHasNoResidual(values[..|values| - 1], c, d);
    }
  }

  /** A history that already lies on a line is continued along that line. */
  lemma {:induction false} AffineHistoryIsContinued(values: seq<real>, c: real, d: real)
    requires |values| >= MIN_HISTORY
    requires forall i :: 0 <= i < |values| ==> values[i] == LineAt(d, c, i as real)
    ensures ForecastLinearTrend(values).Available?
    ensures ForecastLinearTrend(values).value == QuantizeMoney(LineAt(d, c, |values| as real))
  {
    AffineHasNoResidual(values, c, d);
    FitIsTheUniqueLeastSquaresLine(values, d, c);
    SumsOfShape(values);
    NextOnLine(values, d, c);
  }

  // ---------------------------------------------------------------- the methods compared

  /**
   Trend, weighted average and plain average of the same points are tied by one equation:
   (trend - mean) (n - 1) = 3 (n + 1) (weighted - mean).
   */
  lemma {:induction false} TrendVersusAverages(values: seq<real>)
    requires |values| >= 2
    ensures SpanRatio(|values| as real, LinearRegressionNext(values), SimpleAverage(values), WeightedAverage(values))
  {
    var a, b := FittedLine(values);
    var s, mean, weights, weighted := AveragesFromSums(values);
    TrendFromQuotients(s, a, b, mean, weights, weighted);
  }

  lemma {:induction false} FittedLine(values: seq<real>) returns (a: real, b: real)
    requires |values| >= 2
    ensures SumsOf(values).IsFit(a, b)
    ensures LinearRegressionNext(values) == LineAt(a, b, |values| as real)
  {
    FitExists(values);
    a, b := SumsOf(values).Slope(), SumsOf(values).Intercept();
    NextOnLine(values, a, b);
  }

  lemma {:induction false} MeanFromSums(values: seq<real>, s: Sums) returns (mean: real)
    requires values != [] && s == SumsOf(values)
    ensures s.n == |values| as real && mean == SimpleAverage(values) == s.y / s.n
  {
    SumsOfShape(values);
    SumsOfAverages(values);
    mean := SimpleAverage(values);
  }

  lemma {:induction false} Weights(n: nat, size: real) returns (weights: real)
    requires n > 0 && size == n as real
    ensures weights == WeightTotal(n) && weights > 0.0 && 2.0 * weights == size * (size + 1.0)
  {
    WeightTotalClosedForm(n);
    weights := WeightTotal(n);
  }

  lemma {:induction false} WeightedQuotient(values: seq<real>, total: real, weights: real)
    requires values != [] && total == WeightedSum(values) && weights == WeightTotal(|values|)
    ensures WeightedAverage(values) == total / weights
  {
  }

  lemma {:induction false} WeightedFromSums(values: seq<real>, s: Sums, weights: real) returns (weighted: real)
    requires values != [] && s == SumsOf(values) && weights == WeightTotal(|values|)
    ensures weighted == WeightedAverage(values) == (s.xy + s.y) / weights
  {
    SumsOfAverages(values);
    WeightedQuotient(values, s.xy + s.y, weights);
    weighted := WeightedAverage(values);
  }

  lemma {:induction false} AveragesFromSums(values: seq<real>) returns (s: Sums, mean: real, weights: real, weighted: real)
    requires values != []
    ensures s == SumsOf(values) && s.n == |values| as real && s.IndexSums()
    ensures mean == SimpleAverage(values) == s.y / s.n
    ensures weights > 0.0 && 2.0 * weights == s.n * (s.n + 1.0)
    ensures weighted == WeightedAverage(values) == (s.xy + s.y) / weights
  {
    s := SumsOf(values);
    SumsOfShape(values);
    mean := MeanFromSums(values, s);
    weights := Weights(|values|, s.n);
    weighted := WeightedFromSums(values, s, weights);
  }

  /** Whatever the data, the weighted average never leaves the span from plain average to trend. */
  lemma {:induction false} WeightedBetweenAverageAndTrend(values: seq<real>)
    requires |values| >= 2
    ensures Between(WeightedAverage(values), SimpleAverage(values), LinearRegressionNext(values))
  {
    TrendVersusAverages(values);
    SpanRatioOrders(|values| as real, LinearRegressionNext(values), SimpleAverage(values), WeightedAverage(values));
  }

  /** What a method makes of its points, before rounding. */
  function Estimate(algorithm: Method, points: seq<real>): real
    requires points != []
  {
    match algorithm
    case SimpleMovingAverage => SimpleAverage(points)
    case WeightedMovingAverage => WeightedAverage(points)
    case LinearTrend => LinearRegressionNext(points)
  }

  /** The value published is the rounded estimate from exactly the inputs published beside it. */
  lemma {:induction false} ValueComesFromInputs(history: seq<real>, algorithm: Method, window: int)
    requires |history| >= MIN_HISTORY
    ensures var f := ForecastNextPeriod(history, algorithm, window);
            f.Available? && f.inputs != [] && f.value == QuantizeMoney(Estimate(algorithm, f.inputs))
  {
  }

  lemma {:induction false} PublishedEstimate(history: seq<real>, algorithm: Method, window: int) returns (estimate: real)
    requires |history| >= MIN_HISTORY && (window <= 0 || window >= |history|)
    ensures estimate == Estimate(algorithm, history)
    ensures ForecastNextPeriod(history, algorithm, window).Available?
    ensures ForecastNextPeriod(history, algorithm, window).value == QuantizeMoney(estimate)
  {
    ValueComesFromInputs(history, algorithm, window);
    estimate := Estimate(algorithm, history);
  }

  lemma {:induction false} EstimatesInOrder(values: seq<real>, mean: real, weighted: real, trend: real)
    requires |values| >= 2
    requires mean == Estimate(SimpleMovingAverage, values) && weighted == Estimate(WeightedMovingAverage, values)
    requires trend == Estimate(LinearTrend, values)
    ensures Between(weighted, mean, trend)
  {
    WeightedBetweenAverageAndTrend(values);
  }

  lemma {:induction false} RoundingKeepsBetween(x: real, lo: real, hi: real)
    requires Between(x, lo, hi)
    ensures Between(QuantizeMoney(x), QuantizeMoney(lo), QuantizeMoney(hi))
  {
    if lo <= x <= hi {
      QuantizeMoneyMonotone(lo, x);
      QuantizeMoneyMonotone(x, hi);
    } else {
      QuantizeMoneyMonotone(hi, x);
      QuantizeMoneyMonotone(x, lo);
    }
  }

  /** The three estimates behind the published forecasts, known here only by their order. */
  lemma {:induction false} PublishedEstimates(history: seq<real>, window: int) returns (mean: real, weighted: real, trend: real)
    requires |history| >= MIN_HISTORY && (window <= 0 || window >= |history|)
    ensures Between(weighted, mean, trend)
    ensures ForecastNextPeriod(history, SimpleMovingAverage, window).Available?
    ensures ForecastNextPeriod(history, SimpleMovingAverage, window).value == QuantizeMoney(mean)
    ensures ForecastNextPeriod(history, WeightedMovingAverage, window).Available?
    ensures ForecastNextPeriod(history, WeightedMovingAverage, window).value == QuantizeMoney(weighted)
    ensures ForecastNextPeriod(history, LinearTrend, window).Available?
    ensures ForecastNextPeriod(history, LinearTrend, window).value == QuantizeMoney(trend)
  {
    mean := PublishedEstimate(history, SimpleMovingAverage, window);
    weighted := PublishedEstimate(history, WeightedMovingAverage, window);
    trend := PublishedEstimate(history, LinearTrend, window);
    EstimatesInOrder(history, mean, weighted, trend);
  }

  /** The same ordering for the published, rounded forecasts whenever the window spans the history. */
  lemma {:induction false} RoundedForecastsKeepTheOrder(history: seq<real>, window: int)
    requires |history| >= MIN_HISTORY
    requires window <= 0 || window >= |history|
    ensures var simple := ForecastNextPeriod(history, SimpleMovingAverage, window);
            var weighted := ForecastNextPeriod(history, WeightedMovingAverage, window);
            var trend := ForecastNextPeriod(history, LinearTrend, window);
            simple.Available? && weighted.Available? && trend.Available?
            && Between(weighted.value, simple.value, trend.value)
  {
    var mean, weighted, trend := PublishedEstimates(history, window);
    RoundingKeepsBetween(weighted, mean, trend);
  }

  predicate Within(values: seq<real>, lo: real, hi: real) {
    forall i :: 0 <= i < |values| ==> lo <= values[i] <= hi
  }

  lemma {:induction false} SumWithin(values: seq<real>, lo: real, hi: real)
    requires Within(values, lo, hi)
    ensures Scaled(lo, |values| as real) <= Sum(values) <= Scaled(hi, |values| as real)
  {
    if values != [] {
      var last := |values| - 1;
      SumWithin(values[..last], lo, hi);
      ScaledStep(lo, values[last], hi, last as real, 1.0);
    }
  }

  lemma {:induction false} WeightedSumWithin(values: seq<real>, lo: real, hi: real)
    requires Within(values, lo, hi)
    ensures Scaled(lo, WeightTotal(|values|)) <= WeightedSum(values) <= Scaled(hi, WeightTotal(|values|))
  {
    if values != [] {
      var last := |values| - 1;
      WeightedSumWithin(values[..last], lo, hi);
      ScaledStep(lo, values[last], hi, WeightTotal(last), |values| as real);
    }
  }

  lemma {:induction false} ScaledStep(lo: real, v: real, hi: real, factor: real, more: real)
    requires lo <= v <= hi && more >= 0.0
    ensures Scaled(lo, factor + more) <= Scaled(lo, factor) + Scaled(v, more)
    ensures Scaled(hi, factor) + Scaled(v, more) <= Scaled(hi, factor + more)
  {
    assert lo * more <= v * more <= hi * more;
  }

  /** Whatever the window, a published moving average stays within the values it was computed from. */
  lemma {:induction false} MovingAveragesStayInRange(history: seq<real>, window: int, lo: real, hi: real)
    requires |history| >= MIN_HISTORY
    requires Within(Used(history, window), lo, hi)
    ensures ForecastSimpleMovingAverage(history, window).Available?
    ensures ForecastWeightedMovingAverage(history, window).Available?
    ensures QuantizeMoney(lo) <= ForecastSimpleMovingAverage(history, window).value <= QuantizeMoney(hi)
    ensures QuantizeMoney(lo) <= ForecastWeightedMovingAverage(history, window).value <= QuantizeMoney(hi)
  {
    var used := Used(history, window);
    SumWithin(used, lo, hi);
    WeightedSumWithin(used, lo, hi);
    QuotientWithin(Sum(used), |used| as real, lo, hi);
    QuotientWithin(WeightedSum(used), WeightTotal(|used|), lo, hi);
    QuantizeMoneyMonotone(lo, SimpleAverage(used));
    QuantizeMoneyMonotone(SimpleAverage(used), hi);
    QuantizeMoneyMonotone(lo, WeightedAverage(used));
    QuantizeMoneyMonotone(WeightedAverage(used), hi);
  }

  lemma {:induction false} QuotientWithin(total: real, divisor: real, lo: real, hi: real)
    requires divisor > 0.0
    requires Scaled(lo, divisor) <= total <= Scaled(hi, divisor)
    ensures lo <= total / divisor <= hi
  {
    var q := total / divisor;
    assert q * divisor == total;
    SignOfProduct(divisor, q - lo);
    SignOfProduct(divisor, hi - q);
  }
}
