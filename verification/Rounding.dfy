/**
 Decimal quantisation. Python's `Decimal.quantize` uses its default context, which rounds
 half to even (roundTiesToEven, section 4.3.1 of IEEE 754-2008).
 */
module Rounding {

  /** q is an integer nearest to x; at a tie both neighbours qualify. */
  predicate Nearest(x: real, q: int) {
    -0.5 <= x - q as real <= 0.5
  }

  predicate Tie(x: real, q: int) {
    x - q as real == 0.5 || x - q as real == -0.5
  }

  function RoundHalfEven(x: real): (q: int)
    ensures Nearest(x, q)
    ensures Tie(x, q) ==> q % 2 == 0
  {
    var down := x.Floor;
    var rest := x - down as real;
    if rest < 0.5 then down
    else if rest > 0.5 then down + 1
    else if down % 2 == 0 then down
    else down + 1
  }

  /** Away from a tie there is only one nearest integer. */
  lemma {:induction false} RoundStrictlyNear(x: real, q: int)
    requires -0.5 < x - q as real < 0.5
    ensures RoundHalfEven(x) == q
  {
    var r := RoundHalfEven(x);
    assert -1.0 < (r - q) as real < 1.0;
  }

  /** The two postconditions of RoundHalfEven leave no other result. */
  lemma {:induction false} RoundIsTheOnlyOne(x: real, q: int)
    ensures RoundHalfEven(x) == q <==> Nearest(x, q) && (Tie(x, q) ==> q % 2 == 0)
  {
    var r := RoundHalfEven(x);
    if Nearest(x, q) {
      assert -1.0 <= (r - q) as real <= 1.0;
      assert r == q || r == q + 1 || r == q - 1;
    }
  }

  /** Any way of breaking ties is monotone. */
  lemma {:induction false} NearestMonotone(x: real, y: real, p: int, q: int)
    requires x < y
    requires Nearest(x, p) && Nearest(y, q)
    ensures p <= q
  {
    assert (p - q) as real < 1.0;
  }

  lemma {:induction false} RoundMonotone(x: real, y: real)
    requires x <= y
    ensures RoundHalfEven(x) <= RoundHalfEven(y)
  {
    if x < y {
      NearestMonotone(x, y, RoundHalfEven(x), RoundHalfEven(y));
    }
  }

  lemma {:induction false} RoundWhole(n: int)
    ensures RoundHalfEven(n as real) == n
  {
  }

  /** `quantize_money`: an amount in currency units, rounded to whole cents. */
  function QuantizeMoney(amount: real): (r: real)
    ensures -0.005 <= amount - r <= 0.005
  {
    RoundHalfEven(amount * 100.0) as real / 100.0
  }

  /** The result is a whole number of cents, nearest to the amount, and an even one at a tie. */
  lemma {:induction false} QuantizeMoneyIsNearest(amount: real) returns (cents: int)
    ensures QuantizeMoney(amount) * 100.0 == cents as real
    ensures Nearest(amount * 100.0, cents) && (Tie(amount * 100.0, cents) ==> cents % 2 == 0)
  {
    cents := RoundHalfEven(amount * 100.0);
  }

  lemma {:induction false} QuantizeMoneyMonotone(x: real, y: real)
    requires x <= y
    ensures QuantizeMoney(x) <= QuantizeMoney(y)
  {
    RoundMonotone(x * 100.0, y * 100.0);
  }
}
