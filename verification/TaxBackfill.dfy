/**
 The migration that gives invoice and quote lines their own tax rate, and what an old invoice
 recomputes to afterwards. Nothing here depends on how the database's ROUND breaks ties.
 */
module TaxBackfill {
  import opened Wrappers
  import opened Rounding
  import opened RealArithmetic
  import opened TaxGroups

  /** SQL `ROUND`: some nearest integer, ties broken in any way. */
  ghost predicate SqlRound(rd: real -> int) {
    forall x :: Nearest(x, rd(x))
  }

  /** `CASE WHEN subtotal > 0 THEN ROUND(tax_amount * 1.0 / subtotal, 4) ELSE 0 END` */
  function RecoveredRate(rd: real -> int, subtotal: int, tax: int): int {
    if subtotal > 0 then rd(tax as real / subtotal as real * RATE_SCALE) else 0
  }

  /** How invoices computed their tax before lines had rates: `quantize(subtotal * rate)`. */
  function StoredTax(subtotal: int, rate: real): int {
    RoundHalfEven(subtotal as real * rate)
  }

  /** What re-editing the untouched invoice would charge. */
  function RecomputedTax(rd: real -> int, subtotal: int, tax: int): int {
    TaxOn(subtotal, RecoveredRate(rd, subtotal, tax))
  }

  // ---------------------------------------------------------------- the two error bounds

  /** x is the exact quotient in ten-thousandths. */
  lemma {:induction false} QuotientInRateUnits(subtotal: int, tax: int) returns (x: real)
    requires subtotal > 0
    ensures x == tax as real / subtotal as real * RATE_SCALE
    ensures x * subtotal as real == tax as real * RATE_SCALE
  {
    var ratio := tax as real / subtotal as real;
    assert ratio * subtotal as real == tax as real;
    x := ratio * RATE_SCALE;
    assert x * subtotal as real == (ratio * subtotal as real) * RATE_SCALE;
  }

  lemma {:induction false} BelowHalf(scale: real, gap: real, product: real)
    requires scale > 0.0 && product == scale * gap && -0.5 * scale < product < 0.5 * scale
    ensures -0.5 < gap < 0.5
  {
    OrderOfProducts(scale, gap, 0.5);
    OrderOfProducts(scale, -0.5, gap);
  }

  /** Above 100.00, half a cent of tax is less than half a unit of rate. */
  lemma {:induction false} RateErrorShrinks(s: real, r: real, exact: real, t: real, x: real)
    requires s > RATE_SCALE
    requires x * s == t * RATE_SCALE && exact == s * (r / RATE_SCALE)
    requires -0.5 <= exact - t <= 0.5
    ensures -0.5 < x - r < 0.5
  {
    assert s * r == exact * RATE_SCALE;
    var error := s * (r - x);
    assert error == s * r - x * s;
    BelowHalf(s, r - x, error);
  }

  /** Below 100.00, half a unit of rate is less than half a cent of tax. */
  lemma {:induction false} TaxErrorShrinks(s: real, q: real, t: real, x: real)
    requires 0.0 < s < RATE_SCALE
    requires x * s == t * RATE_SCALE
    requires -0.5 <= x - q <= 0.5
    ensures -0.5 < s * (q / RATE_SCALE) - t < 0.5
  {
    var gap := s * (q / RATE_SCALE) - t;
    assert gap * RATE_SCALE == s * q - t * RATE_SCALE == s * (q - x);
    var off := q - x;
    OrderOfProducts(s, off, 0.5);
    OrderOfProducts(s, -0.5, off);
    assert gap * RATE_SCALE == s * off;
    assert s * -0.5 <= s * off <= s * 0.5;
  }

  lemma {:induction false} RateRecoveredAbove(rd: real -> int, subtotal: int, rate: int)
    requires SqlRound(rd) && subtotal >= 10000
    ensures RecoveredRate(rd, subtotal, TaxOn(subtotal, rate)) == rate
  {
    var tax := TaxOn(subtotal, rate);
    var x := QuotientInRateUnits(subtotal, tax);
    var s, exact := TaxIsNearest(subtotal, rate);
    if subtotal == 10000 {
      RateAtScale(rate);
    } else {
      RateErrorShrinks(s, rate as real, exact, tax as real, x);
    }
    OnlyNearest(x, rate, rd(x));
  }

  lemma {:induction false} TaxIsNearest(subtotal: int, rate: int) returns (s: real, exact: real)
    ensures s == subtotal as real && exact == s * (rate as real / RATE_SCALE)
    ensures Nearest(exact, TaxOn(subtotal, rate))
  {
    s, exact := subtotal as real, ExactTax(subtotal, rate);
  }

  /** On a subtotal of exactly 100.00 the tax in cents is the rate in ten-thousandths. */
  lemma {:induction false} RateAtScale(rate: int)
    ensures TaxOn(10000, rate) == rate
  {
    assert ExactTax(10000, rate) == rate as real;
    RoundWhole(rate);
  }

  lemma {:induction false} OnlyNearest(x: real, q: int, r: int)
    requires -0.5 < x - q as real < 0.5 && Nearest(x, r)
    ensures q == r
  {
    assert -1.0 < (q - r) as real < 1.0;
  }

  lemma {:induction false} TaxRecoveredBelow(rd: real -> int, subtotal: int, tax: int)
    requires SqlRound(rd) && 0 < subtotal <= 10000
    ensures RecomputedTax(rd, subtotal, tax) == tax
  {
    var x := QuotientInRateUnits(subtotal, tax);
    var q := rd(x);
    assert Nearest(x, q);
    if subtotal == 10000 {
      assert x == tax as real;
      OnlyNearest(x, tax, q);
      RateAtScale(tax);
    } else {
      TaxErrorShrinks(subtotal as real, q as real, tax as real, x);
      RoundStrictlyNear(ExactTax(subtotal, q), tax);
    }
  }

  // ---------------------------------------------------------------- the promise, and where it ends

  /**
   An untouched invoice charged at a four-decimal rate recomputes to exactly the tax it stores,
   for every subtotal the schema allows; a negative subtotal keeps only a zero tax.
   */
  lemma {:induction false} HistoricalTaxRecomputes(rd: real -> int, subtotal: int, rate: int)
    requires SqlRound(rd)
    ensures var tax := TaxOn(subtotal, rate);
            RecomputedTax(rd, subtotal, tax) == tax <==> subtotal >= 0 || tax == 0
  {
    if subtotal >= 10000 {
      RateRecoveredAbove(rd, subtotal, rate);
    } else if subtotal > 0 {
      TaxRecoveredBelow(rd, subtotal, TaxOn(subtotal, rate));
    } else {
      assert ExactTax(subtotal, 0) == 0.0;
      assert subtotal == 0 ==> ExactTax(subtotal, rate) == 0.0;
    }
  }

  /** Somewhere along a slow climb two neighbours are equal. */
  lemma {:induction false} Plateau(f: int -> int, n: nat) returns (k: nat)
    requires forall i :: 0 <= i < n ==> f(i) <= f(i + 1)
    requires f(n) < f(0) + n
    ensures k < n && f(k) == f(k + 1)
  {
    k := n - 1;
    if f(k) != f(n) {
      assert f(k) <= f(k + 1);
      k := Plateau(f, n - 1);
    }
  }

  lemma {:induction false} TaxMonotoneInRate(subtotal: int, p: int, q: int)
    requires subtotal >= 0 && p <= q
    ensures TaxOn(subtotal, p) <= TaxOn(subtotal, q)
  {
    var s := subtotal as real;
    assert s * (q as real / RATE_SCALE) - s * (p as real / RATE_SCALE) == s * ((q - p) as real / RATE_SCALE);
    RoundMonotone(ExactTax(subtotal, p), ExactTax(subtotal, q));
  }

  /**
   The migration's docstring says the original rate itself always comes back. It does for every
   rate exactly when the subtotal is at least 100.00; below that some rate is lost.
   */
  lemma {:induction false} EveryRateComesBack(rd: real -> int, subtotal: int)
    requires SqlRound(rd) && subtotal > 0
    ensures (forall rate :: 0 <= rate <= 10000 ==> RecoveredRate(rd, subtotal, TaxOn(subtotal, rate)) == rate)
       <==> subtotal >= 10000
  {
    if subtotal >= 10000 {
      forall rate | 0 <= rate <= 10000
        ensures RecoveredRate(rd, subtotal, TaxOn(subtotal, rate)) == rate
      {
        RateRecoveredAbove(rd, subtotal, rate);
      }
    } else {
      var f := (rate: int) => TaxOn(subtotal, rate);
      forall i | 0 <= i < 10000
        ensures f(i) <= f(i + 1)
      {
        TaxMonotoneInRate(subtotal, i, i + 1);
      }
      assert f(0) == 0 by {
        assert ExactTax(subtotal, 0) == 0.0;
      }
      assert f(10000) == subtotal by {
        assert ExactTax(subtotal, 10000) == subtotal as real;
        RoundWhole(subtotal);
      }
      var k := Plateau(f, 10000);
      assert TaxOn(subtotal, k) == TaxOn(subtotal, k + 1);
      assert RecoveredRate(rd, subtotal, TaxOn(subtotal, k)) != k
          || RecoveredRate(rd, subtotal, TaxOn(subtotal, k + 1)) != k + 1;
    }
  }

  /** On 1.00 at rate 0.2201 the invoice stores 0.22, and the rate comes back as 0.2200. */
  lemma {:induction false} SmallInvoiceLosesTheRate(rd: real -> int)
    requires SqlRound(rd)
    ensures TaxOn(100, 2201) == 22 && RecoveredRate(rd, 100, 22) == 2200
  {
    assert ExactTax(100, 2201) == 22.01;
    RoundStrictlyNear(22.01, 22);
    var x := QuotientInRateUnits(100, 22);
    OnlyNearest(x, 2200, rd(x));
  }

  function PowerOfTen(n: nat): (p: int)
    ensures p > n
  {
    if n == 0 then 1 else 10 * PowerOfTen(n - 1)
  }

  /** The rate is m units of the n-th decimal. */
  predicate InDecimals(rate: real, m: int, n: nat) {
    rate == m as real / PowerOfTen(n) as real
  }

  /** The rate is one that a `Decimal` holds. */
  ghost predicate IsDecimal(rate: real) {
    exists m: int, n: nat :: InDecimals(rate, m, n)
  }

  /** Rounding at a scale finer than the subtotal moves the tax by less than half a cent. */
  lemma {:induction false} FineScale(s: real, scale: real, off: real, gap: real)
    requires 0.0 < s < scale && scale * gap == s * off && -0.5 <= off <= 0.5
    ensures -0.5 < gap < 0.5
  {
    var product := s * off;
    ProductWithin(s, off, -0.5, 0.5, product);
    BelowHalf(scale, gap, product);
  }

  lemma {:induction false} ErrorAtScale(s: real, scale: real, x: real, m: real, t: real, rate: real) returns (p: real, gap: real)
    requires x * s == t * scale && rate * scale == m
    ensures p == s * rate && gap == p - t && scale * gap == s * (m - x)
  {
    p := s * rate;
    gap := p - t;
    assert scale * p == s * m by {
      assert scale * (s * rate) == s * (rate * scale);
    }
    assert scale * gap == scale * p - t * scale;
    assert s * (m - x) == s * m - x * s;
  }

  lemma {:induction false} StoredNear(subtotal: int, rate: real, p: real, tax: int)
    requires p == subtotal as real * rate && -0.5 < p - tax as real < 0.5
    ensures StoredTax(subtotal, rate) == tax
  {
    RoundStrictlyNear(p, tax);
  }

  lemma {:induction false} FineRateGivesTheTax(subtotal: int, scale: int, x: real, m: int, tax: int, rate: real)
    requires 0 < subtotal < scale
    requires x * subtotal as real == tax as real * scale as real && rate * scale as real == m as real
    requires Nearest(x, m)
    ensures StoredTax(subtotal, rate) == tax
  {
    var p, gap := ErrorAtScale(subtotal as real, scale as real, x, m as real, tax as real, rate);
    FineScale(subtotal as real, scale as real, m as real - x, gap);
    StoredNear(subtotal, rate, p, tax);
  }

  /** The exact quotient at a scale, and the whole number next to it. */
  lemma {:induction false} QuotientAtScale(subtotal: int, tax: int, scale: int) returns (x: real, m: int)
    requires subtotal > 0 && 0 <= tax <= subtotal && scale > 0
    ensures x * subtotal as real == tax as real * scale as real
    ensures 0 <= m <= scale && Nearest(x, m)
  {
    var ratio := tax as real / subtotal as real;
    UnitRatio(tax as real, subtotal as real, ratio);
    x := ScaledRatio(ratio, scale as real);
    TimesScale(ratio, subtotal as real, tax as real, scale as real, x);
    m := RoundHalfEven(x);
    RoundMonotone(0.0, x);
    RoundMonotone(x, scale as real);
    RoundWhole(0);
    RoundWhole(scale);
  }

  lemma {:induction false} UnitRatio(part: real, whole: real, ratio: real)
    requires 0.0 <= part <= whole && whole > 0.0 && ratio == part / whole
    ensures ratio * whole == part && 0.0 <= ratio <= 1.0
  {
    OrderOfProducts(whole, ratio, 1.0);
    OrderOfProducts(whole, 0.0, ratio);
  }

  lemma {:induction false} ScaledRatio(ratio: real, scale: real) returns (x: real)
    requires 0.0 <= ratio <= 1.0 && scale > 0.0
    ensures x == ratio * scale && 0.0 <= x <= scale
  {
    x := ratio * scale;
    OrderOfProducts(scale, 0.0, ratio);
    OrderOfProducts(scale, ratio, 1.0);
  }

  lemma {:induction false} TimesScale(ratio: real, whole: real, part: real, scale: real, x: real)
    requires ratio * whole == part && x == ratio * scale
    ensures x * whole == part * scale
  {
    assert (ratio * scale) * whole == (ratio * whole) * scale;
  }

  /** A stored tax of t cents is reachable through a rate of finitely many decimals close to t / subtotal. */
  lemma {:induction false} AnyTaxIsReachable(subtotal: int, tax: int) returns (rate: real)
    requires subtotal > 0 && 0 <= tax <= subtotal
    ensures 0.0 <= rate <= 1.0 && IsDecimal(rate) && StoredTax(subtotal, rate) == tax
  {
    var scale := PowerOfTen(subtotal);
    var x, m := QuotientAtScale(subtotal, tax, scale);
    rate := WholeOver(m, scale);
    assert InDecimals(rate, m, subtotal);
    FineRateGivesTheTax(subtotal, scale, x, m, tax, rate);
  }

  lemma {:induction false} WholeOver(m: int, scale: int) returns (rate: real)
    requires 0 <= m <= scale && scale > 0
    ensures rate == m as real / scale as real && rate * scale as real == m as real && 0.0 <= rate <= 1.0
  {
    rate := m as real / scale as real;
    UnitRatio(m as real, scale as real, rate);
  }

  /** The stored tax survives for every rate between 0 and 1, of any precision whatever. */
  ghost predicate TaxSurvivesForReals(rd: real -> int, subtotal: int) {
    forall rate: real :: 0.0 <= rate <= 1.0 ==>
      RecomputedTax(rd, subtotal, StoredTax(subtotal, rate)) == StoredTax(subtotal, rate)
  }

  /** The same for the rates of finitely many decimals. */
  ghost predicate TaxSurvivesForDecimals(rd: real -> int, subtotal: int) {
    forall rate: real :: 0.0 <= rate <= 1.0 && IsDecimal(rate) ==>
      RecomputedTax(rd, subtotal, StoredTax(subtotal, rate)) == StoredTax(subtotal, rate)
  }

  /**
   Document rates were never limited to four decimals. The stored tax survives for every `Decimal`
   rate, or every real one, exactly when the subtotal is at most 100.00.
   */
  lemma {:induction false} AnyPrecisionTaxRecomputes(rd: real -> int, subtotal: int)
    requires SqlRound(rd) && subtotal > 0
    ensures TaxSurvivesForDecimals(rd, subtotal) <==> subtotal <= 10000
    ensures TaxSurvivesForReals(rd, subtotal) <==> subtotal <= 10000
  {
    if subtotal <= 10000 {
      forall rate: real | 0.0 <= rate <= 1.0
        ensures RecomputedTax(rd, subtotal, StoredTax(subtotal, rate)) == StoredTax(subtotal, rate)
      {
        TaxRecoveredBelow(rd, subtotal, StoredTax(subtotal, rate));
      }
    } else {
      var f := (tax: int) => RecoveredRate(rd, subtotal, tax);
      RecoveredRateClimbs(rd, subtotal);
      var k := Plateau(f, subtotal);
      var low := AnyTaxIsReachable(subtotal, k);
      var high := AnyTaxIsReachable(subtotal, k + 1);
      assert f(k) == f(k + 1);
      assert RecomputedTax(rd, subtotal, k) == RecomputedTax(rd, subtotal, k + 1);
    }
  }

  /** A rate of five decimals on 100.01: the invoice stores 50.01 and recomputes to 50.00. */
  lemma {:induction false} FiveDecimalsLoseACent(rd: real -> int)
    requires SqlRound(rd)
    ensures StoredTax(10001, 0.50001) == 5001 && RecomputedTax(rd, 10001, 5001) == 5000
  {
    JustOverHalf();
    var x := QuotientInRateUnits(10001, 5001);
    OnlyNearest(x, 5000, rd(x));
  }

  /** A rate of five decimals and the same rate cut to four, on 100.01. */
  lemma {:induction false} JustOverHalf()
    ensures StoredTax(10001, 0.50001) == 5001 && TaxOn(10001, 5000) == 5000
  {
    RoundStrictlyNear(10001.0 * 0.50001, 5001);
    assert ExactTax(10001, 5000) == 5000.5;
    RoundIsTheOnlyOne(5000.5, 5000);
  }

  lemma {:induction false} RecoveredRateClimbs(rd: real -> int, subtotal: int)
    requires SqlRound(rd) && subtotal > 10000
    ensures RecoveredRate(rd, subtotal, 0) == 0 && RecoveredRate(rd, subtotal, subtotal) == 10000
    ensures forall tax :: 0 <= tax < subtotal ==>
              RecoveredRate(rd, subtotal, tax) <= RecoveredRate(rd, subtotal, tax + 1)
  {
    var low := QuotientInRateUnits(subtotal, 0);
    OnlyNearest(low, 0, rd(low));
    var high := QuotientInRateUnits(subtotal, subtotal);
    assert subtotal as real / subtotal as real == 1.0;
    OnlyNearest(high, 10000, rd(high));
    forall tax | 0 <= tax < subtotal
      ensures RecoveredRate(rd, subtotal, tax) <= RecoveredRate(rd, subtotal, tax + 1)
    {
      var x := QuotientInRateUnits(subtotal, tax);
      var y := QuotientInRateUnits(subtotal, tax + 1);
      QuotientGrows(subtotal as real, x, y);
      NearestMonotone(x, y, rd(x), rd(y));
    }
  }

  lemma {:induction false} QuotientGrows(s: real, x: real, y: real)
    requires s > 0.0 && y * s == x * s + RATE_SCALE
    ensures x < y
  {
    OrderOfProducts(s, x, y);
  }

  // ---------------------------------------------------------------- the migration on the tables

  datatype Invoice = Invoice(subtotal: int, tax: int)

  /** A quote keeps its one rate, in ten-thousandths; NULL is possible. */
  datatype Quote = Quote(taxRate: Option<int>)

  /** A line item; its rate is meaningful once the column exists. */
  datatype LineRow = LineRow(parent: string, total: int, rate: int)

  function InvoiceLineRate(rd: real -> int, invoices: map<string, Invoice>, row: LineRow): int {
    if row.parent in invoices
    then RecoveredRate(rd, invoices[row.parent].subtotal, invoices[row.parent].tax)
    else 0
  }

  function QuoteLineRate(quotes: map<string, Quote>, row: LineRow): int {
    if row.parent in quotes && quotes[row.parent].taxRate.Some? then quotes[row.parent].taxRate.value else 0
  }

  function WithRates(rows: seq<LineRow>, rate: LineRow -> int): seq<LineRow> {
    seq(|rows|, i requires 0 <= i < |rows| => rows[i].(rate := rate(rows[i])))
  }

  class Database {
    var invoices: map<string, Invoice>
    var quotes: map<string, Quote>
    var invoiceLines: seq<LineRow>
    var quoteLines: seq<LineRow>
    var invoiceLinesHaveRate: bool
    var quoteLinesHaveRate: bool

    /** Stored amounts are untouched; a table that already has the column is left alone. */
    method AddLineItemTaxRates(rd: real -> int)
      modifies this`invoiceLines, this`quoteLines, this`invoiceLinesHaveRate, this`quoteLinesHaveRate
      ensures invoiceLinesHaveRate && quoteLinesHaveRate
      ensures invoiceLines == if old(invoiceLinesHaveRate) then old(invoiceLines)
                              else WithRates(old(invoiceLines), row => InvoiceLineRate(rd, old(invoices), row))
      ensures quoteLines == if old(quoteLinesHaveRate) then old(quoteLines)
                            else WithRates(old(quoteLines), row => QuoteLineRate(old(quotes), row))
    {
      if !invoiceLinesHaveRate {
        invoiceLinesHaveRate := true;
        var n := 0;
        while n < |invoiceLines|
          invariant n <= |invoiceLines| == |old(invoiceLines)|
          invariant forall i :: 0 <= i < n ==>
            invoiceLines[i] == old(invoiceLines)[i].(rate := InvoiceLineRate(rd, old(invoices), old(invoiceLines)[i]))
          invariant forall i :: n <= i < |invoiceLines| ==> invoiceLines[i] == old(invoiceLines)[i]
          invariant invoiceLinesHaveRate && quoteLinesHaveRate == old(quoteLinesHaveRate) && quoteLines == old(quoteLines)
        {
          var row := invoiceLines[n];
          invoiceLines := invoiceLines[n := row.(rate := InvoiceLineRate(rd, invoices, row))];
          n := n + 1;
        }
      }
      if !quoteLinesHaveRate {
        quoteLinesHaveRate := true;
        ghost var migrated := invoiceLines;
        var n := 0;
        while n < |quoteLines|
          invariant n <= |quoteLines| == |old(quoteLines)|
          invariant forall i :: 0 <= i < n ==>
            quoteLines[i] == old(quoteLines)[i].(rate := QuoteLineRate(old(quotes), old(quoteLines)[i]))
          invariant forall i :: n <= i < |quoteLines| ==> quoteLines[i] == old(quoteLines)[i]
          invariant invoiceLinesHaveRate && quoteLinesHaveRate && invoiceLines == migrated
        {
          var row := quoteLines[n];
          quoteLines := quoteLines[n := row.(rate := QuoteLineRate(quotes, row))];
          n := n + 1;
        }
      }
    }
  }

  function AsLine(row: LineRow): Line {
    Line(row.total, Some(row.rate as real / RATE_SCALE))
  }

  /** A stored four-decimal rate is its own grouping key. */
  lemma {:induction false} StoredRateIsItsKey(row: LineRow)
    ensures RateKey(AsLine(row)) == row.rate
  {
    assert (row.rate as real / RATE_SCALE) * RATE_SCALE == row.rate as real;
    RoundWhole(row.rate);
  }

  /** The lines of one document, as the grouping function reads them. */
  function DocumentLines(rows: seq<LineRow>, parent: string): seq<Line> {
    if rows == [] then []
    else
      var last := rows[|rows| - 1];
      DocumentLines(rows[..|rows| - 1], parent)
      + if last.parent == parent then [AsLine(last)] else []
  }

  lemma {:induction false} TotalOfAppended(lines: seq<Line>, line: Line)
    ensures Total(lines + [line]) == Total(lines) + line.total
  {
    assert (lines + [line])[..|lines|] == lines;
  }

  lemma {:induction false} MigratedTotal(rows: seq<LineRow>, parent: string, rate: LineRow -> int)
    ensures Total(DocumentLines(WithRates(rows, rate), parent)) == Total(DocumentLines(rows, parent))
  {
    if rows != [] {
      var last := |rows| - 1;
      MigratedTotal(rows[..last], parent, rate);
      var migrated := WithRates(rows, rate);
      assert migrated[..last] == WithRates(rows[..last], rate);
      assert migrated[last] == rows[last].(rate := rate(rows[last]));
      var before, after := DocumentLines(rows[..last], parent), DocumentLines(migrated[..last], parent);
      if rows[last].parent == parent {
        TotalOfAppended(before, AsLine(rows[last]));
        TotalOfAppended(after, AsLine(migrated[last]));
      } else {
        assert before + [] == before && after + [] == after;
      }
    }
  }

  lemma {:induction false} MigratedRates(rows: seq<LineRow>, parent: string, rate: LineRow -> int, own: int)
    requires forall row: LineRow :: row.parent == parent ==> rate(row) == own
    ensures forall line :: line in DocumentLines(WithRates(rows, rate), parent) ==> RateKey(line) == own
  {
    if rows != [] {
      var last := |rows| - 1;
      MigratedRates(rows[..last], parent, rate, own);
      assert WithRates(rows, rate)[..last] == WithRates(rows[..last], rate);
      StoredRateIsItsKey(WithRates(rows, rate)[last]);
    }
  }

  /**
   What the migration writes into each line: only the rate, and 0 where the parent is missing, has no rate
   or, for an invoice, no positive subtotal.
   */
  lemma {:induction false} MigratedRow(rd: real -> int, invoices: map<string, Invoice>, quotes: map<string, Quote>,
                                       rows: seq<LineRow>, i: nat)
    requires i < |rows|
    ensures var row := rows[i];
            var invoiceRow := WithRates(rows, row => InvoiceLineRate(rd, invoices, row))[i];
            var quoteRow := WithRates(rows, row => QuoteLineRate(quotes, row))[i];
            && invoiceRow.parent == quoteRow.parent == row.parent && invoiceRow.total == quoteRow.total == row.total
            && (row.parent !in invoices || invoices[row.parent].subtotal <= 0 ==> invoiceRow.rate == 0)
            && (row.parent in invoices && invoices[row.parent].subtotal > 0 ==>
                  var invoice := invoices[row.parent];
                  invoiceRow.rate == rd(invoice.tax as real / invoice.subtotal as real * 10000.0))
            && quoteRow.rate == if row.parent in quotes && quotes[row.parent].taxRate.Some?
                                then quotes[row.parent].taxRate.value else 0
  {
  }

  /** End to end: after the migration an untouched invoice regroups to the totals it stores. */
  lemma {:induction false} MigratedInvoiceKeepsItsTotals(
      rd: real -> int, invoices: map<string, Invoice>, rows: seq<LineRow>, id: string, rate: int, groups: seq<TaxGroup>)
    requires SqlRound(rd)
    requires id in invoices && invoices[id].subtotal == Total(DocumentLines(rows, id)) >= 0
    requires invoices[id].tax == TaxOn(invoices[id].subtotal, rate)
    requires IsGrouping(groups, DocumentLines(WithRates(rows, row => InvoiceLineRate(rd, invoices, row)), id))
    ensures BaseTotal(groups) == invoices[id].subtotal && TaxTotal(groups) == invoices[id].tax
  {
    var own := RecoveredRate(rd, invoices[id].subtotal, invoices[id].tax);
    var rates := (row: LineRow) => InvoiceLineRate(rd, invoices, row);
    var lines := DocumentLines(WithRates(rows, rates), id);
    MigratedTotal(rows, id, rates);
    MigratedRates(rows, id, rates, own);
    SingleRateDocument(lines, own, groups);
    GroupsConserve(groups, lines);
    HistoricalTaxRecomputes(rd, invoices[id].subtotal, rate);
  }

  /** Quotes kept their rate, so theirs is exact for every total and every rate. */
  lemma {:induction false} MigratedQuoteKeepsItsTotals(
      quotes: map<string, Quote>, rows: seq<LineRow>, id: string, rate: int, groups: seq<TaxGroup>)
    requires id in quotes && quotes[id].taxRate == Some(rate)
    requires IsGrouping(groups, DocumentLines(WithRates(rows, row => QuoteLineRate(quotes, row)), id))
    ensures BaseTotal(groups) == Total(DocumentLines(rows, id))
    ensures TaxTotal(groups) == TaxOn(Total(DocumentLines(rows, id)), rate)
  {
    var rates := (row: LineRow) => QuoteLineRate(quotes, row);
    MigratedTotal(rows, id, rates);
    MigratedRates(rows, id, rates, rate);
    SingleRateDocument(DocumentLines(WithRates(rows, rates), id), rate, groups);
    GroupsConserve(groups, DocumentLines(WithRates(rows, rates), id));
  }
}
