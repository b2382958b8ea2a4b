/**
 Totals of a new document: line totals rounded one by one, tax once per rate, with the document's
 own rate standing in for lines that carry none.
 */
module InvoiceTotals {
  import opened Wrappers
  import opened Rounding
  import opened RealArithmetic
  import opened TaxGroups
  import opened TaxBackfill

  datatype Item = Item(quantity: real, unitPrice: real, taxRate: Option<real>)

  datatype Totals = Totals(lineTotals: seq<int>, subtotal: int, taxAmount: int, total: int, groups: seq<TaxGroup>)

  /** Net total of one line, in cents. */
  function LineTotal(item: Item): int {
    RoundHalfEven(item.quantity * item.unitPrice * 100.0)
  }

  /** A line inherits the document's rate only when it has none of its own; a rate of zero is its own. */
  function ResolvedLine(item: Item, documentRate: real): Line {
    Line(LineTotal(item), Some(if item.taxRate.None? then documentRate else item.taxRate.value))
  }

  function Resolved(items: seq<Item>, documentRate: real): (lines: seq<Line>)
    ensures |lines| == |items| && forall i :: 0 <= i < |items| ==> lines[i] == ResolvedLine(items[i], documentRate)
  {
    seq(|items|, i requires 0 <= i < |items| => ResolvedLine(items[i], documentRate))
  }

  lemma {:induction false} TotalStep(lines: seq<Line>, n: nat)
    requires n < |lines|
    ensures Total(lines[..n + 1]) == Total(lines[..n]) + lines[n].total
  {
    assert lines[..n + 1][..n] == lines[..n];
  }

  lemma {:induction false} TaxTotalStep(groups: seq<TaxGroup>, n: nat)
    requires n < |groups|
    ensures TaxTotal(groups[..n + 1]) == TaxTotal(groups[..n]) + groups[n].tax
  {
    assert groups[..n + 1][..n] == groups[..n];
  }

  /** Everything adds up: bases to the subtotal, group taxes to the tax, both to the total. */
  ghost predicate IsTotals(t: Totals, items: seq<Item>, documentRate: real) {
    && |t.lineTotals| == |items| && (forall i :: 0 <= i < |items| ==> t.lineTotals[i] == LineTotal(items[i]))
    && IsGrouping(t.groups, Resolved(items, documentRate))
    && t.subtotal == Total(Resolved(items, documentRate)) == BaseTotal(t.groups)
    && t.taxAmount == TaxTotal(t.groups) && t.total == t.subtotal + t.taxAmount
  }

  method ComputeInvoiceTotals(items: seq<Item>, documentRate: real) returns (t: Totals)
    ensures IsTotals(t, items, documentRate)
  {
    var lineTotals: seq<int>, resolved: seq<Line> := [], [];
    var subtotal := 0;
    ghost var all := Resolved(items, documentRate);
    for n := 0 to |items|
      invariant |lineTotals| == n && forall i :: 0 <= i < n ==> lineTotals[i] == LineTotal(items[i])
      invariant resolved == all[..n] && subtotal == Total(all[..n])
    {
      var lineTotal := LineTotal(items[n]);
      TotalStep(all, n);
      lineTotals := lineTotals + [lineTotal];
      subtotal := subtotal + lineTotal;
      resolved := resolved + [Line(lineTotal, Some(if items[n].taxRate.None? then documentRate else items[n].taxRate.value))];
    }
    assert all[..|items|] == all;
    var groups := GroupLinesByTaxRate(resolved);
    var taxAmount := 0;
    for n := 0 to |groups|
      invariant taxAmount == TaxTotal(groups[..n])
    {
      TaxTotalStep(groups, n);
      taxAmount := taxAmount + groups[n].tax;
    }
    assert groups[..|groups|] == groups;
    GroupsConserve(groups, resolved);
    t := Totals(lineTotals, subtotal, taxAmount, subtotal + taxAmount, groups);
  }

  // ---------------------------------------------------------------- what is charged, in terms of the items

  function Sum(amounts: seq<int>): int {
    if amounts == [] then 0 else Sum(amounts[..|amounts| - 1]) + amounts[|amounts| - 1]
  }

  /** The sum of the amounts whose rate is this one. */
  function SumAt(amounts: seq<int>, rates: seq<int>, rate: int): int
    requires |amounts| == |rates|
  {
    if amounts == [] then 0
    else
      var last := |amounts| - 1;
      SumAt(amounts[..last], rates[..last], rate) + if rates[last] == rate then amounts[last] else 0
  }

  lemma {:induction false} SumsOfLines(lines: seq<Line>, amounts: seq<int>, rates: seq<int>, rate: int)
    requires |lines| == |amounts| == |rates|
    requires forall i :: 0 <= i < |lines| ==> lines[i].total == amounts[i] && RateKey(lines[i]) == rates[i]
    ensures Total(lines) == Sum(amounts) && BaseAt(lines, rate) == SumAt(amounts, rates, rate)
  {
    if lines != [] {
      var last := |lines| - 1;
      SumsOfLines(lines[..last], amounts[..last], rates[..last], rate);
    }
  }

  /** Each item is charged at its own rate if it has one, zero included, and at the document's otherwise. */
  ghost predicate AreEffectiveRates(rates: seq<int>, items: seq<Item>, documentRate: real) {
    && |rates| == |items|
    && forall i :: 0 <= i < |items| ==>
         rates[i] == RoundHalfEven((if items[i].taxRate.Some? then items[i].taxRate.value else documentRate) * 10000.0)
  }

  lemma {:induction false} LineOfItem(item: Item, documentRate: real, rate: int)
    requires rate == RoundHalfEven((if item.taxRate.Some? then item.taxRate.value else documentRate) * 10000.0)
    ensures ResolvedLine(item, documentRate).total == LineTotal(item) && RateKey(ResolvedLine(item, documentRate)) == rate
  {
  }

  /** The lines' rates, which are the groups' rates, are the items' effective rates. */
  lemma {:induction false} RatesOfItems(lines: seq<Line>, rates: seq<int>)
    requires |lines| == |rates| && forall i :: 0 <= i < |lines| ==> RateKey(lines[i]) == rates[i]
    ensures forall i :: 0 <= i < |rates| ==> rates[i] in Rates(lines)
    ensures forall rate :: rate in Rates(lines) ==> rate in rates
  {
    forall i | 0 <= i < |rates|
      ensures rates[i] in Rates(lines)
    {
      assert lines[i] in lines;
    }
  }

  function TaxesOf(groups: seq<TaxGroup>): (taxes: seq<int>)
    ensures |taxes| == |groups| && forall i :: 0 <= i < |groups| ==> taxes[i] == groups[i].tax
  {
    seq(|groups|, i requires 0 <= i < |groups| => groups[i].tax)
  }

  lemma {:induction false} TaxesAddUp(groups: seq<TaxGroup>)
    ensures TaxTotal(groups) == Sum(TaxesOf(groups))
  {
    if groups != [] {
      var last := |groups| - 1;
      TaxesAddUp(groups[..last]);
      assert TaxesOf(groups)[..last] == TaxesOf(groups[..last]);
    }
  }

  predicate HasGroup(groups: seq<TaxGroup>, rate: int) {
    exists k :: 0 <= k < |groups| && groups[k].rate == rate
  }

  /** One group for every rate, highest first, with the sum at that rate as base and the tax rounded once. */
  ghost predicate GroupsByRate(groups: seq<TaxGroup>, amounts: seq<int>, rates: seq<int>)
    requires |amounts| == |rates|
  {
    && (forall i, j :: 0 <= i < j < |groups| ==> groups[i].rate > groups[j].rate)
    && (forall i :: 0 <= i < |rates| ==> HasGroup(groups, rates[i]))
    && (forall k :: 0 <= k < |groups| ==> groups[k].rate in rates && groups[k].base == SumAt(amounts, rates, groups[k].rate))
    && (forall k :: 0 <= k < |groups| ==> groups[k].tax == RoundHalfEven(TaxBeforeRounding(groups[k].base, groups[k].rate)))
  }

  /** A share of so many ten-thousandths of the base. */
  function TaxBeforeRounding(base: int, rate: int): real {
    base as real * (rate as real / 10000.0)
  }

  lemma {:induction false} TaxOfBase(base: int, rate: int)
    ensures TaxOn(base, rate) == RoundHalfEven(TaxBeforeRounding(base, rate))
  {
    var share := rate as real / 10000.0;
    EqualProducts(base as real, rate as real / RATE_SCALE, share, ExactTax(base, rate), TaxBeforeRounding(base, rate));
  }

  lemma {:induction false} RatesListed(groups: seq<TaxGroup>, lines: seq<Line>, rates: seq<int>)
    requires StrictlyDecreasing(RatesOf(groups)) && Lists(RatesOf(groups), Rates(lines))
    requires forall i :: 0 <= i < |rates| ==> rates[i] in Rates(lines)
    requires forall rate :: rate in Rates(lines) ==> rate in rates
    ensures forall i, j :: 0 <= i < j < |groups| ==> groups[i].rate > groups[j].rate
    ensures forall i :: 0 <= i < |rates| ==> HasGroup(groups, rates[i])
    ensures forall k :: 0 <= k < |groups| ==> groups[k].rate in rates
  {
    var listed := RatesOf(groups);
    assert forall k :: 0 <= k < |groups| ==> listed[k] == groups[k].rate;
    forall i | 0 <= i < |rates|
      ensures HasGroup(groups, rates[i])
    {
      assert rates[i] in listed;
      var k :| 0 <= k < |listed| && listed[k] == rates[i];
      assert groups[k].rate == rates[i];
    }
  }

  lemma {:induction false} GroupsOfItems(groups: seq<TaxGroup>, lines: seq<Line>, amounts: seq<int>, rates: seq<int>)
    requires IsGrouping(groups, lines) && |lines| == |amounts| == |rates|
    requires forall i :: 0 <= i < |lines| ==> lines[i].total == amounts[i] && RateKey(lines[i]) == rates[i]
    ensures GroupsByRate(groups, amounts, rates)
  {
    RatesOfItems(lines, rates);
    RatesListed(groups, lines, rates);
    forall k | 0 <= k < |groups|
      ensures groups[k].base == SumAt(amounts, rates, groups[k].rate)
      ensures groups[k].tax == RoundHalfEven(TaxBeforeRounding(groups[k].base, groups[k].rate))
    {
      SumsOfLines(lines, amounts, rates, groups[k].rate);
      TaxOfBase(groups[k].base, groups[k].rate);
    }
  }

  /**
   What a document charges, from its items and its own rate alone: line totals are rounded products,
   every effective rate and no other has one group, and everything else is a sum.
   */
  lemma {:induction false} ItemsDecide(t: Totals, items: seq<Item>, documentRate: real, rates: seq<int>)
    requires IsTotals(t, items, documentRate) && AreEffectiveRates(rates, items, documentRate)
    ensures |t.lineTotals| == |items|
    ensures forall i :: 0 <= i < |items| ==> t.lineTotals[i] == RoundHalfEven(items[i].quantity * items[i].unitPrice * 100.0)
    ensures GroupsByRate(t.groups, t.lineTotals, rates)
    ensures t.subtotal == Sum(t.lineTotals) && t.taxAmount == Sum(TaxesOf(t.groups)) && t.total == t.subtotal + t.taxAmount
  {
    var lines := Resolved(items, documentRate);
    forall i | 0 <= i < |items|
      ensures lines[i].total == t.lineTotals[i] && RateKey(lines[i]) == rates[i]
    {
      LineOfItem(items[i], documentRate, rates[i]);
    }
    SumsOfLines(lines, t.lineTotals, rates, 0);
    GroupsOfItems(t.groups, lines, t.lineTotals, rates);
    TaxesAddUp(t.groups);
  }

  /** Where every item has a rate of its own, the document's rate makes no difference. */
  lemma {:induction false} OwnRatesDecide(items: seq<Item>, rate: real, other: real, t: Totals, u: Totals)
    requires forall i :: 0 <= i < |items| ==> items[i].taxRate.Some?
    requires IsTotals(t, items, rate) && IsTotals(u, items, other)
    ensures t == u
  {
    assert Resolved(items, rate) == Resolved(items, other);
    GroupingIsUnique(t.groups, u.groups, Resolved(items, rate));
    assert t.lineTotals == u.lineTotals;
  }

  /** One line of 100.00 at its own 0.10, on a document at 0.22: the tax is 10.00. */
  lemma {:induction false} OwnRateExample(t: Totals)
    requires IsTotals(t, [Item(1.0, 100.0, Some(0.1))], 0.22)
    ensures t.groups == [TaxGroup(1000, 10000, 1000)] && t.total == 11000
  {
    var items := [Item(1.0, 100.0, Some(0.1))];
    RoundWhole(10000);
    RoundWhole(1000);
    var lines := Resolved(items, 0.22);
    assert lines == [Line(10000, Some(0.1))] && lines[..0] == [];
    OneGroup(Line(10000, Some(0.1)), lines, 1000);
    GroupingIsUnique(t.groups, [TaxGroup(1000, 10000, TaxOn(10000, 1000))], lines);
    assert ExactTax(10000, 1000) == 1000.0;
    assert t.groups[..0] == [];
  }

  /** The only grouping of a single line. */
  lemma {:induction false} OneGroup(line: Line, lines: seq<Line>, key: int)
    requires lines == [line] && RateKey(line) == key
    ensures IsGrouping([TaxGroup(key, line.total, TaxOn(line.total, key))], lines)
  {
    assert lines[..0] == [] && Rates(lines) == {key};
    assert RatesOf([TaxGroup(key, line.total, TaxOn(line.total, key))]) == [key];
  }

  // ---------------------------------------------------------------- the promise to older clients

  predicate AllInherit(items: seq<Item>) {
    forall i :: 0 <= i < |items| ==> items[i].taxRate.None?
  }

  /** The rate has no more than four decimals. */
  predicate FourDecimals(rate: real) {
    rate * RATE_SCALE == RoundHalfEven(rate * RATE_SCALE) as real
  }

  /** Documents whose lines all inherit the rate are charged `quantize(subtotal * rate)`, as before. */
  ghost predicate NothingShifts(rate: real) {
    forall items, groups :: AllInherit(items) && IsGrouping(groups, Resolved(items, rate)) ==>
      TaxTotal(groups) == StoredTax(Total(Resolved(items, rate)), rate)
  }

  lemma {:induction false} InheritedTax(items: seq<Item>, rate: real, groups: seq<TaxGroup>)
    requires AllInherit(items) && IsGrouping(groups, Resolved(items, rate))
    ensures TaxTotal(groups) == TaxOn(Total(Resolved(items, rate)), RoundHalfEven(rate * RATE_SCALE))
  {
    SingleRateDocument(Resolved(items, rate), RoundHalfEven(rate * RATE_SCALE), groups);
  }

  /** The two taxes are roundings of two products. */
  lemma {:induction false} TaxTerms(subtotal: int, key: int, rate: real) returns (s: real, stored: real, p: real, q: real)
    ensures s == subtotal as real && stored == key as real / RATE_SCALE
    ensures p == s * stored && q == s * rate
    ensures TaxOn(subtotal, key) == RoundHalfEven(p) && StoredTax(subtotal, rate) == RoundHalfEven(q)
  {
    s, stored := subtotal as real, key as real / RATE_SCALE;
    p := ExactTax(subtotal, key);
    q := FormerTax(subtotal, rate);
  }

  lemma {:induction false} FormerTax(subtotal: int, rate: real) returns (q: real)
    ensures q == subtotal as real * rate && StoredTax(subtotal, rate) == RoundHalfEven(q)
  {
    q := subtotal as real * rate;
  }

  lemma {:induction false} SameFormula(subtotal: int, rate: real)
    requires FourDecimals(rate)
    ensures TaxOn(subtotal, RoundHalfEven(rate * RATE_SCALE)) == StoredTax(subtotal, rate)
  {
    var s, stored, p, q := TaxTerms(subtotal, RoundHalfEven(rate * RATE_SCALE), rate);
    EqualProducts(s, stored, rate, p, q);
  }

  lemma {:induction false} EqualProducts(s: real, x: real, y: real, p: real, q: real)
    requires x == y && p == s * x && q == s * y
    ensures p == q
  {
  }

  lemma {:induction false} FarApart(x: real, y: real)
    requires x - y > 1.0
    ensures RoundHalfEven(x) != RoundHalfEven(y)
  {
    assert Nearest(x, RoundHalfEven(x)) && Nearest(y, RoundHalfEven(y));
  }

  lemma {:induction false} Inverse(gap: real) returns (inverse: real)
    requires gap > 0.0
    ensures inverse * gap == 1.0
  {
    inverse := 1.0 / gap;
  }

  lemma {:induction false} ProductGrows(gap: real, x: real, y: real, p: real, q: real)
    requires gap > 0.0 && p == gap * x && q == gap * y && x < y
    ensures p < q
  {
    OrderOfProducts(gap, x, y);
  }

  lemma {:induction false} LargeEnough(gap: real) returns (n: int, worth: real)
    requires gap > 0.0
    ensures worth == gap * n as real && worth > 1.0
  {
    var inverse := Inverse(gap);
    n := inverse.Floor + 1;
    worth := gap * n as real;
    ProductGrows(gap, inverse, n as real, 1.0, worth);
  }

  lemma {:induction false} RoundedApart(x: real, y: real, s: real, worth: real, p: real, q: real)
    requires worth == (x - y) * s && worth > 1.0 && p == s * x && q == s * y
    ensures RoundHalfEven(p) != RoundHalfEven(q)
  {
    FarApart(p, q);
  }

  /** Over a large enough subtotal any difference in rate is worth more than a cent. */
  lemma {:induction false} LargeSubtotalTells(rate: real, key: int, stored: real) returns (subtotal: int)
    requires stored == key as real / RATE_SCALE && rate != stored
    ensures TaxOn(subtotal, key) != StoredTax(subtotal, rate)
  {
    if rate > stored {
      subtotal := HigherRateTells(rate, key, stored);
    } else {
      subtotal := LowerRateTells(rate, key, stored);
    }
  }

  lemma {:induction false} HigherRateTells(rate: real, key: int, stored: real) returns (subtotal: int)
    requires stored == key as real / RATE_SCALE && rate > stored
    ensures TaxOn(subtotal, key) != StoredTax(subtotal, rate)
  {
    var n, worth := LargeEnough(rate - stored);
    subtotal := n;
    var s, same, p, q := TaxTerms(subtotal, key, rate);
    RoundedApart(rate, same, s, worth, q, p);
  }

  lemma {:induction false} LowerRateTells(rate: real, key: int, stored: real) returns (subtotal: int)
    requires stored == key as real / RATE_SCALE && rate < stored
    ensures TaxOn(subtotal, key) != StoredTax(subtotal, rate)
  {
    var n, worth := LargeEnough(stored - rate);
    subtotal := n;
    var s, same, p, q := TaxTerms(subtotal, key, rate);
    RoundedApart(same, rate, s, worth, p, q);
  }

  /** A one-line document with a given subtotal, and its only possible grouping. */
  lemma {:induction false} OneLineDocument(subtotal: int, rate: real) returns (items: seq<Item>, groups: seq<TaxGroup>)
    ensures AllInherit(items) && Total(Resolved(items, rate)) == subtotal
    ensures IsGrouping(groups, Resolved(items, rate))
  {
    items := [Item(1.0, subtotal as real / 100.0, None)];
    var key := RoundHalfEven(rate * RATE_SCALE);
    groups := [TaxGroup(key, subtotal, TaxOn(subtotal, key))];
    RoundWhole(subtotal);
    assert LineTotal(items[0]) == subtotal;
    var lines := Resolved(items, rate);
    assert lines == [Line(subtotal, Some(rate))] && lines[..0] == [];
    assert RateKey(lines[0]) == key && Rates(lines) == {key};
    assert RatesOf(groups) == [key];
  }

  /**
   The docstring promises that a document without per-line rates is charged exactly what it was before
   rates moved to the lines. For a given document rate that holds of every document exactly when the
   rate has at most four decimals.
   */
  lemma {:induction false} NothingShiftsIff(rate: real)
    ensures NothingShifts(rate) <==> FourDecimals(rate)
  {
    if FourDecimals(rate) {
      forall items, groups | AllInherit(items) && IsGrouping(groups, Resolved(items, rate))
        ensures TaxTotal(groups) == StoredTax(Total(Resolved(items, rate)), rate)
      {
        InheritedTax(items, rate, groups);
        SameFormula(Total(Resolved(items, rate)), rate);
      }
    } else {
      var key := RoundHalfEven(rate * RATE_SCALE);
      var subtotal := LargeSubtotalTells(rate, key, key as real / RATE_SCALE);
      var items, groups := OneLineDocument(subtotal, rate);
      InheritedTax(items, rate, groups);
      assert TaxTotal(groups) != StoredTax(Total(Resolved(items, rate)), rate);
    }
  }

  /** One line of 100.01 without a rate, on a document at 0.50001: 50.01 before, 50.00 now. */
  lemma {:induction false} FiveDecimalsShift(items: seq<Item>, groups: seq<TaxGroup>)
    requires items == [Item(1.0, 100.01, None)] && IsGrouping(groups, Resolved(items, 0.50001))
    ensures Total(Resolved(items, 0.50001)) == 10001
    ensures StoredTax(10001, 0.50001) == 5001 && TaxTotal(groups) == 5000
  {
    RoundWhole(10001);
    assert LineTotal(items[0]) == 10001;
    var lines := Resolved(items, 0.50001);
    assert lines == [Line(10001, Some(0.50001))] && lines[..0] == [];
    InheritedTax(items, 0.50001, groups);
    RoundStrictlyNear(0.50001 * RATE_SCALE, 5000);
    JustOverHalf();
  }
}
