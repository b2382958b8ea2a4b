/**
 Grouping a document's lines by tax rate. Line totals are whole cents, rates are whole
 ten-thousandths once quantised to the four decimals of the rate column.
 */
module TaxGroups {
  import opened Wrappers
  import opened Rounding

  /** A line as either caller supplies it: the rate may be missing and may carry extra decimals. */
  datatype Line = Line(total: int, taxRate: Option<real>)

  datatype TaxGroup = TaxGroup(rate: int, base: int, tax: int)

  const RATE_SCALE := 10000.0

  /** `Decimal(line.tax_rate or 0).quantize(RATE_EXPONENT)` */
  function RateKey(line: Line): int {
    RoundHalfEven((if line.taxRate.Some? then line.taxRate.value else 0.0) * RATE_SCALE)
  }

  /** Tax in unrounded cents for a base in cents at a rate in ten-thousandths. */
  function ExactTax(base: int, rate: int): real {
    base as real * (rate as real / RATE_SCALE)
  }

  function TaxOn(base: int, rate: int): int {
    RoundHalfEven(ExactTax(base, rate))
  }

  /** A line is grouped by its rate in whole ten-thousandths, and at zero if it has none. */
  lemma {:induction false} RateOfLine(total: int, rate: real)
    ensures RateKey(Line(total, None)) == 0
    ensures Nearest(rate * 10000.0, RateKey(Line(total, Some(rate))))
    ensures Tie(rate * 10000.0, RateKey(Line(total, Some(rate)))) ==> RateKey(Line(total, Some(rate))) % 2 == 0
  {
    RoundWhole(0);
  }

  // ---------------------------------------------------------------- what the groups must be

  function Rates(lines: seq<Line>): set<int> {
    set line | line in lines :: RateKey(line)
  }

  /** Sum of the totals of the lines at one rate. */
  function BaseAt(lines: seq<Line>, rate: int): int {
    if lines == [] then 0
    else
      var last := lines[|lines| - 1];
      BaseAt(lines[..|lines| - 1], rate) + if RateKey(last) == rate then last.total else 0
  }

  predicate StrictlyDecreasing(rates: seq<int>) {
    forall i, j :: 0 <= i < j < |rates| ==> rates[i] > rates[j]
  }

  /** The sequence has exactly these members. */
  predicate Lists(s: seq<int>, members: set<int>) {
    && (forall i :: 0 <= i < |s| ==> s[i] in members)
    && (forall k :: k in members ==> k in s)
  }

  function RatesOf(groups: seq<TaxGroup>): seq<int> {
    seq(|groups|, i requires 0 <= i < |groups| => groups[i].rate)
  }

  /** The grouping contract: every rate once, highest first, base and tax taken per rate. */
  ghost predicate IsGrouping(groups: seq<TaxGroup>, lines: seq<Line>) {
    && StrictlyDecreasing(RatesOf(groups))
    && Lists(RatesOf(groups), Rates(lines))
    && (forall i :: 0 <= i < |groups| ==>
          groups[i].base == BaseAt(lines, groups[i].rate) && groups[i].tax == TaxOn(groups[i].base, groups[i].rate))
  }

  // ---------------------------------------------------------------- the algorithm

  /** `sorted(..., reverse=True)` on distinct keys: repeatedly take the largest. */
  method SortDescending(keys: set<int>) returns (sorted: seq<int>)
    ensures StrictlyDecreasing(sorted)
    ensures Lists(sorted, keys)
  {
    sorted := [];
    var rest := keys;
    while rest != {}
      invariant rest <= keys
      invariant Lists(sorted, keys - rest)
      invariant StrictlyDecreasing(sorted)
      invariant forall i, r :: 0 <= i < |sorted| && r in rest ==> sorted[i] > r
      decreases rest
    {
      var top := Largest(rest);
      sorted := sorted + [top];
      rest := rest - {top};
    }
  }

  method Largest(keys: set<int>) returns (top: int)
    requires keys != {}
    ensures top in keys && forall k :: k in keys ==> k <= top
  {
    ghost var one := SomeMember(keys);
    top :| top in keys;
    var others := keys - {top};
    while others != {}
      invariant top in keys && others <= keys
      invariant forall k :: k in keys && k !in others ==> k <= top
      decreases others
    {
      ghost var other := SomeMember(others);
      var k :| k in others;
      if k > top {
        top := k;
      }
      others := others - {k};
    }
  }

  /** The bases by rate, as collected over some lines. */
  ghost predicate Collected(bases: map<int, int>, lines: seq<Line>) {
    && bases.Keys == Rates(lines)
    && (forall rate :: rate in bases ==> bases[rate] == BaseAt(lines, rate))
    && (forall rate :: rate !in bases ==> BaseAt(lines, rate) == 0)
  }

  lemma {:induction false} OneMoreLine(bases: map<int, int>, before: seq<Line>, line: Line, base: int)
    requires Collected(bases, before)
    requires base == (if RateKey(line) in bases then bases[RateKey(line)] else 0) + line.total
    ensures Collected(bases[RateKey(line) := base], before + [line])
  {
    assert (before + [line])[..|before|] == before;
    assert Rates(before + [line]) == Rates(before) + {RateKey(line)};
  }

  method GroupLinesByTaxRate(lines: seq<Line>) returns (groups: seq<TaxGroup>)
    ensures IsGrouping(groups, lines)
  {
    var bases: map<int, int> := map[];
    for n := 0 to |lines|
      invariant Collected(bases, lines[..n])
    {
      var rate := RateKey(lines[n]);
      var base := (if rate in bases then bases[rate] else 0) + lines[n].total;
      OneMoreLine(bases, lines[..n], lines[n], base);
      assert lines[..n + 1] == lines[..n] + [lines[n]];
      bases := bases[rate := base];
    }
    assert lines[..|lines|] == lines;
    var sorted := SortDescending(bases.Keys);
    groups := seq(|sorted|, i requires 0 <= i < |sorted| && sorted[i] in bases =>
                              TaxGroup(sorted[i], bases[sorted[i]], TaxOn(bases[sorted[i]], sorted[i])));
    assert RatesOf(groups) == sorted;
  }

  // ---------------------------------------------------------------- the contract pins the result

  lemma {:induction false} DecreasingIsUnique(a: seq<int>, b: seq<int>, members: set<int>)
    requires StrictlyDecreasing(a) && StrictlyDecreasing(b)
    requires Lists(a, members) && Lists(b, members)
    ensures a == b
  {
    if a != [] {
      SharesHead(a, b, members);
    }
    if b != [] {
      SharesHead(b, a, members);
      HeadLeads(a, members);
      HeadLeads(b, members);
      DecreasingIsUnique(a[1..], b[1..], members - {a[0]});
      assert a == [a[0]] + a[1..] && b == [b[0]] + b[1..];
    }
  }

  lemma {:induction false} SharesHead(a: seq<int>, b: seq<int>, members: set<int>)
    requires Lists(a, members) && Lists(b, members) && a != []
    ensures a[0] in b
  {
    var head := a[0];
    assert head in members;
  }

  lemma {:induction false} HeadLeads(a: seq<int>, members: set<int>)
    requires StrictlyDecreasing(a) && Lists(a, members) && a != []
    ensures forall k :: k in members ==> k <= a[0]
    ensures Lists(a[1..], members - {a[0]}) && StrictlyDecreasing(a[1..])
  {
    forall k | k in members - {a[0]}
      ensures k in a[1..]
    {
      var i :| 0 <= i < |a| && a[i] == k;
      assert a[1..][i - 1] == k;
    }
    assert forall i :: 0 <= i < |a[1..]| ==> a[1..][i] == a[i + 1];
  }

  lemma {:induction false} GroupingIsUnique(g: seq<TaxGroup>, h: seq<TaxGroup>, lines: seq<Line>)
    requires IsGrouping(g, lines) && IsGrouping(h, lines)
    ensures g == h
  {
    DecreasingIsUnique(RatesOf(g), RatesOf(h), Rates(lines));
    assert |RatesOf(g)| == |g| && |RatesOf(h)| == |h|;
    forall i | 0 <= i < |g|
      ensures g[i] == h[i]
    {
      assert RatesOf(g)[i] == RatesOf(h)[i];
    }
  }

  // ---------------------------------------------------------------- order of the lines is irrelevant

  lemma {:induction false} BaseAtIgnoresOrder(lines: seq<Line>, shuffled: seq<Line>, rate: int)
    requires multiset(lines) == multiset(shuffled)
    ensures BaseAt(lines, rate) == BaseAt(shuffled, rate)
  {
    if lines == [] {
      assert multiset(shuffled) == multiset{};
    } else {
      var last := |lines| - 1;
      assert lines == lines[..last] + [lines[last]];
      assert lines[last] in multiset(shuffled);
      var at :| 0 <= at < |shuffled| && shuffled[at] == lines[last];
      BaseAtWithout(shuffled, at, rate);
      BaseAtIgnoresOrder(lines[..last], Without(shuffled, at), rate);
    }
  }

  function Without(lines: seq<Line>, at: nat): (rest: seq<Line>)
    requires at < |lines|
    ensures multiset(rest) == multiset(lines) - multiset{lines[at]}
  {
    assert lines == lines[..at] + [lines[at]] + lines[at + 1..];
    lines[..at] + lines[at + 1..]
  }

  lemma {:induction false} BaseAtWithout(lines: seq<Line>, at: nat, rate: int)
    requires at < |lines|
    ensures BaseAt(lines, rate)
         == BaseAt(Without(lines, at), rate) + if RateKey(lines[at]) == rate then lines[at].total else 0
  {
    assert lines == lines[..at + 1] + lines[at + 1..];
    assert lines[..at + 1][..at] == lines[..at];
    BaseAtConcat(lines[..at + 1], lines[at + 1..], rate);
    BaseAtConcat(lines[..at], lines[at + 1..], rate);
  }

  lemma {:induction false} BaseAtConcat(a: seq<Line>, b: seq<Line>, rate: int)
    ensures BaseAt(a + b, rate) == BaseAt(a, rate) + BaseAt(b, rate)
  {
    if b == [] {
      assert a + b == a;
    } else {
      assert (a + b)[..|a + b| - 1] == a + b[..|b| - 1];
      BaseAtConcat(a, b[..|b| - 1], rate);
    }
  }

  /** Reordering a document's lines changes nothing about its groups. */
  lemma {:induction false} GroupsIgnoreLineOrder(lines: seq<Line>, shuffled: seq<Line>, g: seq<TaxGroup>, h: seq<TaxGroup>)
    requires multiset(lines) == multiset(shuffled)
    requires IsGrouping(g, lines) && IsGrouping(h, shuffled)
    ensures g == h
  {
    forall line
      ensures line in lines <==> line in shuffled
    {
      assert line in lines <==> line in multiset(lines);
      assert line in shuffled <==> line in multiset(shuffled);
    }
    assert Rates(lines) == Rates(shuffled);
    forall rate
      ensures BaseAt(lines, rate) == BaseAt(shuffled, rate)
    {
      BaseAtIgnoresOrder(lines, shuffled, rate);
    }
    assert IsGrouping(h, lines);
    GroupingIsUnique(g, h, lines);
  }

  // ---------------------------------------------------------------- conservation and rounding

  function Total(lines: seq<Line>): int {
    if lines == [] then 0 else Total(lines[..|lines| - 1]) + lines[|lines| - 1].total
  }

  function BaseTotal(groups: seq<TaxGroup>): int {
    if groups == [] then 0 else BaseTotal(groups[..|groups| - 1]) + groups[|groups| - 1].base
  }

  function TaxTotal(groups: seq<TaxGroup>): int {
    if groups == [] then 0 else TaxTotal(groups[..|groups| - 1]) + groups[|groups| - 1].tax
  }

  /** Unrounded tax of the document, line by line. */
  function ExactTaxTotal(lines: seq<Line>): real {
    if lines == [] then 0.0
    else ExactTaxTotal(lines[..|lines| - 1]) + ExactTax(lines[|lines| - 1].total, RateKey(lines[|lines| - 1]))
  }

  /** The lines at every other rate. */
  function AtOtherRates(lines: seq<Line>, rate: int): seq<Line> {
    if lines == [] then []
    else
      var last := lines[|lines| - 1];
      AtOtherRates(lines[..|lines| - 1], rate) + if RateKey(last) == rate then [] else [last]
  }

  lemma {:induction false} SplitTotals(lines: seq<Line>, rate: int)
    ensures Total(lines) == BaseAt(lines, rate) + Total(AtOtherRates(lines, rate))
    ensures ExactTaxTotal(lines) == ExactTax(BaseAt(lines, rate), rate) + ExactTaxTotal(AtOtherRates(lines, rate))
  {
    if lines != [] {
      var init, last := lines[..|lines| - 1], lines[|lines| - 1];
      SplitTotals(init, rate);
      var rest := AtOtherRates(init, rate);
      if RateKey(last) == rate {
        assert AtOtherRates(lines, rate) == rest;
        ExactTaxAdds(BaseAt(init, rate), last.total, rate);
      } else {
        assert (rest + [last])[..|rest|] == rest;
      }
    } else {
      assert ExactTax(0, rate) == 0.0;
    }
  }

  lemma {:induction false} SplitRates(lines: seq<Line>, rate: int)
    ensures Rates(AtOtherRates(lines, rate)) == Rates(lines) - {rate}
    ensures forall other :: other != rate ==> BaseAt(AtOtherRates(lines, rate), other) == BaseAt(lines, other)
  {
    if lines != [] {
      var init, last := lines[..|lines| - 1], lines[|lines| - 1];
      SplitRates(init, rate);
      assert lines == init + [last];
      assert Rates(lines) == Rates(init) + {RateKey(last)};
      var rest := AtOtherRates(init, rate);
      if RateKey(last) == rate {
        assert AtOtherRates(lines, rate) == rest;
      } else {
        assert AtOtherRates(lines, rate) == rest + [last];
        assert (rest + [last])[..|rest|] == rest;
        assert Rates(rest + [last]) == Rates(rest) + {RateKey(last)};
      }
    }
  }

  lemma {:induction false} ExactTaxAdds(base: int, more: int, rate: int)
    ensures ExactTax(base + more, rate) == ExactTax(base, rate) + ExactTax(more, rate)
  {
  }

  /**
   The bases add up to the document's net total, and rounding once per group moves the document's
   tax by at most half a cent for each group.
   */
  lemma {:induction false} GroupsConserve(groups: seq<TaxGroup>, lines: seq<Line>)
    requires IsGrouping(groups, lines)
    ensures BaseTotal(groups) == Total(lines)
    ensures -0.5 * |groups| as real <= TaxTotal(groups) as real - ExactTaxTotal(lines) <= 0.5 * |groups| as real
  {
    if groups == [] {
      NoRatesNoLines(lines);
    } else {
      var last := |groups| - 1;
      var group, init := groups[last], groups[..last];
      var rest := AtOtherRates(lines, group.rate);
      SplitTotals(lines, group.rate);
      GroupingWithoutLast(groups, lines);
      GroupsConserve(init, rest);
      assert Nearest(ExactTax(group.base, group.rate), group.tax);
    }
  }

  lemma {:induction false} NoRatesNoLines(lines: seq<Line>)
    ensures lines != [] ==> Rates(lines) != {}
  {
    if lines != [] {
      assert lines[0] in lines && RateKey(lines[0]) in Rates(lines);
    }
  }

  lemma {:induction false} GroupingWithoutLast(groups: seq<TaxGroup>, lines: seq<Line>)
    requires IsGrouping(groups, lines) && groups != []
    ensures IsGrouping(groups[..|groups| - 1], AtOtherRates(lines, groups[|groups| - 1].rate))
  {
    var last := |groups| - 1;
    var rate := groups[last].rate;
    SplitRates(lines, rate);
    var init, rates := groups[..last], RatesOf(groups);
    assert RatesOf(init) == rates[..last];
    RatesWithoutLast(rates, Rates(lines));
    forall i | 0 <= i < last
      ensures init[i].base == BaseAt(AtOtherRates(lines, rate), init[i].rate)
    {
      assert rates[i] > rates[last];
    }
  }

  lemma {:induction false} RatesWithoutLast(rates: seq<int>, members: set<int>)
    requires StrictlyDecreasing(rates) && Lists(rates, members) && rates != []
    ensures StrictlyDecreasing(rates[..|rates| - 1])
    ensures Lists(rates[..|rates| - 1], members - {rates[|rates| - 1]})
  {
    var init, last := rates[..|rates| - 1], rates[|rates| - 1];
    forall k | k in members - {last}
      ensures k in init
    {
      var i :| 0 <= i < |rates| && rates[i] == k;
      assert init[i] == k;
    }
  }

  // ---------------------------------------------------------------- documents of one rate

  lemma {:induction false} TwoGroupsTwoRates(groups: seq<TaxGroup>, lines: seq<Line>)
    requires IsGrouping(groups, lines)
    ensures |groups| >= 2 ==> {groups[0].rate, groups[1].rate} <= Rates(lines) && groups[0].rate > groups[1].rate
  {
    if |groups| >= 2 {
      assert RatesOf(groups)[0] > RatesOf(groups)[1];
    }
  }

  /** A document whose lines share one rate is taxed once, on its whole net total. */
  lemma {:induction false} SingleRateDocument(lines: seq<Line>, rate: int, groups: seq<TaxGroup>)
    requires forall line :: line in lines ==> RateKey(line) == rate
    requires IsGrouping(groups, lines)
    ensures TaxTotal(groups) == TaxOn(Total(lines), rate)
  {
    TwoGroupsTwoRates(groups, lines);
    assert Rates(lines) <= {rate};
    GroupsConserve(groups, lines);
    if groups == [] {
      NoRatesNoLines(lines);
      assert ExactTax(0, rate) == 0.0;
    } else {
      assert RatesOf(groups)[0] in Rates(lines);
      assert groups == [groups[0]] && groups[..0] == [];
      assert TaxTotal(groups[..0]) == 0 && BaseTotal(groups[..0]) == 0;
    }
  }
}
