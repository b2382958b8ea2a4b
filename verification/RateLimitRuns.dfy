/**
 What the rate limiter guarantees over whole runs from a fresh process: sweeping is invisible,
 each window admits exactly its first `limit` hits, and no stretch of one window length admits
 more than 2 * limit - 1.
 */
module RateLimitRuns {
  import opened Wrappers
  import opened RateLimit

  predicate ClockMonotone(hits: seq<Attempt>) {
    forall i, j :: 0 <= i < j < |hits| ==> hits[i].now <= hits[j].now
  }

  predicate WindowsUpTo(hits: seq<Attempt>, seconds: real) {
    forall i :: 0 <= i < |hits| ==> hits[i].rule.window as real <= seconds
  }

  // ---------------------------------------------------------------- sweeping is invisible

  /** The same run with a roll that never triggers the sweep. */
  function NeverSwept(hits: seq<Attempt>): seq<Attempt> {
    seq(|hits|, i requires 0 <= i < |hits| => hits[i].(roll := 1.0))
  }

  lemma {:induction false} NeverSweptSnoc(hits: seq<Attempt>)
    requires hits != []
    ensures var last := |hits| - 1;
            && After(map[], NeverSwept(hits)) == Step(After(map[], NeverSwept(hits[..last])), hits[last].(roll := 1.0))
            && Decisions(map[], NeverSwept(hits))
               == Decisions(map[], NeverSwept(hits[..last])) + [Decide(After(map[], NeverSwept(hits[..last])), hits[last])]
  {
    assert NeverSwept(hits)[..|hits| - 1] == NeverSwept(hits[..|hits| - 1]);
  }

  /** The swept table is the unswept one minus entries that have gone stale. */
  ghost predicate MinusStale(swept: Buckets, unswept: Buckets, now: real) {
    && (forall key :: key in swept ==> key in unswept && swept[key] == unswept[key])
    && (forall key :: key in unswept && key !in swept ==> Stale(unswept[key], now))
  }

  lemma {:induction false} SweepSimulationStep(swept: Buckets, unswept: Buckets, before: real, hit: Attempt)
    requires MinusStale(swept, unswept, before) && before <= hit.now
    requires hit.rule.window as real <= SWEEP_STALE_AFTER
    ensures Decide(swept, hit) == Decide(unswept, hit)
    ensures MinusStale(Step(swept, hit), Step(unswept, hit.(roll := 1.0)), hit.now)
  {
    assert Counted(swept, hit) == Counted(unswept, hit);
    var s, u := swept[hit.key := Counted(swept, hit)], unswept[hit.key := Counted(unswept, hit)];
    assert MinusStale(s, u, hit.now);
  }

  lemma {:induction false} SweepSimulation(hits: seq<Attempt>, now: real)
    requires ClockMonotone(hits) && WindowsUpTo(hits, SWEEP_STALE_AFTER)
    requires hits != [] ==> hits[|hits| - 1].now <= now
    ensures MinusStale(After(map[], hits), After(map[], NeverSwept(hits)), now)
    ensures Decisions(map[], hits) == Decisions(map[], NeverSwept(hits))
  {
    if hits != [] {
      var last := |hits| - 1;
      var init, hit := hits[..last], hits[last];
      SweepSimulation(init, hit.now);
      NeverSweptSnoc(hits);
      SweepSimulationStep(After(map[], init), After(map[], NeverSwept(init)), hit.now, hit);
      StaleLater(After(map[], hits), After(map[], NeverSwept(hits)), hit.now, now);
    }
  }

  lemma {:induction false} StaleLater(swept: Buckets, unswept: Buckets, now: real, later: real)
    requires MinusStale(swept, unswept, now) && now <= later
    ensures MinusStale(swept, unswept, later)
  {
  }

  /** Two runs that differ only in when sweeps fire return the same decisions and retry times. */
  lemma {:induction false} SweepsAreInvisible(hits: seq<Attempt>, others: seq<Attempt>)
    requires ClockMonotone(hits) && WindowsUpTo(hits, SWEEP_STALE_AFTER)
    requires NeverSwept(hits) == NeverSwept(others)
    ensures Decisions(map[], hits) == Decisions(map[], others)
  {
    assert |hits| == |NeverSwept(hits)| == |others|;
    forall i | 0 <= i < |hits|
      ensures others[i] == hits[i].(roll := others[i].roll)
    {
      assert NeverSwept(hits)[i] == NeverSwept(others)[i];
    }
    var end := if hits == [] then 0.0 else hits[|hits| - 1].now;
    SweepSimulation(hits, end);
    SweepSimulation(others, end);
  }

  // ---------------------------------------------------------------- bursts

  function Burst(attempt: Attempt, n: nat): (hits: seq<Attempt>)
    ensures |hits| == n && forall i :: 0 <= i < n ==> hits[i] == attempt
  {
    if n == 0 then [] else Burst(attempt, n - 1) + [attempt]
  }

  predicate AllAllowed(decisions: seq<Decision>) {
    forall i :: 0 <= i < |decisions| ==> decisions[i] == Allowed
  }

  function ManyAllowed(n: nat): (decisions: seq<Decision>)
    ensures |decisions| == n && AllAllowed(decisions)
  {
    if n == 0 then [] else ManyAllowed(n - 1) + [Allowed]
  }

  lemma {:induction false} AppendHit(buckets: Buckets, hits: seq<Attempt>, hit: Attempt, table: Buckets, decisions: seq<Decision>)
    requires After(buckets, hits) == table && Decisions(buckets, hits) == decisions
    ensures After(buckets, hits + [hit]) == Step(table, hit)
    ensures Decisions(buckets, hits + [hit]) == decisions + [Decide(table, hit)]
  {
    assert (hits + [hit])[..|hits|] == hits;
  }

  /** One more hit inside the open window. */
  lemma {:induction false} StepInWindow(buckets: Buckets, attempt: Attempt, bucket: Bucket, next: Bucket)
    requires attempt.roll == 1.0 && next == Bucket(bucket.start, bucket.count + 1)
    requires attempt.now - bucket.start < attempt.rule.window as real && bucket.count < attempt.rule.limit
    ensures Step(buckets[attempt.key := bucket], attempt) == buckets[attempt.key := next]
    ensures Decide(buckets[attempt.key := bucket], attempt) == Allowed
  {
    var table := buckets[attempt.key := bucket];
    assert Counted(table, attempt) == next;
    assert table[attempt.key := next] == buckets[attempt.key := next];
  }

  /** Equal hits inside an open window with room for them are all admitted. */
  lemma {:induction false} EqualHitsInWindow(buckets: Buckets, attempt: Attempt, bucket: Bucket, hits: seq<Attempt>)
    requires attempt.roll == 1.0 && attempt.now - bucket.start < attempt.rule.window as real
    requires bucket.count + |hits| <= attempt.rule.limit && forall i :: 0 <= i < |hits| ==> hits[i] == attempt
    ensures After(buckets[attempt.key := bucket], hits) == buckets[attempt.key := Bucket(bucket.start, bucket.count + |hits|)]
    ensures AllAllowed(Decisions(buckets[attempt.key := bucket], hits))
  {
    if hits == [] {
      assert Bucket(bucket.start, bucket.count + 0) == bucket;
    } else {
      var last := |hits| - 1;
      EqualHitsInWindow(buckets, attempt, bucket, hits[..last]);
      StepInWindow(buckets, attempt, Bucket(bucket.start, bucket.count + last), Bucket(bucket.start, bucket.count + |hits|));
    }
  }

  lemma {:induction false} BurstInWindow(buckets: Buckets, table: Buckets, attempt: Attempt, bucket: Bucket, n: nat)
    requires attempt.roll == 1.0 && attempt.now - bucket.start < attempt.rule.window as real
    requires bucket.count + n <= attempt.rule.limit && table == buckets[attempt.key := bucket]
    ensures After(table, Burst(attempt, n)) == buckets[attempt.key := Bucket(bucket.start, bucket.count + n)]
    ensures Decisions(table, Burst(attempt, n)) == ManyAllowed(n)
  {
    var hits := Burst(attempt, n);
    EqualHitsInWindow(buckets, attempt, bucket, hits);
    AllAllowedAreMany(Decisions(table, hits), n);
  }

  lemma {:induction false} AllAllowedAreMany(decisions: seq<Decision>, n: nat)
    requires |decisions| == n && AllAllowed(decisions)
    ensures decisions == ManyAllowed(n)
  {
  }

  lemma {:induction false} OneHit(table: Buckets, hit: Attempt)
    ensures After(table, [hit]) == Step(table, hit) && Decisions(table, [hit]) == [Decide(table, hit)]
  {
    AppendHit(table, [], hit, table, []);
    assert [] + [hit] == [hit];
  }

  lemma {:induction false} BurstUnrolled(attempt: Attempt, n: nat)
    ensures Burst(attempt, n + 1) == [attempt] + Burst(attempt, n) && ManyAllowed(n + 1) == [Allowed] + ManyAllowed(n)
  {
  }

  lemma {:induction false} BurstWithinWindow(buckets: Buckets, attempt: Attempt, n: nat)
    requires attempt.roll == 1.0 && attempt.key in buckets
    requires attempt.now - buckets[attempt.key].start < attempt.rule.window as real
    requires buckets[attempt.key].count + n <= attempt.rule.limit
    ensures After(buckets, Burst(attempt, n))
         == buckets[attempt.key := Bucket(buckets[attempt.key].start, buckets[attempt.key].count + n)]
    ensures Decisions(buckets, Burst(attempt, n)) == ManyAllowed(n)
  {
    BurstInWindow(buckets, buckets, attempt, buckets[attempt.key], n);
  }

  lemma {:induction false} StepOpening(buckets: Buckets, attempt: Attempt)
    requires attempt.roll == 1.0 && attempt.rule.limit >= 1
    requires attempt.key in buckets ==> attempt.now - buckets[attempt.key].start >= attempt.rule.window as real
    ensures After(buckets, [attempt]) == buckets[attempt.key := Bucket(attempt.now, 1)]
    ensures Decisions(buckets, [attempt]) == [Allowed]
  {
    OneHit(buckets, attempt);
    assert Counted(buckets, attempt) == Bucket(attempt.now, 1);
  }

  /** A burst that opens its own window. */
  lemma {:induction false} BurstFromOpening(buckets: Buckets, attempt: Attempt, n: nat)
    requires attempt.roll == 1.0 && attempt.rule.window > 0 && 1 <= n <= attempt.rule.limit
    requires attempt.key in buckets ==> attempt.now - buckets[attempt.key].start >= attempt.rule.window as real
    ensures After(buckets, Burst(attempt, n)) == buckets[attempt.key := Bucket(attempt.now, n)]
    ensures Decisions(buckets, Burst(attempt, n)) == ManyAllowed(n)
  {
    StepOpening(buckets, attempt);
    BurstInWindow(buckets, buckets[attempt.key := Bucket(attempt.now, 1)], attempt, Bucket(attempt.now, 1), n - 1);
    BurstUnrolled(attempt, n - 1);
    RunsCompose(buckets, [attempt], Burst(attempt, n - 1));
  }

  // ---------------------------------------------------------------- exactly which windows are safe

  /** For runs under one rule, the sweep never shows. */
  ghost predicate SweepNeverShows(rule: Rule) {
    forall hits: seq<Attempt> ::
      ClockMonotone(hits) && (forall i :: 0 <= i < |hits| ==> hits[i].rule == rule) ==>
        Decisions(map[], hits) == Decisions(map[], NeverSwept(hits))
  }

  /** A full window, a denied hit whose sweep drops the bucket, and one more hit. */
  function SweptOpen(rule: Rule): seq<Attempt>
    requires rule.limit >= 1
  {
    Burst(Attempt("k", rule, 0.0, 1.0), rule.limit)
    + [Attempt("k", rule, SWEEP_STALE_AFTER, 0.0), Attempt("k", rule, SWEEP_STALE_AFTER, 1.0)]
  }

  lemma {:induction false} SweptOpenIsARun(rule: Rule)
    requires rule.limit >= 1
    ensures ClockMonotone(SweptOpen(rule))
    ensures forall i :: 0 <= i < |SweptOpen(rule)| ==> SweptOpen(rule)[i].rule == rule
  {
  }

  lemma {:induction false} SweptOpenUnswept(rule: Rule)
    requires rule.limit >= 1
    ensures var last := Attempt("k", rule, SWEEP_STALE_AFTER, 1.0);
            NeverSwept(SweptOpen(rule)) == Burst(Attempt("k", rule, 0.0, 1.0), rule.limit) + [last, last]
  {
  }

  lemma {:induction false} LongWindowIsSweptOpen(rule: Rule)
    requires rule.limit >= 1 && rule.window > 3600
    ensures Decisions(map[], SweptOpen(rule)) != Decisions(map[], NeverSwept(SweptOpen(rule)))
  {
    var first := Attempt("k", rule, 0.0, 1.0);
    var full: Buckets := map["k" := Bucket(0.0, rule.limit)];
    BurstFromOpening(map[], first, rule.limit);
    SweptOpenUnswept(rule);
    SweptTail(Burst(first, rule.limit), full, rule);
    UnsweptTail(Burst(first, rule.limit), full, rule);
  }

  /** The sweep drops the full bucket, so the last hit opens a new window and passes. */
  lemma {:induction false} SweptTail(burst: seq<Attempt>, full: Buckets, rule: Rule)
    requires rule.limit >= 1 && rule.window > 3600
    requires full == map["k" := Bucket(0.0, rule.limit)] == After(map[], burst)
    ensures var hits := burst + [Attempt("k", rule, SWEEP_STALE_AFTER, 0.0), Attempt("k", rule, SWEEP_STALE_AFTER, 1.0)];
            Decisions(map[], hits)[|burst| + 1] == Allowed
  {
    var sweeping, last := Attempt("k", rule, SWEEP_STALE_AFTER, 0.0), Attempt("k", rule, SWEEP_STALE_AFTER, 1.0);
    var hits := burst + [sweeping, last];
    assert hits[..|burst| + 1] == burst + [sweeping];
    assert (burst + [sweeping])[..|burst|] == burst;
    assert Step(full, sweeping) == map[];
    assert Counted(map[], last) == Bucket(SWEEP_STALE_AFTER, 1);
  }

  /** Without the sweep the window is still full. */
  lemma {:induction false} UnsweptTail(burst: seq<Attempt>, full: Buckets, rule: Rule)
    requires rule.limit >= 1 && rule.window > 3600
    requires full == map["k" := Bucket(0.0, rule.limit)] == After(map[], burst)
    ensures var hits := burst + [Attempt("k", rule, SWEEP_STALE_AFTER, 1.0), Attempt("k", rule, SWEEP_STALE_AFTER, 1.0)];
            Decisions(map[], hits)[|burst| + 1].Denied?
  {
    var last := Attempt("k", rule, SWEEP_STALE_AFTER, 1.0);
    var hits := burst + [last, last];
    assert hits[..|burst| + 1] == burst + [last];
    assert (burst + [last])[..|burst|] == burst;
    var next := Step(full, last);
    assert next["k"] == Bucket(0.0, rule.limit + 1);
    assert Counted(next, last) == Bucket(0.0, rule.limit + 2);
    assert Decisions(map[], hits)[|burst| + 1] == Decide(next, last);
  }

  /** The stale age of one hour is exactly the longest window sweeping cannot disturb. */
  lemma {:induction false} SweepNeverShowsIff(rule: Rule)
    requires rule.limit >= 1
    ensures SweepNeverShows(rule) <==> rule.window <= 3600
  {
    if rule.window <= 3600 {
      forall hits: seq<Attempt>
        | ClockMonotone(hits) && (forall i :: 0 <= i < |hits| ==> hits[i].rule == rule)
        ensures Decisions(map[], hits) == Decisions(map[], NeverSwept(hits))
      {
        SweepSimulation(hits, if hits == [] then 0.0 else hits[|hits| - 1].now);
      }
    } else {
      SweptOpenIsARun(rule);
      LongWindowIsSweptOpen(rule);
    }
  }

  /** Every rule the application configures, as (limit, window) pairs. */
  const CONFIGURED: seq<Rule> := [
    Rule(5, 60), Rule(10, 60), Rule(20, 60), Rule(30, 60), Rule(120, 60),
    Rule(3, 3600), Rule(5, 3600), Rule(10, 3600), Rule(20, 3600), Rule(30, 3600), Rule(200, 3600), Rule(300, 3600)
  ]

  lemma {:induction false} ConfiguredRulesAreSafe(i: nat)
    requires i < |CONFIGURED|
    ensures SweepNeverShows(CONFIGURED[i])
  {
    SweepNeverShowsIff(CONFIGURED[i]);
  }

  // ---------------------------------------------------------------- windows of one bucket

  /** The table a run leaves when nothing is swept. */
  function Table(hits: seq<Attempt>): Buckets {
    After(map[], NeverSwept(hits))
  }

  /** Start of the window the last hit of the run was counted in. */
  function WindowOfLast(hits: seq<Attempt>): real
    requires hits != []
  {
    Counted(Table(hits[..|hits| - 1]), hits[|hits| - 1]).start
  }

  /** How many hits of the run on this bucket were counted in the window starting there. */
  function HitsInWindow(hits: seq<Attempt>, key: string, start: real): nat {
    if hits == [] then 0
    else
      HitsInWindow(hits[..|hits| - 1], key, start)
      + if hits[|hits| - 1].key == key && WindowOfLast(hits) == start then 1 else 0
  }

  /** All hits on the bucket are checked against the same rule. */
  predicate OneRule(hits: seq<Attempt>, key: string, rule: Rule) {
    forall i :: 0 <= i < |hits| && hits[i].key == key ==> hits[i].rule == rule
  }

  lemma {:induction false} TableSnoc(hits: seq<Attempt>)
    requires hits != []
    ensures Table(hits) == Step(Table(hits[..|hits| - 1]), hits[|hits| - 1].(roll := 1.0))
    ensures Table(hits) == var hit := hits[|hits| - 1]; Table(hits[..|hits| - 1])[hit.key := Counted(Table(hits[..|hits| - 1]), hit)]
  {
    NeverSweptSnoc(hits);
    var hit := hits[|hits| - 1];
    assert Counted(Table(hits[..|hits| - 1]), hit) == Counted(Table(hits[..|hits| - 1]), hit.(roll := 1.0));
  }

  /** The counter of the open window is the number of hits in it; no later window has begun. */
  ghost predicate CountsWindows(hits: seq<Attempt>, key: string) {
    if key in Table(hits) then
      && Table(hits)[key].count == HitsInWindow(hits, key, Table(hits)[key].start)
      && forall start :: start > Table(hits)[key].start ==> HitsInWindow(hits, key, start) == 0
    else
      forall start :: HitsInWindow(hits, key, start) == 0
  }

  lemma {:induction false} WindowsAreCounted(hits: seq<Attempt>, key: string, rule: Rule)
    requires ClockMonotone(hits) && OneRule(hits, key, rule) && rule.window > 0
    ensures CountsWindows(hits, key)
    ensures hits != [] && key in Table(hits) ==> Table(hits)[key].start <= hits[|hits| - 1].now
  {
    if hits != [] {
      var last := |hits| - 1;
      WindowsAreCounted(hits[..last], key, rule);
      TableSnoc(hits);
    }
  }

  /** A window admits exactly the first `limit` hits that fall into it. */
  lemma {:induction false} WindowAdmitsItsFirstHits(hits: seq<Attempt>, rule: Rule)
    requires ClockMonotone(hits) && WindowsUpTo(hits, SWEEP_STALE_AFTER)
    requires hits != [] && OneRule(hits, hits[|hits| - 1].key, rule) && rule.window > 0
    ensures Decisions(map[], hits)[|hits| - 1] == Allowed
       <==> HitsInWindow(hits, hits[|hits| - 1].key, WindowOfLast(hits)) <= rule.limit
    ensures WindowOfLast(hits) <= hits[|hits| - 1].now < WindowOfLast(hits) + rule.window as real
  {
    var last := |hits| - 1;
    var hit := hits[last];
    SweepSimulation(hits, hit.now);
    NeverSweptSnoc(hits);
    WindowsAreCounted(hits[..last], hit.key, rule);
    WindowsAreCounted(hits, hit.key, rule);
    TableSnoc(hits);
    assert Table(hits)[hit.key] == Counted(Table(hits[..last]), hit);
  }

  lemma {:induction false} EarlierWindow(hits: seq<Attempt>, i: nat, key: string, rule: Rule)
    requires ClockMonotone(hits) && OneRule(hits, key, rule) && rule.window > 0
    requires i < |hits| && hits[i].key == key
    ensures key in Table(hits)
    ensures var mine, open := WindowOfLast(hits[..i + 1]), Table(hits)[key].start;
            mine == open || mine + rule.window as real <= open
  {
    var last := |hits| - 1;
    TableSnoc(hits);
    if i < last {
      assert hits[..last][..i + 1] == hits[..i + 1];
      EarlierWindow(hits[..last], i, key, rule);
    } else {
      assert hits[..i + 1] == hits;
    }
  }

  /** Windows of one bucket begin at least one window length apart. */
  lemma {:induction false} WindowsStartApart(hits: seq<Attempt>, i: nat, j: nat, rule: Rule)
    requires ClockMonotone(hits) && i < j < |hits| && hits[i].key == hits[j].key
    requires OneRule(hits, hits[j].key, rule) && rule.window > 0
    ensures var a, b := WindowOfLast(hits[..i + 1]), WindowOfLast(hits[..j + 1]);
            a == b || a + rule.window as real <= b
  {
    var upTo := hits[..j + 1];
    assert upTo[..i + 1] == hits[..i + 1];
    EarlierWindow(upTo, i, hits[j].key, rule);
    TableSnoc(upTo);
  }

  // ---------------------------------------------------------------- any stretch of one window length

  /** Hits on the bucket that were admitted at a time in [from, from + length). */
  function Admitted(hits: seq<Attempt>, decisions: seq<Decision>, key: string, from: real, length: real): nat
    requires |decisions| == |hits|
  {
    if hits == [] then 0
    else
      var last := |hits| - 1;
      Admitted(hits[..last], decisions[..last], key, from, length)
      + if hits[last].key == key && decisions[last] == Allowed && from <= hits[last].now < from + length then 1 else 0
  }

  function AdmittedSoFar(hits: seq<Attempt>, key: string, from: real, length: real): nat {
    Admitted(hits, Decisions(map[], NeverSwept(hits)), key, from, length)
  }

  lemma {:induction false} AdmittedSnoc(hits: seq<Attempt>, key: string, from: real, length: real)
    requires hits != []
    ensures var last := |hits| - 1;
            AdmittedSoFar(hits, key, from, length)
            == AdmittedSoFar(hits[..last], key, from, length)
               + if hits[last].key == key && Decide(Table(hits[..last]), hits[last]) == Allowed
                    && from <= hits[last].now < from + length then 1 else 0
  {
    var last := |hits| - 1;
    NeverSweptSnoc(hits);
    var decisions := Decisions(map[], NeverSwept(hits));
    assert decisions[..last] == Decisions(map[], NeverSwept(hits[..last]));
  }

  function Min(a: int, b: int): int {
    if a <= b then a else b
  }

  /** How many admissions the stretch can have seen, by where the open window begins. */
  predicate WithinBudget(bucket: Bucket, rule: Rule, from: real, admitted: int) {
    var length := rule.window as real;
    && bucket.count >= 1
    && admitted <= 2 * rule.limit - 1
    && (bucket.start + length <= from ==> admitted == 0)
    && (bucket.start < from ==> admitted <= Min(bucket.count, rule.limit) - 1)
    && (bucket.start == from ==> admitted <= Min(bucket.count, rule.limit))
    && (from < bucket.start < from + length ==> admitted <= rule.limit - 1 + Min(bucket.count, rule.limit))
  }

  lemma {:induction false} BudgetStep(table: Buckets, hit: Attempt, rule: Rule, from: real, before: int, after: int)
    requires hit.rule == rule && rule.limit >= 1 && rule.window > 0
    requires hit.key in table ==> WithinBudget(table[hit.key], rule, from, before) && table[hit.key].start <= hit.now
    requires hit.key !in table ==> before == 0
    requires hit.now < from ==> before == 0
    requires after == before + if Decide(table, hit) == Allowed && from <= hit.now < from + rule.window as real then 1 else 0
    ensures WithinBudget(Counted(table, hit), rule, from, after)
  {
  }

  lemma {:induction false} RunStaysInBudget(hits: seq<Attempt>, key: string, rule: Rule, from: real)
    requires ClockMonotone(hits) && OneRule(hits, key, rule) && rule.limit >= 1 && rule.window > 0
    ensures var admitted := AdmittedSoFar(hits, key, from, rule.window as real);
            && (key in Table(hits) ==> WithinBudget(Table(hits)[key], rule, from, admitted))
            && (key !in Table(hits) ==> admitted == 0)
            && (hits != [] && hits[|hits| - 1].now < from ==> admitted == 0)
    ensures hits != [] && key in Table(hits) ==> Table(hits)[key].start <= hits[|hits| - 1].now
  {
    if hits != [] {
      var last := |hits| - 1;
      RunStaysInBudget(hits[..last], key, rule, from);
      AdmittedSnoc(hits, key, from, rule.window as real);
      TableSnoc(hits);
      if hits[last].key == key {
        BudgetStep(Table(hits[..last]), hits[last], rule, from,
                   AdmittedSoFar(hits[..last], key, from, rule.window as real),
                   AdmittedSoFar(hits, key, from, rule.window as real));
      }
    }
  }

  /**
   Whenever sweeps fire, no half-open stretch of one window length sees more than 2 * limit - 1
   admissions: a window that began before the stretch spent its first admission outside it.
   */
  lemma {:induction false} StretchBound(hits: seq<Attempt>, key: string, rule: Rule, from: real)
    requires ClockMonotone(hits) && WindowsUpTo(hits, SWEEP_STALE_AFTER)
    requires OneRule(hits, key, rule) && rule.limit >= 1 && rule.window > 0
    ensures Admitted(hits, Decisions(map[], hits), key, from, rule.window as real) <= 2 * rule.limit - 1
  {
    SweepSimulation(hits, if hits == [] then 0.0 else hits[|hits| - 1].now);
    RunStaysInBudget(hits, key, rule, from);
  }

  // ---------------------------------------------------------------- the bound is reached

  /** One hit at the start, the rest of the window half-way through, and the next window in full. */
  function TightRun(key: string, rule: Rule): seq<Attempt>
    requires rule.limit >= 1
  {
    Burst(Attempt(key, rule, 0.0, 1.0), 1) + TightRest(key, rule)
  }

  function TightRest(key: string, rule: Rule): seq<Attempt>
    requires rule.limit >= 1
  {
    var length := rule.window as real;
    Burst(Attempt(key, rule, length / 2.0, 1.0), rule.limit - 1) + Burst(Attempt(key, rule, length, 1.0), rule.limit)
  }

  lemma {:induction false} AdmittedConcat(a: seq<Attempt>, da: seq<Decision>, b: seq<Attempt>, db: seq<Decision>,
                                          key: string, from: real, length: real)
    requires |a| == |da| && |b| == |db|
    ensures Admitted(a + b, da + db, key, from, length) == Admitted(a, da, key, from, length) + Admitted(b, db, key, from, length)
  {
    if b == [] {
      assert a + b == a && da + db == da;
    } else {
      var last := |b| - 1;
      AdmittedConcat(a, da, b[..last], db[..last], key, from, length);
      assert (a + b)[..|a| + last] == a + b[..last];
      assert (da + db)[..|a| + last] == da + db[..last];
    }
  }

  lemma {:induction false} AdmittedBurst(attempt: Attempt, n: nat, from: real, length: real)
    ensures Admitted(Burst(attempt, n), ManyAllowed(n), attempt.key, from, length)
         == if from <= attempt.now < from + length then n else 0
  {
    if n > 0 {
      AdmittedBurst(attempt, n - 1, from, length);
      assert Burst(attempt, n)[..n - 1] == Burst(attempt, n - 1);
      assert ManyAllowed(n)[..n - 1] == ManyAllowed(n - 1);
    }
  }

  /** The rest of an open window, and then a whole new one. */
  lemma {:induction false} TwoBursts(begun: Buckets, middle: Attempt, n: nat, last: Attempt, m: nat)
    requires middle.roll == 1.0 && last.roll == 1.0 && middle.key == last.key && middle.rule == last.rule
    requires middle.key in begun && begun[middle.key] == Bucket(0.0, 1)
    requires 0.0 <= middle.now < middle.rule.window as real <= last.now && 1 + n <= middle.rule.limit && 1 <= m <= middle.rule.limit
    ensures Decisions(begun, Burst(middle, n) + Burst(last, m)) == ManyAllowed(n) + ManyAllowed(m)
  {
    BurstWithinWindow(begun, middle, n);
    BurstFromOpening(After(begun, Burst(middle, n)), last, m);
    RunsCompose(begun, Burst(middle, n), Burst(last, m));
  }

  lemma {:induction false} TightRestDecisions(begun: Buckets, key: string, rule: Rule)
    requires rule.limit >= 1 && rule.window > 0
    requires key in begun && begun[key] == Bucket(0.0, 1)
    ensures Decisions(begun, TightRest(key, rule)) == ManyAllowed(rule.limit - 1) + ManyAllowed(rule.limit)
  {
    var length := rule.window as real;
    TwoBursts(begun, Attempt(key, rule, length / 2.0, 1.0), rule.limit - 1, Attempt(key, rule, length, 1.0), rule.limit);
  }

  lemma {:induction false} TightRunDecisions(key: string, rule: Rule)
    requires rule.limit >= 1 && rule.window > 0
    ensures Decisions(map[], TightRun(key, rule)) == ManyAllowed(1) + (ManyAllowed(rule.limit - 1) + ManyAllowed(rule.limit))
  {
    var first := Attempt(key, rule, 0.0, 1.0);
    BurstFromOpening(map[], first, 1);
    TightRestDecisions(After(map[], Burst(first, 1)), key, rule);
    RunsCompose(map[], Burst(first, 1), TightRest(key, rule));
  }

  lemma {:induction false} TightRunIsARun(key: string, rule: Rule)
    requires rule.limit >= 1 && rule.window > 0
    ensures ClockMonotone(TightRun(key, rule)) && OneRule(TightRun(key, rule), key, rule)
  {
  }

  lemma {:induction false} CountsAdd(a: seq<Attempt>, da: seq<Decision>, x: nat, b: seq<Attempt>, db: seq<Decision>, y: nat,
                                     key: string, from: real, length: real)
    requires |a| == |da| && |b| == |db|
    requires Admitted(a, da, key, from, length) == x && Admitted(b, db, key, from, length) == y
    ensures |a + b| == |da + db| && Admitted(a + b, da + db, key, from, length) == x + y
  {
    AdmittedConcat(a, da, b, db, key, from, length);
  }

  lemma {:induction false} BurstPairCount(b: Attempt, n: nat, c: Attempt, m: nat, from: real, length: real)
    requires b.key == c.key && from <= b.now < from + length && from <= c.now < from + length
    ensures |Burst(b, n) + Burst(c, m)| == |ManyAllowed(n) + ManyAllowed(m)|
    ensures Admitted(Burst(b, n) + Burst(c, m), ManyAllowed(n) + ManyAllowed(m), c.key, from, length) == n + m
  {
    AdmittedBurst(b, n, from, length);
    AdmittedBurst(c, m, from, length);
    CountsAdd(Burst(b, n), ManyAllowed(n), n, Burst(c, m), ManyAllowed(m), m, c.key, from, length);
  }

  lemma {:induction false} TightRestCount(key: string, rule: Rule, from: real, length: real)
    requires rule.limit >= 1 && rule.window > 0 && length == rule.window as real && from == length / 2.0
    ensures |TightRest(key, rule)| == |ManyAllowed(rule.limit - 1) + ManyAllowed(rule.limit)|
    ensures Admitted(TightRest(key, rule), ManyAllowed(rule.limit - 1) + ManyAllowed(rule.limit), key, from, length)
         == 2 * rule.limit - 1
  {
    BurstPairCount(Attempt(key, rule, from, 1.0), rule.limit - 1, Attempt(key, rule, length, 1.0), rule.limit, from, length);
  }

  /** A burst outside the interval adds nothing to what is counted in it. */
  lemma {:induction false} EarlierBurst(early: Attempt, n: nat, hits: seq<Attempt>, decisions: seq<Decision>,
                                        run: seq<Attempt>, answers: seq<Decision>, from: real, length: real)
    requires |hits| == |decisions| && early.now < from
    requires run == Burst(early, n) + hits && answers == ManyAllowed(n) + decisions
    ensures |run| == |answers|
    ensures Admitted(run, answers, early.key, from, length) == Admitted(hits, decisions, early.key, from, length)
  {
    AdmittedBurst(early, n, from, length);
    AdmittedConcat(Burst(early, n), ManyAllowed(n), hits, decisions, early.key, from, length);
  }

  lemma {:induction false} TightRunCount(key: string, rule: Rule, length: real)
    requires rule.limit >= 1 && rule.window > 0 && length == rule.window as real
    ensures |TightRun(key, rule)| == |ManyAllowed(1) + (ManyAllowed(rule.limit - 1) + ManyAllowed(rule.limit))|
    ensures Admitted(TightRun(key, rule), ManyAllowed(1) + (ManyAllowed(rule.limit - 1) + ManyAllowed(rule.limit)),
                     key, length / 2.0, length) == 2 * rule.limit - 1
  {
    var rest, decisions := TightRest(key, rule), ManyAllowed(rule.limit - 1) + ManyAllowed(rule.limit);
    TightRestCount(key, rule, length / 2.0, length);
    EarlierBurst(Attempt(key, rule, 0.0, 1.0), 1, rest, decisions, TightRun(key, rule), ManyAllowed(1) + decisions,
                 length / 2.0, length);
  }

  /** No smaller bound holds: some run admits 2 * limit - 1 hits within one window length. */
  lemma {:induction false} StretchBoundIsTight(key: string, rule: Rule)
    requires rule.limit >= 1 && rule.window > 0
    ensures ClockMonotone(TightRun(key, rule)) && OneRule(TightRun(key, rule), key, rule)
    ensures Admitted(TightRun(key, rule), Decisions(map[], TightRun(key, rule)), key,
                     rule.window as real / 2.0, rule.window as real) == 2 * rule.limit - 1
  {
    TightRunIsARun(key, rule);
    TightRunDecisions(key, rule);
    TightRunCount(key, rule, rule.window as real);
  }

  // ---------------------------------------------------------------- what retry_after promises

  /** Seconds left, when a hit was counted, of the window it was counted in. */
  function Remaining(hits: seq<Attempt>, i: nat): real
    requires i < |hits|
  {
    WindowOfLast(hits[..i + 1]) + hits[i].rule.window as real - hits[i].now
  }

  lemma {:induction false} DecisionIsOfPrefix(hits: seq<Attempt>, i: nat)
    requires i < |hits|
    ensures Decisions(map[], hits)[i] == Decisions(map[], hits[..i + 1])[i]
  {
    var last := |hits| - 1;
    if i < last {
      DecisionIsOfPrefix(hits[..last], i);
      assert hits[..last][..i + 1] == hits[..i + 1];
    } else {
      assert hits[..i + 1] == hits;
    }
  }

  /** Whatever was swept before, a hit is decided by the table nothing was swept from. */
  lemma {:induction false} DecidedByTable(hits: seq<Attempt>, i: nat)
    requires ClockMonotone(hits) && WindowsUpTo(hits, SWEEP_STALE_AFTER) && i < |hits|
    ensures Decisions(map[], hits)[i] == Decide(Table(hits[..i]), hits[i])
  {
    var upTo := hits[..i + 1];
    DecisionIsOfPrefix(hits, i);
    SweepSimulation(upTo, hits[i].now);
    NeverSweptSnoc(upTo);
    assert upTo[..i] == hits[..i];
  }

  lemma {:induction false} WindowOfHit(hits: seq<Attempt>, i: nat)
    requires i < |hits|
    ensures WindowOfLast(hits[..i + 1]) == Counted(Table(hits[..i]), hits[i]).start
  {
    assert hits[..i + 1][..i] == hits[..i];
  }

  /** What a denial says about the rest of its window. */
  lemma {:induction false} DenialDated(hits: seq<Attempt>, i: nat)
    requires ClockMonotone(hits) && WindowsUpTo(hits, SWEEP_STALE_AFTER) && i < |hits|
    requires hits[i].rule.limit >= 1 && Decisions(map[], hits)[i].Denied?
    ensures Remaining(hits, i) > 0.0
    ensures Decisions(map[], hits)[i].retryAfter == Max(1, Remaining(hits, i).Floor)
  {
    DecidedByTable(hits, i);
    WindowOfHit(hits, i);
  }

  lemma {:induction false} HitsInWindowGrow(hits: seq<Attempt>, i: nat, j: nat, key: string, start: real)
    requires i <= j <= |hits|
    ensures HitsInWindow(hits[..i], key, start) <= HitsInWindow(hits[..j], key, start)
  {
    if i < j {
      HitsInWindowGrow(hits, i, j - 1, key, start);
      assert hits[..j][..j - 1] == hits[..j - 1];
    }
  }

  /** Admission, at any place of a run, by the number of hits in the hit's own window. */
  lemma {:induction false} AdmittedIffAmongFirst(hits: seq<Attempt>, i: nat, rule: Rule)
    requires ClockMonotone(hits) && WindowsUpTo(hits, SWEEP_STALE_AFTER) && i < |hits|
    requires OneRule(hits, hits[i].key, rule) && rule.window > 0
    ensures var window := WindowOfLast(hits[..i + 1]);
            && (Decisions(map[], hits)[i] == Allowed <==> HitsInWindow(hits[..i + 1], hits[i].key, window) <= rule.limit)
            && window <= hits[i].now < window + rule.window as real
  {
    var upTo := hits[..i + 1];
    assert upTo[|upTo| - 1] == hits[i];
    WindowAdmitsItsFirstHits(upTo, rule);
    DecisionIsOfPrefix(hits, i);
  }

  /**
   After a denial, a later hit on the bucket is admitted exactly when the denied hit's window has ended
   and the later hit is among the first `limit` of its own window. Other callers count too.
   */
  lemma {:induction false} RetryAfter(hits: seq<Attempt>, i: nat, j: nat, rule: Rule)
    requires ClockMonotone(hits) && WindowsUpTo(hits, SWEEP_STALE_AFTER)
    requires i < j < |hits| && hits[i].key == hits[j].key
    requires OneRule(hits, hits[j].key, rule) && rule.window > 0
    requires Decisions(map[], hits)[i].Denied?
    ensures Decisions(map[], hits)[j] == Allowed
       <==> hits[j].now >= hits[i].now + Remaining(hits, i)
            && HitsInWindow(hits[..j + 1], hits[j].key, WindowOfLast(hits[..j + 1])) <= rule.limit
  {
    var a, full := Counting(hits, i, rule);
    var b, count := Counting(hits, j, rule);
    CountingLater(hits, i, j, rule, a, full, b, count);
  }

  lemma {:induction false} CountingLater(hits: seq<Attempt>, i: nat, j: nat, rule: Rule, a: real, full: nat, b: real, count: nat)
    requires ClockMonotone(hits) && i < j < |hits| && hits[i].key == hits[j].key
    requires OneRule(hits, hits[j].key, rule) && rule.window > 0
    requires a == WindowOfLast(hits[..i + 1]) && full == HitsInWindow(hits[..i + 1], hits[i].key, a)
    requires b == WindowOfLast(hits[..j + 1]) && count == HitsInWindow(hits[..j + 1], hits[j].key, b)
    ensures (a == b && full <= count) || a + rule.window as real <= b
  {
    WindowsStartApart(hits, i, j, rule);
    HitsInWindowGrow(hits, i + 1, j + 1, hits[j].key, a);
  }

  /** The window a hit is counted in, and how many hits of that window there have been by then. */
  lemma {:induction false} Counting(hits: seq<Attempt>, i: nat, rule: Rule) returns (window: real, count: nat)
    requires ClockMonotone(hits) && WindowsUpTo(hits, SWEEP_STALE_AFTER) && i < |hits|
    requires OneRule(hits, hits[i].key, rule) && rule.window > 0
    ensures window == WindowOfLast(hits[..i + 1]) && count == HitsInWindow(hits[..i + 1], hits[i].key, window)
    ensures Decisions(map[], hits)[i] == Allowed <==> count <= rule.limit
    ensures window <= hits[i].now < window + rule.window as real
    ensures Remaining(hits, i) == window + rule.window as real - hits[i].now
  {
    AdmittedIffAmongFirst(hits, i, rule);
    window := WindowOfLast(hits[..i + 1]);
    count := HitsInWindow(hits[..i + 1], hits[i].key, window);
  }

  lemma {:induction false} OpenedBefore(hits: seq<Attempt>, key: string, end: real)
    requires forall k :: 0 <= k < |hits| && hits[k].key == key ==> hits[k].now < end
    ensures key in Table(hits) ==> Table(hits)[key].start < end
  {
    if hits != [] {
      OpenedBefore(hits[..|hits| - 1], key, end);
      TableSnoc(hits);
    }
  }

  /** The first hit on the bucket after the denied one's window has ended is always admitted. */
  lemma {:induction false} FirstBackIsAdmitted(hits: seq<Attempt>, i: nat, j: nat, rule: Rule)
    requires ClockMonotone(hits) && WindowsUpTo(hits, SWEEP_STALE_AFTER)
    requires i < j < |hits| && hits[i].key == hits[j].key
    requires OneRule(hits, hits[j].key, rule) && rule.window > 0 && rule.limit >= 1
    requires Decisions(map[], hits)[i].Denied?
    requires hits[j].now >= hits[i].now + Remaining(hits, i)
    requires forall k :: i < k < j && hits[k].key == hits[j].key ==> hits[k].now < hits[i].now + Remaining(hits, i)
    ensures Decisions(map[], hits)[j] == Allowed
  {
    var before, end := hits[..j], hits[i].now + Remaining(hits, i);
    DenialDated(hits, i);
    forall k | 0 <= k < j && hits[k].key == hits[j].key
      ensures hits[k].now < end
    {
      assert k <= i ==> hits[k].now <= hits[i].now;
    }
    OpenedBefore(before, hits[j].key, end);
    assert before[..i + 1] == hits[..i + 1];
    EarlierWindow(before, i, hits[j].key, rule);
    DecidedByTable(hits, j);
  }

  /**
   The retry time is the remaining time, truncated and at least one second: one second more always covers
   it, and the retry time itself exactly when nothing was lost.
   */
  lemma {:induction false} RetryTimeCoversIff(hits: seq<Attempt>, i: nat)
    requires ClockMonotone(hits) && WindowsUpTo(hits, SWEEP_STALE_AFTER) && i < |hits|
    requires hits[i].rule.limit >= 1 && Decisions(map[], hits)[i].Denied?
    ensures var retry, left := Decisions(map[], hits)[i].retryAfter, Remaining(hits, i);
            && retry as real + 1.0 > left
            && (retry as real >= left <==> left <= 1.0 || left == left.Floor as real)
  {
    DenialDated(hits, i);
  }

  function AtTime(now: real): Attempt {
    Attempt("k", Rule(1, 60), now, 1.0)
  }

  /**
   A truncated retry, and an overtaken one: told at 30.5 to wait 29 seconds, the caller is denied after
   29 seconds, and after 30 seconds too because somebody else came at 60.0.
   */
  lemma {:induction false} RetryExample()
    ensures Decisions(map[], [AtTime(0.0), AtTime(30.5), AtTime(59.5), AtTime(60.0), AtTime(60.5)])
         == [Allowed, Denied(29), Denied(1), Allowed, Denied(59)]
  {
    AppendHit(map[], [], AtTime(0.0), map[], []);
    var one := [] + [AtTime(0.0)];
    var two := one + [AtTime(30.5)];
    var three := two + [AtTime(59.5)];
    var four := three + [AtTime(60.0)];
    ExampleStep(one, 30.5, Bucket(0.0, 1), [Allowed], Bucket(0.0, 2), Denied(29));
    ExampleStep(two, 59.5, Bucket(0.0, 2), [Allowed, Denied(29)], Bucket(0.0, 3), Denied(1));
    ExampleStep(three, 60.0, Bucket(0.0, 3), [Allowed, Denied(29), Denied(1)], Bucket(60.0, 1), Allowed);
    ExampleStep(four, 60.5, Bucket(60.0, 1), [Allowed, Denied(29), Denied(1), Allowed], Bucket(60.0, 2), Denied(59));
    assert four + [AtTime(60.5)] == [AtTime(0.0), AtTime(30.5), AtTime(59.5), AtTime(60.0), AtTime(60.5)];
  }

  lemma {:induction false} ExampleStep(hits: seq<Attempt>, now: real, before: Bucket, decisions: seq<Decision>,
                                       after: Bucket, decision: Decision)
    requires After(map[], hits) == map["k" := before] && Decisions(map[], hits) == decisions
    requires Counted(map["k" := before], AtTime(now)) == after && Verdict(after, AtTime(now)) == decision
    ensures After(map[], hits + [AtTime(now)]) == map["k" := after]
    ensures Decisions(map[], hits + [AtTime(now)]) == decisions + [decision]
  {
    AppendHit(map[], hits, AtTime(now), map["k" := before], decisions);
  }
}
