/**
 The in-process fixed-window rate limiter. Each call of `hit` holds a lock, so a run is a sequence
 of atomic hits; the clock reading and the random roll of each hit are parameters.
 */
module RateLimit {
  import opened Wrappers
  import Text

  datatype Rule = Rule(limit: int, window: int)

  datatype Bucket = Bucket(start: real, count: int)

  type Buckets = map<string, Bucket>

  /** retry_after is only meaningful when the hit was denied. */
  datatype Decision = Allowed | Denied(retryAfter: int)

  /** One locked call: the bucket, its rule, the clock, and the random roll that may trigger a sweep. */
  datatype Attempt = Attempt(key: string, rule: Rule, now: real, roll: real)

  const SWEEP_PROBABILITY := 0.01
  const SWEEP_STALE_AFTER := 3600.0

  // ---------------------------------------------------------------- one hit

  function Truncate(x: real): int {
    if x >= 0.0 then x.Floor else -((-x).Floor)
  }

  function Max(a: int, b: int): int {
    if a >= b then a else b
  }

  /** The bucket after the hit was counted: a fresh window once the old one has elapsed. */
  function Counted(buckets: Buckets, hit: Attempt): Bucket {
    if hit.key in buckets && hit.now - buckets[hit.key].start < hit.rule.window as real
    then Bucket(buckets[hit.key].start, buckets[hit.key].count + 1)
    else Bucket(hit.now, 1)
  }

  function Verdict(bucket: Bucket, hit: Attempt): Decision {
    if bucket.count > hit.rule.limit
    then Denied(Max(1, Truncate(hit.rule.window as real - (hit.now - bucket.start))))
    else Allowed
  }

  predicate Stale(bucket: Bucket, now: real) {
    now - bucket.start >= SWEEP_STALE_AFTER
  }

  function Swept(buckets: Buckets, now: real, roll: real): Buckets {
    if roll > SWEEP_PROBABILITY then buckets
    else map key | key in buckets && !Stale(buckets[key], now) :: buckets[key]
  }

  function Step(buckets: Buckets, hit: Attempt): Buckets {
    Swept(buckets[hit.key := Counted(buckets, hit)], hit.now, hit.roll)
  }

  function Decide(buckets: Buckets, hit: Attempt): Decision {
    Verdict(Counted(buckets, hit), hit)
  }

  // ---------------------------------------------------------------- runs

  function After(buckets: Buckets, hits: seq<Attempt>): Buckets {
    if hits == [] then buckets else Step(After(buckets, hits[..|hits| - 1]), hits[|hits| - 1])
  }

  function Decisions(buckets: Buckets, hits: seq<Attempt>): (d: seq<Decision>)
    ensures |d| == |hits|
  {
    if hits == [] then []
    else
      var init := hits[..|hits| - 1];
      Decisions(buckets, init) + [Decide(After(buckets, init), hits[|hits| - 1])]
  }

  // ---------------------------------------------------------------- the object

  class InMemoryRateLimiterBackend {
    var buckets: Buckets

    constructor ()
      ensures buckets == map[]
    {
      buckets := map[];
    }

    method Hit(key: string, rule: Rule, now: real, roll: real) returns (decision: Decision)
      modifies this
      ensures buckets == Step(old(buckets), Attempt(key, rule, now, roll))
      ensures decision == Decide(old(buckets), Attempt(key, rule, now, roll))
    {
      var bucket := if key in buckets then buckets[key] else Bucket(now, 0);
      if now - bucket.start >= rule.window as real {
        bucket := Bucket(now, 0);
      }
      bucket := bucket.(count := bucket.count + 1);
      buckets := buckets[key := bucket];
      MaybeSweep(now, roll);
      if bucket.count > rule.limit {
        return Denied(Max(1, Truncate(rule.window as real - (now - bucket.start))));
      }
      return Allowed;
    }

    method MaybeSweep(now: real, roll: real)
      modifies this
      ensures buckets == Swept(old(buckets), now, roll)
    {
      if roll > SWEEP_PROBABILITY {
        return;
      }
      var stale := set key | key in buckets && Stale(buckets[key], now);
      while stale != {}
        invariant forall key :: key in buckets ==> key in old(buckets) && buckets[key] == old(buckets)[key]
        invariant forall key :: key in old(buckets) && key !in buckets ==> Stale(old(buckets)[key], now)
        invariant forall key :: key in buckets ==> (key in stale <==> Stale(buckets[key], now))
        invariant forall key :: key in stale ==> key in buckets
        decreases stale
      {
        ghost var one := SomeMember(stale);
        var key :| key in stale;
        buckets := buckets - {key};
        stale := stale - {key};
      }
    }
  }

  // ---------------------------------------------------------------- enforcing a set of checks

  /** Every rule of a check is counted against the same identity under the check's scope. */
  datatype Check = Check(scope: string, identity: string, rules: seq<Rule>)

  /** f"{check.scope}:{rule.window_seconds}:{check.identity}" */
  function BucketKey(check: Check, rule: Rule): string
    requires rule.window >= 0
  {
    check.scope + ":" + Text.Decimal(rule.window) + ":" + check.identity
  }

  /** The key carries the window, so the rules of one check never share a bucket by accident. */
  lemma {:induction false} KeysSeparateWindows(check: Check, r: Rule, s: Rule)
    requires r.window >= 0 && s.window >= 0
    ensures BucketKey(check, r) == BucketKey(check, s) <==> r.window == s.window
  {
    var a, b := Text.Decimal(r.window), Text.Decimal(s.window);
    var k, l := BucketKey(check, r), BucketKey(check, s);
    assert k[|check.scope| + 1..|check.scope| + 1 + |a|] == a;
    assert l[|check.scope| + 1..|check.scope| + 1 + |b|] == b;
    if k == l {
      assert |k| == |check.scope| + |a| + 2 + |check.identity|;
      assert |l| == |check.scope| + |b| + 2 + |check.identity|;
      assert Text.Value(a) == Text.Value(b);
    }
  }

  /** The clock reading and random roll each call of `hit` makes for itself. */
  datatype Tick = Tick(now: real, roll: real)

  /** Windows are whole seconds. */
  predicate WellFormed(check: Check) {
    forall i :: 0 <= i < |check.rules| ==> check.rules[i].window >= 0
  }

  predicate AllWellFormed(checks: seq<Check>) {
    forall i :: 0 <= i < |checks| ==> WellFormed(checks[i])
  }

  /** One hit for each of the first n rules of the check, with the ticks of the clock from a position on. */
  function RuleHits(check: Check, clock: seq<Tick>, from: nat, n: nat): (hits: seq<Attempt>)
    requires WellFormed(check) && n <= |check.rules| && from + n <= |clock|
    ensures |hits| == n
  {
    if n == 0 then []
    else RuleHits(check, clock, from, n - 1) + [RuleHit(check, check.rules[n - 1], clock[from + n - 1])]
  }

  function RuleHit(check: Check, rule: Rule, tick: Tick): Attempt
    requires rule.window >= 0
  {
    Attempt(BucketKey(check, rule), rule, tick.now, tick.roll)
  }

  /** All hits of one check. */
  function HitsOf(check: Check, clock: seq<Tick>, from: nat): seq<Attempt>
    requires WellFormed(check) && from + |check.rules| <= |clock|
  {
    RuleHits(check, clock, from, |check.rules|)
  }

  /** How many rules the first c checks have. */
  function RulesBefore(checks: seq<Check>, c: nat): nat
    requires c <= |checks|
  {
    if c == 0 then 0 else RulesBefore(checks, c - 1) + |checks[c - 1].rules|
  }

  /** All rules of the first c checks, in the order they are evaluated. */
  function CheckHits(checks: seq<Check>, clock: seq<Tick>, c: nat): seq<Attempt>
    requires AllWellFormed(checks) && c <= |checks| && RulesBefore(checks, c) <= |clock|
  {
    if c == 0 then [] else CheckHits(checks, clock, c - 1) + HitsOf(checks[c - 1], clock, RulesBefore(checks, c - 1))
  }

  lemma {:induction false} RuleHitAt(check: Check, clock: seq<Tick>, from: nat, n: nat, k: nat)
    requires WellFormed(check) && k < n <= |check.rules| && from + n <= |clock|
    ensures var rule, tick := check.rules[k], clock[from + k];
            RuleHits(check, clock, from, n)[k]
            == Attempt(check.scope + ":" + Text.Decimal(rule.window) + ":" + check.identity, rule, tick.now, tick.roll)
  {
    if k < n - 1 {
      RuleHitAt(check, clock, from, n - 1, k);
    }
  }

  /** `starts[c]` rules come before those of check c. */
  ghost predicate CountsRules(checks: seq<Check>, starts: seq<nat>) {
    |starts| == |checks| + 1 && starts[0] == 0 && forall c :: 0 <= c < |checks| ==> starts[c + 1] == starts[c] + |checks[c].rules|
  }

  lemma {:induction false} RulesCounted(checks: seq<Check>, starts: seq<nat>, c: nat)
    requires CountsRules(checks, starts) && c <= |checks|
    ensures RulesBefore(checks, c) == starts[c]
  {
    if c > 0 {
      RulesCounted(checks, starts, c - 1);
    }
  }

  lemma {:induction false} CheckHitsLength(checks: seq<Check>, clock: seq<Tick>, c: nat)
    requires AllWellFormed(checks) && c <= |checks| && RulesBefore(checks, c) <= |clock|
    ensures |CheckHits(checks, clock, c)| == RulesBefore(checks, c)
  {
    if c > 0 {
      CheckHitsLength(checks, clock, c - 1);
    }
  }

  lemma {:induction false} HitOfRule(checks: seq<Check>, clock: seq<Tick>, n: nat, c: nat, k: nat)
    requires AllWellFormed(checks) && c < n <= |checks| && k < |checks[c].rules| && RulesBefore(checks, n) <= |clock|
    ensures var p, rule := RulesBefore(checks, c) + k, checks[c].rules[k];
            p < |CheckHits(checks, clock, n)| == RulesBefore(checks, n)
            && CheckHits(checks, clock, n)[p] == Attempt(checks[c].scope + ":" + Text.Decimal(rule.window) + ":" + checks[c].identity,
                                                         rule, clock[p].now, clock[p].roll)
  {
    RulesBeforeGrows(checks, c + 1, n);
    CheckHitsLength(checks, clock, n);
    EarlierHitsStay(checks, clock, c + 1, n);
    HitOfLastRule(checks, clock, c, k);
  }

  lemma {:induction false} HitOfLastRule(checks: seq<Check>, clock: seq<Tick>, c: nat, k: nat)
    requires AllWellFormed(checks) && c < |checks| && k < |checks[c].rules| && RulesBefore(checks, c + 1) <= |clock|
    ensures var p, rule := RulesBefore(checks, c) + k, checks[c].rules[k];
            p < |CheckHits(checks, clock, c + 1)|
            && CheckHits(checks, clock, c + 1)[p]
               == Attempt(checks[c].scope + ":" + Text.Decimal(rule.window) + ":" + checks[c].identity,
                          rule, clock[p].now, clock[p].roll)
  {
    var before, mine := CheckHits(checks, clock, c), HitsOf(checks[c], clock, RulesBefore(checks, c));
    CheckHitsLength(checks, clock, c);
    RuleHitAt(checks[c], clock, RulesBefore(checks, c), |checks[c].rules|, k);
    AppendedAt(before, mine, k);
  }

  lemma {:induction false} AppendedAt(before: seq<Attempt>, mine: seq<Attempt>, k: nat)
    requires k < |mine|
    ensures (before + mine)[|before| + k] == mine[k]
  {
  }

  lemma {:induction false} EarlierHitsStay(checks: seq<Check>, clock: seq<Tick>, c: nat, n: nat)
    requires AllWellFormed(checks) && c <= n <= |checks| && RulesBefore(checks, n) <= |clock|
    ensures RulesBefore(checks, c) <= RulesBefore(checks, n) && CheckHits(checks, clock, c) <= CheckHits(checks, clock, n)
  {
    if c < n {
      EarlierHitsStay(checks, clock, c, n - 1);
    }
  }

  /**
   A call counts one hit for every rule of every check and nothing else, in their order, each under the
   key made of the check's scope, the rule's window and the check's identity, with its own clock reading.
   */
  lemma {:induction false} EveryRuleIsCounted(checks: seq<Check>, clock: seq<Tick>, starts: seq<nat>, c: nat, k: nat)
    requires AllWellFormed(checks) && |clock| == RulesBefore(checks, |checks|) && CountsRules(checks, starts)
    requires c < |checks| && k < |checks[c].rules|
    ensures var hits, rule, p := CheckHits(checks, clock, |checks|), checks[c].rules[k], starts[c] + k;
            && |hits| == |clock| == starts[|checks|] && p < |hits|
            && hits[p] == Attempt(checks[c].scope + ":" + Text.Decimal(rule.window) + ":" + checks[c].identity,
                                  rule, clock[p].now, clock[p].roll)
  {
    RulesCounted(checks, starts, c);
    RulesCounted(checks, starts, |checks|);
    HitOfRule(checks, clock, |checks|, c, k);
  }

  /** The 429 carries the longest retry time among the violated rules. */
  predicate IsWorst(decisions: seq<Decision>, retryAfter: Option<int>) {
    && (retryAfter.None? <==> forall i :: 0 <= i < |decisions| ==> decisions[i].Allowed?)
    && (retryAfter.Some? ==> Denied(retryAfter.value) in decisions)
    && (retryAfter.Some? ==> forall i :: 0 <= i < |decisions| && decisions[i].Denied? ==>
                               decisions[i].retryAfter <= retryAfter.value)
  }

  function Worse(worst: Option<int>, decision: Decision): Option<int> {
    if decision.Denied? && (worst.None? || decision.retryAfter > worst.value) then Some(decision.retryAfter)
    else worst
  }

  function Worst(from: Option<int>, decisions: seq<Decision>): Option<int> {
    if decisions == [] then from
    else Worse(Worst(from, decisions[..|decisions| - 1]), decisions[|decisions| - 1])
  }

  lemma {:induction false} WorstIsWorst(decisions: seq<Decision>)
    ensures IsWorst(decisions, Worst(None, decisions))
  {
    if decisions != [] {
      var last := |decisions| - 1;
      WorstIsWorst(decisions[..last]);
      assert decisions[last] in decisions;
      assert forall d :: d in decisions[..last] ==> d in decisions;
    }
  }

  lemma {:induction false} RunsCompose(buckets: Buckets, first: seq<Attempt>, second: seq<Attempt>)
    ensures After(buckets, first + second) == After(After(buckets, first), second)
    ensures Decisions(buckets, first + second) == Decisions(buckets, first) + Decisions(After(buckets, first), second)
  {
    if second == [] {
      assert first + second == first;
    } else {
      var last := |second| - 1;
      assert (first + second)[..|first + second| - 1] == first + second[..last];
      RunsCompose(buckets, first, second[..last]);
    }
  }

  lemma {:induction false} WorstComposes(from: Option<int>, first: seq<Decision>, second: seq<Decision>)
    ensures Worst(from, first + second) == Worst(Worst(from, first), second)
  {
    if second == [] {
      assert first + second == first;
    } else {
      assert (first + second)[..|first + second| - 1] == first + second[..|second| - 1];
      WorstComposes(from, first, second[..|second| - 1]);
    }
  }

  /** One more hit, on the table and on the worst retry time so far. */
  lemma {:induction false} OneMoreHit(buckets: Buckets, done: seq<Attempt>, hit: Attempt, from: Option<int>)
    ensures var table := After(buckets, done);
            && After(buckets, done + [hit]) == Step(table, hit)
            && Worst(from, Decisions(buckets, done + [hit])) == Worse(Worst(from, Decisions(buckets, done)), Decide(table, hit))
  {
    assert (done + [hit])[..|done|] == done;
    var decisions := Decisions(buckets, done + [hit]);
    assert decisions[..|done|] == Decisions(buckets, done);
  }

  /** What a run of hits left behind, starting from a table and a worst retry time. */
  ghost predicate Ran(before: Buckets, from: Option<int>, done: seq<Attempt>, reached: Buckets, worst: Option<int>) {
    reached == After(before, done) && worst == Worst(from, Decisions(before, done))
  }

  lemma {:induction false} RanOneMore(before: Buckets, from: Option<int>, done: seq<Attempt>, hit: Attempt,
                                      reached: Buckets, worst: Option<int>)
    requires Ran(before, from, done, reached, worst)
    ensures Ran(before, from, done + [hit], Step(reached, hit), Worse(worst, Decide(reached, hit)))
  {
    OneMoreHit(before, done, hit, from);
  }

  /** What the first n rules of a check left behind. */
  ghost predicate RanRules(before: Buckets, worst: Option<int>, check: Check, clock: seq<Tick>, from: nat, n: nat,
                           reached: Buckets, retryAfter: Option<int>)
    requires WellFormed(check) && n <= |check.rules| && from + n <= |clock|
  {
    Ran(before, worst, RuleHits(check, clock, from, n), reached, retryAfter)
  }

  lemma {:induction false} RanOneMoreRule(before: Buckets, worst: Option<int>, check: Check, clock: seq<Tick>, from: nat, n: nat,
                                          rule: Rule, tick: Tick, reached: Buckets, retryAfter: Option<int>)
    requires WellFormed(check) && n < |check.rules| && from + n < |clock|
    requires rule == check.rules[n] && tick == clock[from + n]
    requires RanRules(before, worst, check, clock, from, n, reached, retryAfter)
    ensures var hit := RuleHit(check, rule, tick);
            RanRules(before, worst, check, clock, from, n + 1, Step(reached, hit), Worse(retryAfter, Decide(reached, hit)))
  {
    RanOneMore(before, worst, RuleHits(check, clock, from, n), RuleHit(check, rule, tick), reached, retryAfter);
  }

  method HitRule(backend: InMemoryRateLimiterBackend, check: Check, rule: Rule, tick: Tick) returns (decision: Decision)
    requires rule.window >= 0
    modifies backend
    ensures backend.buckets == Step(old(backend.buckets), RuleHit(check, rule, tick))
    ensures decision == Decide(old(backend.buckets), RuleHit(check, rule, tick))
  {
    decision := backend.Hit(BucketKey(check, rule), rule, tick.now, tick.roll);
  }

  method HitEveryRule(backend: InMemoryRateLimiterBackend, check: Check, clock: seq<Tick>, from: nat, worst: Option<int>)
    returns (retryAfter: Option<int>)
    requires WellFormed(check) && from + |check.rules| <= |clock|
    modifies backend
    ensures Ran(old(backend.buckets), worst, HitsOf(check, clock, from), backend.buckets, retryAfter)
  {
    retryAfter := worst;
    for i := 0 to |check.rules|
      invariant RanRules(old(backend.buckets), worst, check, clock, from, i, backend.buckets, retryAfter)
    {
      var rule, tick := check.rules[i], clock[from + i];
      RanOneMoreRule(old(backend.buckets), worst, check, clock, from, i, rule, tick, backend.buckets, retryAfter);
      var decision := HitRule(backend, check, rule, tick);
      retryAfter := Worse(retryAfter, decision);
    }
  }

  lemma {:induction false} RulesBeforeGrows(checks: seq<Check>, c: nat, d: nat)
    requires c <= d <= |checks|
    ensures RulesBefore(checks, c) <= RulesBefore(checks, d)
  {
    if c < d {
      RulesBeforeGrows(checks, c, d - 1);
    }
  }

  lemma {:induction false} RanMore(before: Buckets, done: seq<Attempt>, reached: Buckets, worst: Option<int>,
                                   more: seq<Attempt>, end: Buckets, worstAtEnd: Option<int>)
    requires Ran(before, None, done, reached, worst) && Ran(reached, worst, more, end, worstAtEnd)
    ensures Ran(before, None, done + more, end, worstAtEnd)
  {
    RunsCompose(before, done, more);
    WorstComposes(None, Decisions(before, done), Decisions(reached, more));
  }

  lemma {:induction false} ClockSuffices(checks: seq<Check>, clock: seq<Tick>, c: nat)
    requires AllWellFormed(checks) && c < |checks| && |clock| == RulesBefore(checks, |checks|)
    ensures WellFormed(checks[c]) && RulesBefore(checks, c + 1) == RulesBefore(checks, c) + |checks[c].rules| <= |clock|
  {
    RulesBeforeGrows(checks, c + 1, |checks|);
  }

  /** What the first c checks left behind. */
  ghost predicate RanChecks(before: Buckets, checks: seq<Check>, clock: seq<Tick>, c: nat, reached: Buckets, worst: Option<int>)
    requires AllWellFormed(checks) && c <= |checks| && RulesBefore(checks, c) <= |clock|
  {
    Ran(before, None, CheckHits(checks, clock, c), reached, worst)
  }

  lemma {:induction false} RanOneMoreCheck(before: Buckets, checks: seq<Check>, clock: seq<Tick>, c: nat, check: Check, used: nat,
                                           reached: Buckets, worst: Option<int>, end: Buckets, worstAtEnd: Option<int>)
    requires AllWellFormed(checks) && c < |checks| && check == checks[c] && RulesBefore(checks, c) == used
    requires used + |check.rules| <= |clock|
    requires RanChecks(before, checks, clock, c, reached, worst)
    requires Ran(reached, worst, HitsOf(check, clock, used), end, worstAtEnd)
    ensures RanChecks(before, checks, clock, c + 1, end, worstAtEnd)
  {
    RanMore(before, CheckHits(checks, clock, c), reached, worst, HitsOf(check, clock, used), end, worstAtEnd);
  }

  lemma {:induction false} RanThrough(before: Buckets, done: seq<Attempt>, reached: Buckets, worst: Option<int>)
    requires Ran(before, None, done, reached, worst)
    ensures reached == After(before, done) && IsWorst(Decisions(before, done), worst)
  {
    WorstIsWorst(Decisions(before, done));
  }

  /** Every rule is counted first, whatever was violated on the way; only then does the call fail. */
  method EnforceRateLimit(backend: InMemoryRateLimiterBackend, checks: seq<Check>, clock: seq<Tick>)
    returns (retryAfter: Option<int>)
    requires AllWellFormed(checks) && |clock| == RulesBefore(checks, |checks|)
    modifies backend
    ensures var hits := CheckHits(checks, clock, |checks|);
            backend.buckets == After(old(backend.buckets), hits) && IsWorst(Decisions(old(backend.buckets), hits), retryAfter)
  {
    retryAfter := None;
    var used := 0;
    for c := 0 to |checks|
      invariant used == RulesBefore(checks, c) <= |clock|
      invariant RanChecks(old(backend.buckets), checks, clock, c, backend.buckets, retryAfter)
    {
      ClockSuffices(checks, clock, c);
      var check := checks[c];
      ghost var reached, worst := backend.buckets, retryAfter;
      retryAfter := HitEveryRule(backend, check, clock, used, retryAfter);
      RanOneMoreCheck(old(backend.buckets), checks, clock, c, check, used, reached, worst, backend.buckets, retryAfter);
      used := used + |check.rules|;
    }
    RanThrough(old(backend.buckets), CheckHits(checks, clock, |checks|), backend.buckets, retryAfter);
  }
}
