/**
 Runs of whole checks: which bucket every rule of every check is counted in, and that under the
 application's way of naming scopes no bucket ever sees two different rules.
 */
module RateLimitChecks {
  import opened Wrappers
  import opened Text
  import opened RateLimit
  import opened RateLimitRuns

  // ---------------------------------------------------------------- when two checks share a bucket

  /** The part from i to j stands between colons, or an end of the text, and is a number. */
  predicate NumericPart(s: string, i: nat, j: nat) {
    && i < j <= |s| && IsDigitString(s[i..j])
    && (i > 0 ==> s[i - 1] == ':') && (j < |s| ==> s[j] == ':')
  }

  /** No part of the scope between colons is a number, as in "auth:login:ip" or "api:v1:key". */
  ghost predicate PlainScope(scope: string) {
    forall i: nat, j: nat :: !NumericPart(scope, i, j)
  }

  /** A scope is plain if no digit begins it or follows a colon. */
  lemma {:induction false} PlainIfNoPartBeginsWithDigit(scope: string)
    requires forall k :: 0 <= k < |scope| && IsDigit(scope[k]) ==> k > 0 && scope[k - 1] != ':'
    ensures PlainScope(scope)
  {
    forall i: nat, j: nat
      ensures !NumericPart(scope, i, j)
    {
      if i < j <= |scope| {
        assert scope[i..j][0] == scope[i];
      }
    }
  }

  /** Of the application's scopes only these two hold a digit at all. */
  lemma {:induction false} ApiScopesArePlain()
    ensures PlainScope("api:v1:auth") && PlainScope("api:v1:key")
  {
    PlainIfNoPartBeginsWithDigit("api:v1:auth");
    PlainIfNoPartBeginsWithDigit("api:v1:key");
  }

  function Joined(scope: string, window: string, identity: string): string {
    scope + ":" + window + ":" + identity
  }

  lemma {:induction false} JoinedAt(scope: string, window: string, identity: string, k: nat)
    requires k < |Joined(scope, window, identity)|
    ensures var key, colon := Joined(scope, window, identity), |scope| + 1 + |window|;
            key[k] == if k < |scope| then scope[k] else if k == |scope| || k == colon then ':'
                      else if k < colon then window[k - |scope| - 1] else identity[k - colon - 1]
    ensures |Joined(scope, window, identity)| == |scope| + |window| + |identity| + 2
  {
  }

  /** A scope that ends later than the other would hold the other's window between two colons. */
  lemma {:induction false} LaterScopeHoldsNumber(s: string, w: string, i: string, t: string, v: string, j: string)
    requires IsDigitString(w) && |s| < |t| && Joined(s, w, i) == Joined(t, v, j)
    ensures NumericPart(t, |s| + 1, |s| + 1 + |w|)
  {
    var colon := |s| + 1 + |w|;
    JoinedAt(s, w, i, |t|);
    JoinedAt(t, v, j, |t|);
    assert colon <= |t|;
    forall k | |s| <= k < colon
      ensures t[k] == if k == |s| then ':' else w[k - |s| - 1]
    {
      JoinedAt(s, w, i, k);
      JoinedAt(t, v, j, k);
    }
    if colon < |t| {
      JoinedAt(s, w, i, colon);
      JoinedAt(t, v, j, colon);
    }
    assert t[|s|] == ':' && t[|s| + 1..colon] == w;
  }

  /** Windows of different lengths would have a digit against a colon. */
  lemma {:induction false} SameLengthWindows(s: string, w: string, i: string, v: string, j: string)
    requires IsDigitString(w) && IsDigitString(v) && Joined(s, w, i) == Joined(s, v, j)
    ensures |w| >= |v|
  {
    if |w| < |v| {
      var colon := |s| + 1 + |w|;
      JoinedAt(s, w, i, colon);
      JoinedAt(s, v, j, colon);
    }
  }

  lemma {:induction false} PartsOfJoined(s: string, w: string, i: string)
    ensures var key := Joined(s, w, i);
            |s| + 1 + |w| + 1 <= |key| && key[..|s|] == s && key[|s| + 1..|s| + 1 + |w|] == w && key[|s| + |w| + 2..] == i
  {
  }

  lemma {:induction false} SameScopeLength(s: string, w: string, i: string, t: string, v: string, j: string)
    requires IsDigitString(w) && IsDigitString(v) && |s| == |t| && Joined(s, w, i) == Joined(t, v, j)
    ensures s == t && w == v && i == j
  {
    PartsOfJoined(s, w, i);
    PartsOfJoined(t, v, j);
    SameLengthWindows(s, w, i, v, j);
    SameLengthWindows(t, v, j, w, i);
  }

  /** Under plain scopes two rules share a bucket exactly for equal scopes, windows and identities. */
  lemma {:induction false} BucketsSharedIff(check: Check, r: Rule, other: Check, s: Rule)
    requires r.window >= 0 && s.window >= 0 && PlainScope(check.scope) && PlainScope(other.scope)
    ensures BucketKey(check, r) == BucketKey(other, s)
       <==> check.scope == other.scope && r.window == s.window && check.identity == other.identity
  {
    var w, v := Decimal(r.window), Decimal(s.window);
    assert BucketKey(check, r) == Joined(check.scope, w, check.identity);
    assert BucketKey(other, s) == Joined(other.scope, v, other.identity);
    if BucketKey(check, r) == BucketKey(other, s) {
      if |check.scope| < |other.scope| {
        LaterScopeHoldsNumber(check.scope, w, check.identity, other.scope, v, other.identity);
      } else if |other.scope| < |check.scope| {
        LaterScopeHoldsNumber(other.scope, v, other.identity, check.scope, w, check.identity);
      }
      SameScopeLength(check.scope, w, check.identity, other.scope, v, other.identity);
    }
  }

  /** With a number among the parts of a scope, two different checks can share a bucket. */
  lemma {:induction false} NumberedScopesCollide()
    ensures BucketKey(Check("a", "5:x", []), Rule(1, 5)) == BucketKey(Check("a:5", "x", []), Rule(2, 5))
    ensures NumericPart("a:5", 2, 3)
  {
    assert "a" + ":" + Decimal(5) + ":" + "5:x" == "a:5" + ":" + Decimal(5) + ":" + "x" by {
      assert Decimal(5) == "5";
    }
    assert "a:5"[2..3] == "5";
  }

  // ---------------------------------------------------------------- runs of calls

  /** One call of `enforce_rate_limit`, with the clock readings and rolls of its hits. */
  datatype Call = Call(checks: seq<Check>, clock: seq<Tick>)

  /** One limit is configured for each scope and window, and every scope is plain. */
  ghost predicate Configured(check: Check, limits: (string, int) -> int) {
    && WellFormed(check) && PlainScope(check.scope)
    && forall k :: 0 <= k < |check.rules| ==> check.rules[k].limit == limits(check.scope, check.rules[k].window)
  }

  ghost predicate CallConfigured(call: Call, limits: (string, int) -> int) {
    && AllWellFormed(call.checks) && |call.clock| == RulesBefore(call.checks, |call.checks|)
    && forall c :: 0 <= c < |call.checks| ==> Configured(call.checks[c], limits)
  }

  ghost predicate AllConfigured(calls: seq<Call>, limits: (string, int) -> int) {
    forall a :: 0 <= a < |calls| ==> CallConfigured(calls[a], limits)
  }

  /** All hits of the first n calls. */
  ghost function HitsOfCalls(calls: seq<Call>, limits: (string, int) -> int, n: nat): seq<Attempt>
    requires AllConfigured(calls, limits) && n <= |calls|
  {
    if n == 0 then []
    else HitsOfCalls(calls, limits, n - 1) + CheckHits(calls[n - 1].checks, calls[n - 1].clock, |calls[n - 1].checks|)
  }

  /** The hit counts a rule of some configured check. */
  ghost predicate IssuedBy(hit: Attempt, check: Check, limits: (string, int) -> int) {
    && hit.rule.window >= 0 && PlainScope(check.scope) && hit.key == BucketKey(check, hit.rule)
    && hit.rule.limit == limits(check.scope, hit.rule.window)
  }

  ghost predicate Issued(hit: Attempt, limits: (string, int) -> int) {
    exists check :: IssuedBy(hit, check, limits)
  }

  ghost predicate AllIssued(hits: seq<Attempt>, limits: (string, int) -> int) {
    forall i :: 0 <= i < |hits| ==> Issued(hits[i], limits)
  }

  lemma {:induction false} IssuedConcat(a: seq<Attempt>, b: seq<Attempt>, limits: (string, int) -> int)
    requires AllIssued(a, limits) && AllIssued(b, limits)
    ensures AllIssued(a + b, limits)
  {
  }

  lemma {:induction false} RuleHitsIssued(check: Check, clock: seq<Tick>, from: nat, n: nat, limits: (string, int) -> int)
    requires Configured(check, limits) && n <= |check.rules| && from + n <= |clock|
    ensures AllIssued(RuleHits(check, clock, from, n), limits)
  {
    if n > 0 {
      RuleHitsIssued(check, clock, from, n - 1, limits);
      var hit := RuleHit(check, check.rules[n - 1], clock[from + n - 1]);
      assert IssuedBy(hit, check, limits);
      IssuedConcat(RuleHits(check, clock, from, n - 1), [hit], limits);
    }
  }

  lemma {:induction false} CheckHitsIssued(call: Call, c: nat, limits: (string, int) -> int)
    requires CallConfigured(call, limits) && c <= |call.checks| && RulesBefore(call.checks, c) <= |call.clock|
    ensures AllIssued(CheckHits(call.checks, call.clock, c), limits)
  {
    if c > 0 {
      var before := RulesBefore(call.checks, c - 1);
      CheckHitsIssued(call, c - 1, limits);
      RuleHitsIssued(call.checks[c - 1], call.clock, before, |call.checks[c - 1].rules|, limits);
      IssuedConcat(CheckHits(call.checks, call.clock, c - 1), HitsOf(call.checks[c - 1], call.clock, before), limits);
    }
  }

  lemma {:induction false} CallsIssued(calls: seq<Call>, limits: (string, int) -> int, n: nat)
    requires AllConfigured(calls, limits) && n <= |calls|
    ensures AllIssued(HitsOfCalls(calls, limits, n), limits)
  {
    if n > 0 {
      var call := calls[n - 1];
      CallsIssued(calls, limits, n - 1);
      CheckHitsIssued(call, |call.checks|, limits);
      IssuedConcat(HitsOfCalls(calls, limits, n - 1), CheckHits(call.checks, call.clock, |call.checks|), limits);
    }
  }

  lemma {:induction false} SharedBucketSharedRule(a: Attempt, b: Attempt, limits: (string, int) -> int)
    requires Issued(a, limits) && Issued(b, limits) && a.key == b.key
    ensures a.rule == b.rule
  {
    var check :| IssuedBy(a, check, limits);
    var other :| IssuedBy(b, other, limits);
    BucketsSharedIff(check, a.rule, other, b.rule);
  }

  lemma {:induction false} OneRuleThrough(calls: seq<Call>, limits: (string, int) -> int, n: nat, i: nat)
    requires AllConfigured(calls, limits) && n <= |calls| && i < |HitsOfCalls(calls, limits, n)|
    ensures var hits := HitsOfCalls(calls, limits, n); OneRule(hits, hits[i].key, hits[i].rule)
  {
    var hits := HitsOfCalls(calls, limits, n);
    CallsIssued(calls, limits, n);
    forall j | 0 <= j < |hits| && hits[j].key == hits[i].key
      ensures hits[j].rule == hits[i].rule
    {
      SharedBucketSharedRule(hits[i], hits[j], limits);
    }
  }

  /** However calls of configured checks follow each other, a bucket is only ever counted under one rule. */
  lemma {:induction false} EveryBucketHasOneRule(calls: seq<Call>, limits: (string, int) -> int, i: nat)
    requires AllConfigured(calls, limits) && i < |HitsOfCalls(calls, limits, |calls|)|
    ensures var hits := HitsOfCalls(calls, limits, |calls|); OneRule(hits, hits[i].key, hits[i].rule)
  {
    OneRuleThrough(calls, limits, |calls|, i);
  }

  /**
   The bound on admissions holds of the application's own runs, whatever checks they mix: in every
   half-open stretch of one window length a bucket admits at most 2 * limit - 1 hits.
   */
  lemma {:induction false} CallsStayBounded(calls: seq<Call>, limits: (string, int) -> int, i: nat, from: real)
    requires AllConfigured(calls, limits) && i < |HitsOfCalls(calls, limits, |calls|)|
    requires var hits := HitsOfCalls(calls, limits, |calls|);
             ClockMonotone(hits) && WindowsUpTo(hits, SWEEP_STALE_AFTER) && hits[i].rule.limit >= 1 && hits[i].rule.window > 0
    ensures var hits := HitsOfCalls(calls, limits, |calls|);
            Admitted(hits, Decisions(map[], hits), hits[i].key, from, hits[i].rule.window as real) <= 2 * hits[i].rule.limit - 1
  {
    var hits := HitsOfCalls(calls, limits, |calls|);
    EveryBucketHasOneRule(calls, limits, i);
    StretchBound(hits, hits[i].key, hits[i].rule, from);
  }

  // ---------------------------------------------------------------- when a call fails

  /** The hit is beyond the first `limit` of the window it was counted in. */
  ghost predicate BeyondLimit(hits: seq<Attempt>, i: nat)
    requires i < |hits|
  {
    HitsInWindow(hits[..i + 1], hits[i].key, WindowOfLast(hits[..i + 1])) > hits[i].rule.limit
  }

  lemma {:induction false} DeniedIffBeyond(hits: seq<Attempt>, i: nat)
    requires ClockMonotone(hits) && WindowsUpTo(hits, SWEEP_STALE_AFTER) && i < |hits|
    requires OneRule(hits, hits[i].key, hits[i].rule) && hits[i].rule.window > 0
    ensures Decisions(map[], hits)[i].Denied? <==> BeyondLimit(hits, i)
  {
    AdmittedIffAmongFirst(hits, i, hits[i].rule);
  }

  /** The hits a run of n calls and one more adds to those of the n calls. */
  lemma {:induction false} LastCallHits(calls: seq<Call>, limits: (string, int) -> int, n: nat)
    returns (before: seq<Attempt>, mine: seq<Attempt>)
    requires AllConfigured(calls, limits) && n < |calls|
    ensures before == HitsOfCalls(calls, limits, n)
    ensures mine == CheckHits(calls[n].checks, calls[n].clock, |calls[n].checks|)
    ensures HitsOfCalls(calls, limits, n + 1) == before + mine
  {
    before := HitsOfCalls(calls, limits, n);
    mine := CheckHits(calls[n].checks, calls[n].clock, |calls[n].checks|);
  }

  /** Every place in a call's hits is that of some rule of some check. */
  lemma {:induction false} PlaceOfRule(checks: seq<Check>, n: nat, p: nat) returns (c: nat, k: nat)
    requires n <= |checks| && p < RulesBefore(checks, n)
    ensures c < n && k < |checks[c].rules| && p == RulesBefore(checks, c) + k
  {
    if p < RulesBefore(checks, n - 1) {
      c, k := PlaceOfRule(checks, n - 1, p);
    } else {
      c, k := n - 1, p - RulesBefore(checks, n - 1);
    }
  }

  /** Some rule of some check of the call was hit beyond its limit; `from` hits came before the call. */
  ghost predicate SomeRuleBeyond(hits: seq<Attempt>, from: nat, checks: seq<Check>)
    requires |hits| == from + RulesBefore(checks, |checks|)
  {
    exists c, k :: 0 <= c < |checks| && 0 <= k < |checks[c].rules| && RuleBeyond(hits, from, checks, c, k)
  }

  ghost predicate RuleBeyond(hits: seq<Attempt>, from: nat, checks: seq<Check>, c: nat, k: nat)
    requires |hits| == from + RulesBefore(checks, |checks|) && c < |checks| && k < |checks[c].rules|
  {
    RulesBeforeGrows(checks, c + 1, |checks|);
    BeyondLimit(hits, from + RulesBefore(checks, c) + k)
  }

  lemma {:induction false} SomeBeyondIff(hits: seq<Attempt>, from: nat, checks: seq<Check>)
    requires |hits| == from + RulesBefore(checks, |checks|)
    ensures SomeRuleBeyond(hits, from, checks) <==> exists i :: from <= i < |hits| && BeyondLimit(hits, i)
  {
    if i :| from <= i < |hits| && BeyondLimit(hits, i) {
      var c, k := PlaceOfRule(checks, |checks|, i - from);
      assert RuleBeyond(hits, from, checks, c, k);
    }
    if c, k :| 0 <= c < |checks| && 0 <= k < |checks[c].rules| && RuleBeyond(hits, from, checks, c, k) {
      RulesBeforeGrows(checks, c + 1, |checks|);
      assert BeyondLimit(hits, from + RulesBefore(checks, c) + k);
    }
  }

  /**
   After any run of calls, the next one fails exactly when some rule of some of its checks is hit beyond
   the first `limit` hits of its window, and carries the longest retry time among the hits denied.
   */
  lemma {:induction false} CallFailsIff(calls: seq<Call>, limits: (string, int) -> int, n: nat, retryAfter: Option<int>)
    requires AllConfigured(calls, limits) && n < |calls|
    requires var hits := HitsOfCalls(calls, limits, n + 1);
             && ClockMonotone(hits) && WindowsUpTo(hits, SWEEP_STALE_AFTER)
             && (forall i :: 0 <= i < |hits| ==> hits[i].rule.window > 0)
    requires IsWorst(Decisions(After(map[], HitsOfCalls(calls, limits, n)),
                               CheckHits(calls[n].checks, calls[n].clock, |calls[n].checks|)), retryAfter)
    ensures var hits, from := HitsOfCalls(calls, limits, n + 1), |HitsOfCalls(calls, limits, n)|;
            && |hits| == from + RulesBefore(calls[n].checks, |calls[n].checks|)
            && (retryAfter.Some? <==> SomeRuleBeyond(hits, from, calls[n].checks))
            && (retryAfter.Some? ==> exists i :: from <= i < |hits| && Decisions(map[], hits)[i] == Denied(retryAfter.value))
            && forall i :: from <= i < |hits| && Decisions(map[], hits)[i].Denied? ==>
                 retryAfter.Some? && Decisions(map[], hits)[i].retryAfter <= retryAfter.value
  {
    var before, mine := LastCallHits(calls, limits, n);
    var hits := HitsOfCalls(calls, limits, n + 1);
    CheckHitsLength(calls[n].checks, calls[n].clock, |calls[n].checks|);
    forall i | 0 <= i < |hits|
      ensures OneRule(hits, hits[i].key, hits[i].rule)
    {
      OneRuleThrough(calls, limits, n + 1, i);
    }
    LastHitsFailIff(before, mine, hits, calls[n].checks, retryAfter);
  }

  lemma {:induction false} LastHitsFailIff(before: seq<Attempt>, mine: seq<Attempt>, hits: seq<Attempt>, checks: seq<Check>,
                                           retryAfter: Option<int>)
    requires hits == before + mine && |mine| == RulesBefore(checks, |checks|)
    requires ClockMonotone(hits) && WindowsUpTo(hits, SWEEP_STALE_AFTER)
    requires forall i :: 0 <= i < |hits| ==> hits[i].rule.window > 0 && OneRule(hits, hits[i].key, hits[i].rule)
    requires IsWorst(Decisions(After(map[], before), mine), retryAfter)
    ensures retryAfter.Some? <==> SomeRuleBeyond(hits, |before|, checks)
    ensures retryAfter.Some? ==> exists i :: |before| <= i < |hits| && Decisions(map[], hits)[i] == Denied(retryAfter.value)
    ensures forall i :: |before| <= i < |hits| && Decisions(map[], hits)[i].Denied? ==>
              retryAfter.Some? && Decisions(map[], hits)[i].retryAfter <= retryAfter.value
  {
    var all := Decisions(map[], hits);
    WorstOfRun(before, mine, hits, all, retryAfter);
    DeniedFromIff(hits, all, |before|);
    SomeBeyondIff(hits, |before|, checks);
  }

  lemma {:induction false} WorstOfRun(before: seq<Attempt>, mine: seq<Attempt>, hits: seq<Attempt>, all: seq<Decision>,
                                      retryAfter: Option<int>)
    requires hits == before + mine && all == Decisions(map[], hits)
    requires IsWorst(Decisions(After(map[], before), mine), retryAfter)
    ensures retryAfter.Some? <==> exists i :: |before| <= i < |all| && all[i].Denied?
    ensures retryAfter.Some? ==> exists i :: |before| <= i < |all| && all[i] == Denied(retryAfter.value)
    ensures forall i :: |before| <= i < |all| && all[i].Denied? ==> retryAfter.Some? && all[i].retryAfter <= retryAfter.value
  {
    RunsCompose(map[], before, mine);
    WorstOfLast(Decisions(map[], before), Decisions(After(map[], before), mine), all, retryAfter);
  }

  lemma {:induction false} DeniedFromIff(hits: seq<Attempt>, all: seq<Decision>, from: nat)
    requires all == Decisions(map[], hits) && ClockMonotone(hits) && WindowsUpTo(hits, SWEEP_STALE_AFTER)
    requires forall i :: 0 <= i < |hits| ==> hits[i].rule.window > 0 && OneRule(hits, hits[i].key, hits[i].rule)
    ensures (exists i :: from <= i < |all| && all[i].Denied?) <==> (exists i :: from <= i < |hits| && BeyondLimit(hits, i))
  {
    forall i | 0 <= i < |hits|
      ensures all[i].Denied? <==> BeyondLimit(hits, i)
    {
      DeniedIffBeyond(hits, i);
    }
  }

  lemma {:induction false} WorstOfLast(earlier: seq<Decision>, last: seq<Decision>, all: seq<Decision>, retryAfter: Option<int>)
    requires all == earlier + last && IsWorst(last, retryAfter)
    ensures retryAfter.Some? <==> exists i :: |earlier| <= i < |all| && all[i].Denied?
    ensures retryAfter.Some? ==> exists i :: |earlier| <= i < |all| && all[i] == Denied(retryAfter.value)
    ensures forall i :: |earlier| <= i < |all| && all[i].Denied? ==> retryAfter.Some? && all[i].retryAfter <= retryAfter.value
  {
    forall i | |earlier| <= i < |all|
      ensures all[i] == last[i - |earlier|]
    {
    }
    if retryAfter.Some? {
      var j :| 0 <= j < |last| && last[j] == Denied(retryAfter.value);
      assert all[|earlier| + j] == last[j];
    }
  }
}
