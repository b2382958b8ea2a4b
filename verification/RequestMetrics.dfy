/**
 In-process request counters over a rolling window. The lock makes every call atomic; the clock
 reading of each call is a parameter and never runs backwards.
 */
module RequestMetrics {
  import opened Wrappers
  import opened Rounding
  import opened RealArithmetic

  const WINDOW_SECONDS := 900.0

  datatype Sample = Sample(time: real, durationMs: real, isError: bool)

  datatype Snapshot = Snapshot(sampleCount: nat, averageLatencyMs: Option<real>, errorRatePercent: Option<real>)

  // ---------------------------------------------------------------- what a snapshot should say

  /** The samples no older than the window at a moment. */
  function Recent(samples: seq<Sample>, now: real): seq<Sample> {
    if samples == [] then []
    else
      var last := |samples| - 1;
      Recent(samples[..last], now) + if samples[last].time >= now - WINDOW_SECONDS then [samples[last]] else []
  }

  function DurationSum(samples: seq<Sample>): real {
    if samples == [] then 0.0 else DurationSum(samples[..|samples| - 1]) + samples[|samples| - 1].durationMs
  }

  function ErrorCount(samples: seq<Sample>): nat {
    if samples == [] then 0
    else ErrorCount(samples[..|samples| - 1]) + if samples[|samples| - 1].isError then 1 else 0
  }

  /** `round(x, 2)` */
  function RoundTwo(x: real): real {
    QuantizeMoney(x)
  }

  /** Count, mean latency and error share of a set of samples, rounded to two decimals. */
  function Summary(samples: seq<Sample>): Snapshot {
    if samples == [] then Snapshot(0, None, None)
    else
      var total := |samples| as real;
      Snapshot(|samples|, Some(RoundTwo(DurationSum(samples) / total)),
               Some(RoundTwo(ErrorCount(samples) as real / total * 100.0)))
  }

  predicate Chronological(samples: seq<Sample>) {
    forall i, j :: 0 <= i < j < |samples| ==> samples[i].time <= samples[j].time
  }

  // ---------------------------------------------------------------- eviction from the old end

  /** What is left after popping stale samples from the front. */
  function DropStale(samples: seq<Sample>, now: real): seq<Sample> {
    if samples != [] && samples[0].time < now - WINDOW_SECONDS then DropStale(samples[1..], now) else samples
  }

  lemma {:induction false} RecentConcat(a: seq<Sample>, b: seq<Sample>, now: real)
    ensures Recent(a + b, now) == Recent(a, now) + Recent(b, now)
  {
    if b == [] {
      assert a + b == a;
    } else {
      assert (a + b)[..|a + b| - 1] == a + b[..|b| - 1];
      RecentConcat(a, b[..|b| - 1], now);
    }
  }

  lemma {:induction false} RecentKeepsAll(samples: seq<Sample>, now: real)
    requires forall i :: 0 <= i < |samples| ==> samples[i].time >= now - WINDOW_SECONDS
    ensures Recent(samples, now) == samples
  {
    if samples != [] {
      RecentKeepsAll(samples[..|samples| - 1], now);
    }
  }

  /** On a chronological deque, popping from the front is filtering the whole deque. */
  lemma {:induction false} DropStaleIsRecent(samples: seq<Sample>, now: real)
    requires Chronological(samples)
    ensures DropStale(samples, now) == Recent(samples, now)
  {
    if samples != [] && samples[0].time < now - WINDOW_SECONDS {
      DropStaleIsRecent(samples[1..], now);
      assert samples == [samples[0]] + samples[1..];
      RecentConcat([samples[0]], samples[1..], now);
      assert [samples[0]][..0] == [];
    } else {
      RecentKeepsAll(samples, now);
    }
  }

  /** What was stale earlier is stale later: filtering twice is filtering once at the later moment. */
  lemma {:induction false} RecentTwice(samples: seq<Sample>, earlier: real, later: real)
    requires earlier <= later
    ensures Recent(Recent(samples, earlier), later) == Recent(samples, later)
  {
    if samples != [] {
      var last := |samples| - 1;
      RecentTwice(samples[..last], earlier, later);
      var kept := Recent(samples[..last], earlier);
      assert (kept + [samples[last]])[..|kept|] == kept;
      assert kept + [] == kept;
    }
  }

  lemma {:induction false} RecentIsChronological(samples: seq<Sample>, now: real)
    requires Chronological(samples)
    ensures Chronological(Recent(samples, now))
    ensures forall i :: 0 <= i < |Recent(samples, now)| ==> Recent(samples, now)[i].time >= now - WINDOW_SECONDS
    ensures samples != [] ==> forall i :: 0 <= i < |Recent(samples, now)| ==>
              Recent(samples, now)[i].time <= samples[|samples| - 1].time
  {
    if samples != [] {
      RecentIsChronological(samples[..|samples| - 1], now);
    }
  }

  /** Evicting a deque that was up to date earlier brings it up to date. */
  lemma {:induction false} EvictionCatchesUp(history: seq<Sample>, earlier: real, now: real)
    requires Chronological(history) && earlier <= now
    ensures DropStale(Recent(history, earlier), now) == Recent(history, now)
  {
    RecentIsChronological(history, earlier);
    DropStaleIsRecent(Recent(history, earlier), now);
    RecentTwice(history, earlier, now);
  }

  /** Appending a sample taken now and evicting is the same as filtering the longer history. */
  lemma {:induction false} RecordingCatchesUp(history: seq<Sample>, sample: Sample, earlier: real)
    requires Chronological(history + [sample]) && earlier <= sample.time
    ensures DropStale(Recent(history, earlier) + [sample], sample.time) == Recent(history + [sample], sample.time)
  {
    RecentConcat(history, [sample], earlier);
    RecentKeepsAll([sample], earlier);
    EvictionCatchesUp(history + [sample], earlier, sample.time);
  }

  // ---------------------------------------------------------------- what a snapshot tells

  /** A sample is kept, as often as it was taken, exactly if it is no older than 900 seconds. */
  lemma {:induction false} RecentIff(samples: seq<Sample>, now: real, s: Sample)
    ensures multiset(Recent(samples, now))[s] == if s.time >= now - 900.0 then multiset(samples)[s] else 0
  {
    if samples != [] {
      var front, last := samples[..|samples| - 1], samples[|samples| - 1];
      RecentIff(front, now, s);
      assert samples == front + [last];
    }
  }

  /** Both sums count every sample once. */
  lemma {:induction false} SumsJoin(a: seq<Sample>, b: seq<Sample>)
    ensures DurationSum(a + b) == DurationSum(a) + DurationSum(b) && ErrorCount(a + b) == ErrorCount(a) + ErrorCount(b)
  {
    if b == [] {
      assert a + b == a;
    } else {
      assert (a + b)[..|a + b| - 1] == a + b[..|b| - 1];
      SumsJoin(a, b[..|b| - 1]);
    }
  }

  lemma {:induction false} SumsOfOne(s: Sample)
    ensures DurationSum([s]) == s.durationMs && ErrorCount([s]) == if s.isError then 1 else 0
  {
    assert [s][..0] == [];
  }

  /** Without samples there is nothing to report; otherwise the mean and the share of errors are, to two decimals. */
  lemma {:induction false} SummaryIs(samples: seq<Sample>)
    ensures Summary(samples).sampleCount == |samples|
    ensures samples == [] ==> Summary(samples).averageLatencyMs.None? && Summary(samples).errorRatePercent.None?
    ensures samples != [] ==>
              && Summary(samples).averageLatencyMs == Some(QuantizeMoney(DurationSum(samples) / |samples| as real))
              && Summary(samples).errorRatePercent == Some(QuantizeMoney(ErrorCount(samples) as real / |samples| as real * 100.0))
  {
  }

  lemma {:induction false} DurationSumWithin(samples: seq<Sample>, lo: real, hi: real)
    requires forall i :: 0 <= i < |samples| ==> lo <= samples[i].durationMs <= hi
    ensures |samples| as real * lo <= DurationSum(samples) <= |samples| as real * hi
  {
    if samples != [] {
      DurationSumWithin(samples[..|samples| - 1], lo, hi);
    }
  }

  lemma {:induction false} ErrorCountWithin(samples: seq<Sample>)
    ensures ErrorCount(samples) <= |samples|
    ensures ErrorCount(samples) == 0 <==> forall i :: 0 <= i < |samples| ==> !samples[i].isError
    ensures ErrorCount(samples) == |samples| <==> forall i :: 0 <= i < |samples| ==> samples[i].isError
  {
    if samples != [] {
      ErrorCountWithin(samples[..|samples| - 1]);
    }
  }

  lemma {:induction false} QuotientWithin(n: real, sum: real, mean: real, lo: real, hi: real)
    requires n > 0.0 && mean == sum / n && n * lo <= sum <= n * hi
    ensures lo <= mean <= hi
  {
    assert n * mean == sum;
    OrderOfProducts(n, lo, mean);
    OrderOfProducts(n, mean, hi);
  }

  /** The reported mean lies between the shortest and the longest request, all three to two decimals. */
  lemma {:induction false} MeanWithin(samples: seq<Sample>, lo: real, hi: real)
    requires samples != [] && forall i :: 0 <= i < |samples| ==> lo <= samples[i].durationMs <= hi
    ensures Summary(samples).averageLatencyMs.Some?
    ensures QuantizeMoney(lo) <= Summary(samples).averageLatencyMs.value <= QuantizeMoney(hi)
  {
    var n, sum := |samples| as real, DurationSum(samples);
    DurationSumWithin(samples, lo, hi);
    QuotientWithin(n, sum, sum / n, lo, hi);
    SummaryIs(samples);
    QuantizeMoneyMonotone(lo, sum / n);
    QuantizeMoneyMonotone(sum / n, hi);
  }

  lemma {:induction false} ShareOfErrors(n: real, errors: real, share: real)
    requires n > 0.0 && 0.0 <= errors <= n && share == errors / n * 100.0
    ensures 0.0 <= share <= 100.0 && (errors == 0.0 ==> share == 0.0) && (errors == n ==> share == 100.0)
  {
    QuotientWithin(n, errors, errors / n, 0.0, 1.0);
  }

  lemma {:induction false} WholePercents()
    ensures QuantizeMoney(0.0) == 0.0 && QuantizeMoney(100.0) == 100.0
  {
    RoundWhole(0);
    RoundWhole(10000);
  }

  /** The reported share of errors lies between 0 and 100; it is 0 if there are none, and 100 if all are. */
  lemma {:induction false} ErrorShareWithin(samples: seq<Sample>)
    requires samples != []
    ensures var share := Summary(samples).errorRatePercent;
            && share.Some? && 0.0 <= share.value <= 100.0
            && ((forall i :: 0 <= i < |samples| ==> !samples[i].isError) ==> share.value == 0.0)
            && ((forall i :: 0 <= i < |samples| ==> samples[i].isError) ==> share.value == 100.0)
  {
    var n, errors := |samples| as real, ErrorCount(samples) as real;
    ErrorCountWithin(samples);
    ShareOfErrors(n, errors, errors / n * 100.0);
    SummaryIs(samples);
    WholePercents();
    QuantizeMoneyMonotone(0.0, errors / n * 100.0);
    QuantizeMoneyMonotone(errors / n * 100.0, 100.0);
  }

  // ---------------------------------------------------------------- whole runs

  /** A call of record or of snapshot, with the clock reading it makes. */
  datatype Call = Record(sample: Sample) | Look(now: real)

  function TimeOf(call: Call): real {
    match call
    case Record(sample) => sample.time
    case Look(now) => now
  }

  /** The deque after a run of calls. */
  function Deque(calls: seq<Call>): seq<Sample> {
    if calls == [] then []
    else
      var before := Deque(calls[..|calls| - 1]);
      match calls[|calls| - 1]
      case Record(sample) => DropStale(before + [sample], sample.time)
      case Look(now) => DropStale(before, now)
  }

  /** Every sample the run ever recorded. */
  function Recorded(calls: seq<Call>): seq<Sample> {
    if calls == [] then []
    else
      Recorded(calls[..|calls| - 1])
      + match calls[|calls| - 1] case Record(sample) => [sample] case Look(_) => []
  }

  predicate ClockMonotone(calls: seq<Call>) {
    forall i, j :: 0 <= i < j < |calls| ==> TimeOf(calls[i]) <= TimeOf(calls[j])
  }

  lemma {:induction false} RecordedIsChronological(calls: seq<Call>)
    requires ClockMonotone(calls)
    ensures Chronological(Recorded(calls))
    ensures forall i :: 0 <= i < |Recorded(calls)| ==> Recorded(calls)[i].time <= TimeOf(calls[|calls| - 1])
  {
    if calls != [] {
      RecordedIsChronological(calls[..|calls| - 1]);
    }
  }

  /** However calls were interleaved, the deque holds exactly the last 900 seconds of all that was recorded. */
  lemma {:induction false} DequeAgreesWithHistory(calls: seq<Call>)
    requires calls != [] && ClockMonotone(calls)
    ensures Deque(calls) == Recent(Recorded(calls), TimeOf(calls[|calls| - 1]))
    ensures Chronological(Deque(calls))
  {
    var last := |calls| - 1;
    var init, call := calls[..last], calls[last];
    RecordedIsChronological(calls);
    RecordedIsChronological(init);
    var earlier := if init == [] then TimeOf(call) else TimeOf(init[last - 1]);
    if init != [] {
      DequeAgreesWithHistory(init);
    }
    match call {
      case Record(sample) => RecordingCatchesUp(Recorded(init), sample, earlier);
      case Look(now) =>
        EvictionCatchesUp(Recorded(init), earlier, now);
        assert Recorded(init) + [] == Recorded(init);
    }
    RecentIsChronological(Recorded(calls), TimeOf(call));
  }

  // ---------------------------------------------------------------- the object

  class InMemoryRequestMetrics {
    var samples: seq<Sample>
    /** Everything ever recorded, and the latest clock reading. */
    ghost var history: seq<Sample>
    ghost var clock: real

    /** The deque is exactly what the window at the latest reading keeps of the full history. */
    ghost predicate Valid()
      reads this
    {
      && Chronological(history)
      && (forall i :: 0 <= i < |history| ==> history[i].time <= clock)
      && samples == Recent(history, clock)
    }

    constructor (now: real)
      ensures Valid() && history == [] && clock == now
    {
      samples, history, clock := [], [], now;
    }

    method RecordRequest(now: real, durationMs: real, isError: bool)
      requires Valid() && clock <= now
      modifies this
      ensures Valid() && clock == now
      ensures history == old(history) + [Sample(now, durationMs, isError)]
    {
      RecordingCatchesUp(history, Sample(now, durationMs, isError), clock);
      history, clock := history + [Sample(now, durationMs, isError)], now;
      samples := samples + [Sample(now, durationMs, isError)];
      EvictStale(now);
    }

    method TakeSnapshot(now: real) returns (s: Snapshot)
      requires Valid() && clock <= now
      modifies this
      ensures Valid() && clock == now && history == old(history)
      ensures s == Summary(Recent(history, now))
    {
      EvictionCatchesUp(history, clock, now);
      EvictStale(now);
      clock := now;
      s := Summarize(samples);
    }

    method EvictStale(now: real)
      modifies this`samples
      ensures samples == DropStale(old(samples), now)
    {
      var cutoff := now - WINDOW_SECONDS;
      while samples != [] && samples[0].time < cutoff
        invariant DropStale(samples, now) == DropStale(old(samples), now)
        decreases |samples|
      {
        samples := samples[1..];
      }
    }
  }

  method Summarize(samples: seq<Sample>) returns (s: Snapshot)
    ensures s == Summary(samples)
  {
    if samples == [] {
      return Snapshot(0, None, None);
    }
    var total := |samples| as real;
    var durations, errors := 0.0, 0;
    for n := 0 to |samples|
      invariant durations == DurationSum(samples[..n]) && errors == ErrorCount(samples[..n])
    {
      assert samples[..n + 1][..n] == samples[..n];
      durations := durations + samples[n].durationMs;
      if samples[n].isError {
        errors := errors + 1;
      }
    }
    assert samples[..|samples|] == samples;
    s := Snapshot(|samples|, Some(RoundTwo(durations / total)), Some(RoundTwo(errors as real / total * 100.0)));
  }
}
