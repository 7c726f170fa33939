/** The rolling p95 latency gate: which samples it keeps, and when it silences the advisor. */
module LatencyWindow {
  import opened Prelude

  datatype Sample = Sample(latencyMs: real, at: int)

  datatype Limits = Limits(budgetMs: real, windowSize: nat, minSamples: nat, minSlowSamples: nat, sampleMaxAgeMs: int)

  const HALF_HOUR := 1_800_000

  function Defaults(budgetMs: real): Limits {
    Limits(budgetMs, 20, 5, 3, HALF_HOUR)
  }

  datatype Decision = Decision(skip: bool, p95Ms: Option<real>, slowCount: nat, windowSize: nat)

  // ---- Eviction ----

  predicate Stale(s: Sample, lim: Limits, now: int) {
    s.at < now - lim.sampleMaxAgeMs
  }

  /** Drops the oldest sample while it is stale or the window is too long. */
  function Evict(samples: seq<Sample>, lim: Limits, now: int): seq<Sample> {
    if samples != [] && (Stale(samples[0], lim, now) || |samples| > lim.windowSize) then Evict(samples[1..], lim, now)
    else samples
  }

  ghost predicate Nondecreasing(samples: seq<Sample>) {
    forall i, j :: 0 <= i < j < |samples| ==> samples[i].at <= samples[j].at
  }

  ghost predicate FreshAndShort(samples: seq<Sample>, lim: Limits, now: int) {
    |samples| <= lim.windowSize && forall s :: s in samples ==> now - s.at <= lim.sampleMaxAgeMs
  }

  /** With nondecreasing times, eviction keeps the longest suffix that is fresh and within the window. */
  lemma {:induction false} EvictKeepsLongestSuffix(samples: seq<Sample>, lim: Limits, now: int)
    requires Nondecreasing(samples)
    ensures var r := Evict(samples, lim, now);
      && |r| <= |samples| && r == samples[|samples| - |r|..] && FreshAndShort(r, lim, now)
      && forall k :: 0 <= k < |samples| - |r| ==> !FreshAndShort(samples[k..], lim, now)
  {
    if samples != [] && (Stale(samples[0], lim, now) || |samples| > lim.windowSize) {
      var tail := samples[1..];
      EvictKeepsLongestSuffix(tail, lim, now);
      var r := Evict(tail, lim, now);
      forall k | 0 <= k < |samples| - |r|
        ensures !FreshAndShort(samples[k..], lim, now)
      {
        if k == 0 {
          assert samples[0..][0] == samples[0];
        } else {
          assert samples[k..] == tail[k - 1..];
        }
      }
    } else if samples != [] {
      forall s | s in samples
        ensures !Stale(s, lim, now)
      {
        var i :| 0 <= i < |samples| && samples[i] == s;
      }
    }
  }

  /** What an earlier eviction dropped, a later one would have dropped as well. */
  lemma {:induction false} EvictLater(samples: seq<Sample>, more: seq<Sample>, lim: Limits, earlier: int, later: int)
    requires earlier <= later
    ensures Evict(Evict(samples, lim, earlier) + more, lim, later) == Evict(samples + more, lim, later)
  {
    if samples == [] || (!Stale(samples[0], lim, earlier) && |samples| <= lim.windowSize) {
    } else {
      EvictLater(samples[1..], more, lim, earlier, later);
      assert (samples + more)[1..] == samples[1..] + more;
    }
  }

  // ---- Order statistics ----

  function Insert(x: real, sorted: seq<real>): seq<real> {
    if sorted == [] || x <= sorted[0] then [x] + sorted else [sorted[0]] + Insert(x, sorted[1..])
  }

  function Sort(xs: seq<real>): seq<real> {
    if xs == [] then [] else Insert(xs[0], Sort(xs[1..]))
  }

  predicate Sorted(xs: seq<real>) {
    forall i, j :: 0 <= i < j < |xs| ==> xs[i] <= xs[j]
  }

  function CountSlow(xs: seq<real>, threshold: real): nat {
    if xs == [] then 0 else (if xs[0] >= threshold then 1 else 0) + CountSlow(xs[1..], threshold)
  }

  lemma {:induction false} InsertSorts(x: real, xs: seq<real>, threshold: real)
    requires Sorted(xs)
    ensures Sorted(Insert(x, xs)) && |Insert(x, xs)| == |xs| + 1
    ensures forall y :: y in Insert(x, xs) <==> y == x || y in xs
    ensures CountSlow(Insert(x, xs), threshold) == CountSlow([x], threshold) + CountSlow(xs, threshold)
  {
    if xs == [] {
      assert [x] + xs == [x];
    } else if x <= xs[0] {
      assert ([x] + xs)[1..] == xs;
    } else {
      InsertSorts(x, xs[1..], threshold);
      var rest := Insert(x, xs[1..]);
      assert ([xs[0]] + rest)[1..] == rest;
      forall j | 0 <= j < |rest|
        ensures xs[0] <= rest[j]
      {
        if rest[j] != x { assert rest[j] in xs[1..]; }
      }
    }
  }

  lemma {:induction false} SortSorts(xs: seq<real>, threshold: real)
    ensures Sorted(Sort(xs)) && |Sort(xs)| == |xs| && CountSlow(Sort(xs), threshold) == CountSlow(xs, threshold)
  {
    if xs == [] {
    } else {
      SortSorts(xs[1..], threshold);
      InsertSorts(xs[0], Sort(xs[1..]), threshold);
    }
  }

  lemma {:induction false} AllSlow(xs: seq<real>, threshold: real)
    requires Sorted(xs) && xs != []
    ensures CountSlow(xs, threshold) <= |xs|
    ensures CountSlow(xs, threshold) == |xs| <==> xs[0] >= threshold
  {
    if |xs| == 1 {
    } else {
      AllSlow(xs[1..], threshold);
    }
  }

  /** In a sorted list the slow values are the last ones. */
  lemma {:induction false} SlowAreLast(xs: seq<real>, threshold: real, i: nat)
    requires Sorted(xs) && i < |xs|
    ensures xs[i] >= threshold <==> CountSlow(xs, threshold) >= |xs| - i
  {
    if i == 0 {
      AllSlow(xs, threshold);
    } else {
      SlowAreLast(xs[1..], threshold, i - 1);
      AllSlow(xs, threshold);
    }
  }

  /** The nearest-rank index of the 95th percentile of n values. */
  function RankIndex(n: nat): int {
    var i := (19 * n + 19) / 20 - 1;
    var top := if i <= n - 1 then i else n - 1;
    if top < 0 then 0 else top
  }

  function Latencies(samples: seq<Sample>): seq<real> {
    if samples == [] then [] else [samples[0].latencyMs] + Latencies(samples[1..])
  }

  lemma {:induction false} LatenciesLength(samples: seq<Sample>)
    ensures |Latencies(samples)| == |samples|
  {
    if samples == [] {
    } else {
      LatenciesLength(samples[1..]);
    }
  }

  function Threshold(lim: Limits): real {
    lim.budgetMs * 0.95
  }

  /** The decision over a window that has already been evicted. */
  function Decide(samples: seq<Sample>, lim: Limits): Decision {
    var sorted := Sort(Latencies(samples));
    var p95 :=
      if sorted == [] then None
      else if RankIndex(|sorted|) < |sorted| then Some(sorted[RankIndex(|sorted|)])
      else None;
    var slow := CountSlow(Latencies(samples), Threshold(lim));
    Decision(|samples| >= lim.minSamples && slow >= lim.minSlowSamples && p95.Some? && p95.value >= Threshold(lim),
             p95, slow, |samples|)
  }

  /** The p95 reaches the threshold exactly when more than a twentieth of the samples do. */
  lemma NearestRank(xs: seq<real>, threshold: real)
    requires xs != []
    ensures |Sort(xs)| == |xs| && 0 <= RankIndex(|xs|) < |xs|
    ensures Sort(xs)[RankIndex(|xs|)] >= threshold <==> CountSlow(xs, threshold) >= |xs| / 20 + 1
  {
    SortSorts(xs, threshold);
    SlowAreLast(Sort(xs), threshold, RankIndex(|xs|));
  }

  /** The gate in terms of counts alone, for every setting. */
  lemma SkipByCounts(samples: seq<Sample>, lim: Limits, threshold: real)
    requires threshold == lim.budgetMs * 0.95
    ensures Decide(samples, lim).skip <==>
              && samples != [] && |samples| >= lim.minSamples
              && CountSlow(Latencies(samples), threshold) >= lim.minSlowSamples
              && CountSlow(Latencies(samples), threshold) >= |samples| / 20 + 1
    ensures samples != [] ==> Decide(samples, lim).p95Ms.Some?
  {
    LatenciesLength(samples);
    if samples != [] { NearestRank(Latencies(samples), threshold); }
  }

  // ---- The window over its whole history ----

  class Window {
    var samples: seq<Sample>
    const lim: Limits
    ghost var history: seq<Sample>
    ghost var lastNow: int

    /** The window is what one eviction of the whole history at the latest time would leave. */
    ghost predicate Valid()
      reads this
    {
      samples == Evict(history, lim, lastNow)
    }

    constructor (lim: Limits)
      ensures Valid() && history == [] && this.lim == lim
    {
      samples, this.lim, history, lastNow := [], lim, [], 0;
    }

    method EvictNow(now: int)
      modifies `samples
      ensures samples == Evict(old(samples), lim, now)
    {
      while |samples| > 0
        invariant Evict(samples, lim, now) == Evict(old(samples), lim, now)
        decreases |samples|
      {
        var oldest := samples[0];
        if oldest.at < now - lim.sampleMaxAgeMs || |samples| > lim.windowSize {
          samples := samples[1..];
        } else {
          break;
        }
      }
    }

    /** With a clock that does not run backwards, recording keeps the history-indexed window. */
    method Record(latencyMs: real, now: int)
      modifies this
      ensures samples == Evict(old(samples) + [Sample(latencyMs, now)], lim, now)
      ensures history == old(history) + [Sample(latencyMs, now)] && lastNow == now
      ensures old(Valid() && (history == [] || lastNow <= now)) ==> Valid()
    {
      ghost var added := [Sample(latencyMs, now)];
      if history == [] {
        assert [] + added == added;
      } else if Valid() && lastNow <= now {
        EvictLater(history, added, lim, lastNow, now);
      }
      samples := samples + [Sample(latencyMs, now)];
      EvictNow(now);
      history := history + added;
      lastNow := now;
    }

    /** The decision over the samples as they stand. */
    method Judge() returns (d: Decision)
      ensures d == Decide(samples, lim)
    {
      var sorted := Sort(Latencies(samples));
      SortSorts(Latencies(samples), 0.0);
      LatenciesLength(samples);
      var p95: Option<real> := None;
      if |sorted| > 0 {
        NearestRank(Latencies(samples), 0.0);
        p95 := Some(sorted[RankIndex(|sorted|)]);
      }
      var threshold := lim.budgetMs * 0.95;
      var slowCount := CountSlow(Latencies(samples), threshold);
      d := Decision(|samples| >= lim.minSamples && slowCount >= lim.minSlowSamples
                    && p95.Some? && p95.value >= threshold,
                    p95, slowCount, |samples|);
    }

    method ShouldSkip(now: int) returns (d: Decision)
      modifies `samples, `lastNow
      ensures samples == Evict(old(samples), lim, now) && lastNow == now
      ensures d == Decide(samples, lim)
      ensures old(Valid() && (history == [] || lastNow <= now)) ==>
                Valid() && d == Decide(Evict(history, lim, now), lim)
    {
      if history != [] && Valid() && lastNow <= now { EvictLater(history, [], lim, lastNow, now); }
      assert samples + [] == samples && history + [] == history;
      EvictNow(now);
      lastNow := now;
      d := Judge();
    }
  }

  lemma {:induction false} EvictIsShort(samples: seq<Sample>, lim: Limits, now: int)
    ensures |Evict(samples, lim, now)| <= lim.windowSize
  {
    if samples == [] || (!Stale(samples[0], lim, now) && |samples| <= lim.windowSize) {
    } else {
      EvictIsShort(samples[1..], lim, now);
    }
  }

  /** With the default sizes the percentile never decides: five samples of which three are slow do. */
  lemma DefaultGate(history: seq<Sample>, budgetMs: real, threshold: real, now: int)
    requires threshold == budgetMs * 0.95
    ensures var lim := Defaults(budgetMs); var w := Evict(history, lim, now);
      Decide(w, lim).skip <==> |w| >= 5 && CountSlow(Latencies(w), threshold) >= 3
  {
    var lim := Defaults(budgetMs);
    var w := Evict(history, lim, now);
    EvictIsShort(history, lim, now);
    SkipByCounts(w, lim, threshold);
  }

  /** The gate cannot latch: with no new sample it is off once the last one has aged out. */
  lemma {:induction false} GateUnlatches(history: seq<Sample>, lim: Limits, last: int, now: int)
    requires forall s :: s in history ==> s.at <= last
    requires now > last + lim.sampleMaxAgeMs
    ensures Evict(history, lim, now) == [] && !Decide(Evict(history, lim, now), lim).skip
  {
    if history == [] {
    } else {
      assert Stale(history[0], lim, now);
      GateUnlatches(history[1..], lim, last, now);
    }
  }
}
