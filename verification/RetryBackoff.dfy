/** Retrying an effect with exponential backoff, as attempts numbered from zero. */
module RetryBackoff {
  import opened Prelude

  /** A failure with the tests the retry loop and the endpoint pool apply to it. */
  datatype Failure = Failure(retriable: bool, rateLimited: bool, network: bool, retryAfterMs: Option<int>)

  datatype Outcome = Ok(reply: int) | Err(failure: Failure)

  datatype Options = Options(maxRetries: int, baseDelayMs: nat, maxDelayMs: nat, rateLimitBaseDelayMs: nat)

  type Draw = x: real | 0.0 <= x < 1.0

  /** What each attempt meets: how it ends, and the random draw in [0, 1) for its jitter. */
  datatype Attempt = Attempt(outcome: Outcome, random: Draw)

  datatype Trace = Trace(outcome: Outcome, delays: seq<int>)

  function Exponential(o: Options, f: Failure, attempt: nat): nat {
    Min(o.maxDelayMs, (if f.rateLimited then o.rateLimitBaseDelayMs else o.baseDelayMs) * Pow2(attempt))
  }

  function Jitter(n: nat, random: Draw): real {
    random * n as real * 0.5
  }

  function Jittered(n: nat, random: Draw): int {
    (n as real + Jitter(n, random)).Floor
  }

  function Delay(o: Options, f: Failure, attempt: nat, random: Draw): int {
    Max(Jittered(Exponential(o, f, attempt), random), GetOr(f.retryAfterMs, 0))
  }

  predicate GivesUp(o: Options, attempt: nat, f: Failure) {
    attempt >= o.maxRetries || !f.retriable
  }

  /** The recursion from one attempt number on. */
  function From(world: nat -> Attempt, o: Options, attempt: nat): Trace
    decreases Max(0, o.maxRetries - attempt)
  {
    match world(attempt).outcome
    case Ok(_) => Trace(world(attempt).outcome, [])
    case Err(f) =>
      if GivesUp(o, attempt, f) then Trace(world(attempt).outcome, [])
      else
        var rest := From(world, o, attempt + 1);
        rest.(delays := [Delay(o, f, attempt, world(attempt).random)] + rest.delays)
  }

  function Retry(world: nat -> Attempt, o: Options): Trace {
    From(world, o, 0)
  }

  /** Attempts from..k-1 failed and were retried; attempt k ended the call. */
  ghost predicate EndsAt(world: nat -> Attempt, o: Options, from: nat, k: nat) {
    && from <= k
    && (forall i: nat :: from <= i < k ==> world(i).outcome.Err? && !GivesUp(o, i, world(i).outcome.failure))
    && (world(k).outcome.Err? ==> GivesUp(o, k, world(k).outcome.failure))
  }

  /**
   * The call ends at the first attempt that succeeds, fails for good, or is the last
   * one allowed; the result is that attempt's, and it waited once before each retry.
   */
  lemma {:induction false} RetryEndsExactly(world: nat -> Attempt, o: Options, from: nat, k: nat)
    ensures EndsAt(world, o, from, k) <==> k == from + |From(world, o, from).delays|
    ensures From(world, o, from).outcome == world(from + |From(world, o, from).delays|).outcome
    decreases Max(0, o.maxRetries - from)
  {
    var out := world(from).outcome;
    if out.Err? && !GivesUp(o, from, out.failure) {
      RetryEndsExactly(world, o, from + 1, k);
      assert EndsAt(world, o, from, k) ==> k != from;
      assert EndsAt(world, o, from, k) <==> EndsAt(world, o, from + 1, k);
    } else if EndsAt(world, o, from, k) && k > from {
      assert !(world(from).outcome.Err? && !GivesUp(o, from, world(from).outcome.failure));
    }
  }

  /** Never more than maxRetries retries, and a failure is final or out of retries. */
  lemma AttemptsAreBounded(world: nat -> Attempt, o: Options)
    ensures |Retry(world, o).delays| <= Max(0, o.maxRetries)
    ensures Retry(world, o).outcome.Err? ==>
        || !Retry(world, o).outcome.failure.retriable
        || |Retry(world, o).delays| == Max(0, o.maxRetries)
  {
    var k := |Retry(world, o).delays|;
    RetryEndsExactly(world, o, 0, k);
    if k > 0 {
      assert world(k - 1).outcome.Err? && !GivesUp(o, k - 1, world(k - 1).outcome.failure);
    }
  }

  lemma ScaleDown(random: Draw, x: real)
    requires 0.0 <= x
    ensures 0.0 <= random * x <= x
  {
    assert 0.0 <= (1.0 - random) * x;
  }

  /** Half of at most n, added to n and rounded down, stays between n and half as much again. */
  lemma FloorBounds(n: nat, p: real)
    requires 0.0 <= p <= n as real
    ensures var j := (n as real + p * 0.5).Floor; n <= j && 2 * j <= 3 * n
  {
    var j := (n as real + p * 0.5).Floor;
    assert j as real <= n as real + p * 0.5;
    assert (2 * j) as real <= (3 * n) as real;
  }

  /** Rounding a draw of jitter keeps the wait between the base wait and half as much again. */
  lemma JitterBounds(n: nat, random: Draw)
    ensures n <= Jittered(n, random) && 2 * Jittered(n, random) <= 3 * n
  {
    ScaleDown(random, n as real);
    FloorBounds(n, random * n as real);
  }

  /** Each wait is at least the exponential delay and the server's retry-after, and jitter adds under half. */
  lemma DelayBounds(o: Options, f: Failure, attempt: nat, random: Draw)
    ensures var d, e := Delay(o, f, attempt, random), Exponential(o, f, attempt);
      && e <= d && GetOr(f.retryAfterMs, 0) <= d
      && (2 * d <= 3 * e || d == GetOr(f.retryAfterMs, 0))
      && e <= o.maxDelayMs
  {
    JitterBounds(Exponential(o, f, attempt), random);
  }

  /** The wait is the base wait and half the drawn part of it, rounded down. */
  predicate IsJittered(d: int, base: int, random: Draw) {
    var exact := base as real + random * base as real / 2.0;
    d as real <= exact < d as real + 1.0
  }

  lemma JitteredIs(n: nat, random: Draw)
    ensures IsJittered(Jittered(n, random), n, random)
  {
    var p := random * n as real;
    assert p * 0.5 == p / 2.0;
  }

  /** The same bounds with the exponential delay spelled out. */
  lemma JitteredDelay(o: Options, f: Failure, attempt: nat, random: Draw)
    ensures var d := Delay(o, f, attempt, random);
      var wait := (if f.rateLimited then o.rateLimitBaseDelayMs else o.baseDelayMs) * Pow2(attempt);
      && (wait <= d || o.maxDelayMs <= d)
      && (f.retryAfterMs.Some? ==> f.retryAfterMs.value <= d)
      && (f.retryAfterMs == Some(d) || (2 * d <= 3 * wait && 2 * d <= 3 * o.maxDelayMs))
      && (f.retryAfterMs.None? ==> IsJittered(d, Min(o.maxDelayMs, wait), random))
  {
    var e := Exponential(o, f, attempt);
    JitterBounds(e, random);
    JitteredIs(e, random);
  }

  lemma {:induction false} DelaysAre(world: nat -> Attempt, o: Options, from: nat, i: nat)
    requires i < |From(world, o, from).delays|
    ensures world(from + i).outcome.Err?
    ensures From(world, o, from).delays[i] ==
            Delay(o, world(from + i).outcome.failure, from + i, world(from + i).random)
    decreases i
  {
    if i == 0 {
    } else {
      DelaysAre(world, o, from + 1, i - 1);
    }
  }

  /**
   * The i-th wait of a call, whatever the failures were: the base wait of its kind of failure, doubled
   * i times up to the cap, and less than half of that more - or the server's retry-after if longer.
   */
  lemma WaitsAreBounded(world: nat -> Attempt, o: Options, i: nat)
    requires i < |Retry(world, o).delays|
    ensures world(i).outcome.Err?
    ensures var f, d := world(i).outcome.failure, Retry(world, o).delays[i];
      var wait := (if f.rateLimited then o.rateLimitBaseDelayMs else o.baseDelayMs) * Pow2(i);
      && (wait <= d || o.maxDelayMs <= d)
      && (f.retryAfterMs.Some? ==> f.retryAfterMs.value <= d)
      && (f.retryAfterMs == Some(d) || (2 * d <= 3 * wait && 2 * d <= 3 * o.maxDelayMs))
      && (f.retryAfterMs.None? ==> IsJittered(d, Min(o.maxDelayMs, wait), world(i).random))
  {
    DelaysAre(world, o, 0, i);
    JitteredDelay(o, world(i).outcome.failure, i, world(i).random);
  }

  /** Up to the cap the wait floor doubles from one retry to the next of the same kind of failure. */
  lemma BackoffDoubles(o: Options, f: Failure, attempt: nat)
    ensures Exponential(o, f, attempt + 1) == Min(o.maxDelayMs, 2 * Exponential(o, f, attempt))
  {
    var base := if f.rateLimited then o.rateLimitBaseDelayMs else o.baseDelayMs;
    assert base * Pow2(attempt + 1) == 2 * (base * Pow2(attempt));
  }

  lemma {:induction false} FloorsDouble(o: Options, f: Failure, i: nat, j: nat)
    requires i < j
    ensures Exponential(o, f, j) >= Min(o.maxDelayMs, 2 * Exponential(o, f, i))
    decreases j
  {
    BackoffDoubles(o, f, j - 1);
    if i == j - 1 {
    } else {
      FloorsDouble(o, f, i, j - 1);
    }
  }

  /**
   * For the same failure a later wait is at least twice the earlier floor, up to the cap. So without
   * a retry-after it is at the cap or longer than the earlier wait by a third, whatever the draws.
   */
  lemma WaitsGrow(world: nat -> Attempt, o: Options, i: nat, j: nat)
    requires i < j < |Retry(world, o).delays| && world(i).outcome == world(j).outcome
    ensures world(i).outcome.Err?
    ensures var f, delays := world(i).outcome.failure, Retry(world, o).delays;
      var wait := (if f.rateLimited then o.rateLimitBaseDelayMs else o.baseDelayMs) * Pow2(i);
      && (o.maxDelayMs <= delays[j] || 2 * wait <= delays[j])
      && (f.retryAfterMs.None? ==> delays[j] >= o.maxDelayMs || 3 * delays[j] >= 4 * delays[i])
  {
    DelaysAre(world, o, 0, i);
    DelaysAre(world, o, 0, j);
    var f := world(i).outcome.failure;
    DelayBounds(o, f, i, world(i).random);
    DelayBounds(o, f, j, world(j).random);
    FloorsDouble(o, f, i, j);
  }
}
