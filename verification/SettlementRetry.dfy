/** The retry budget: the due-time gate, the doubling backoff and the cap together. */
module SettlementRetry {
  import opened Prelude
  import opened SettlementJobs

  datatype Visit = Visit(now: int, dustUsd: real, replies: Replies)

  /** The visit finds the job due, its attempt fails, and the outcome, a retry or the end, is saved. */
  predicate Fails(job: Row, v: Visit) {
    && !Skippable(job, v.now) && v.replies.saveResult
    && Attempted(v.now, v.dustUsd, v.replies, job).result.Failed?
  }

  /** The saved row after a visit that fails or finds the job not yet due. */
  function AfterVisit(job: Row, v: Visit): Row {
    if Skippable(job, v.now) then job else ResultRow(v.now, v.dustUsd, v.replies, job)
  }

  /** Every visit either fails or comes too early. */
  predicate KeepsFailing(job: Row, visits: seq<Visit>)
    decreases |visits|
  {
    visits != [] ==> (Skippable(job, visits[0].now) || Fails(job, visits[0])) &&
                     KeepsFailing(AfterVisit(job, visits[0]), visits[1..])
  }

  /** When the failures happened. */
  function FailureTimes(job: Row, visits: seq<Visit>): seq<int>
    decreases |visits|
  {
    if visits == [] then []
    else (if Skippable(job, visits[0].now) then [] else [visits[0].now]) +
         FailureTimes(AfterVisit(job, visits[0]), visits[1..])
  }

  lemma {:induction false} Pow2Grows(a: nat, b: nat)
    requires a <= b
    ensures Pow2(a) <= Pow2(b)
    decreases b
  {
    if a == b {
    } else {
      Pow2Grows(a, b - 1);
    }
  }

  /** The ramp reaches the cap at the twelfth failure and never leaves it. */
  lemma DelayBounds(attempts: int)
    requires attempts >= 1
    ensures 1000 <= RetryDelay(attempts) <= RETRY_CAP_MS
    ensures attempts >= 12 ==> RetryDelay(attempts) == RETRY_CAP_MS
    ensures attempts <= 11 ==> RetryDelay(attempts) == 1000 * Pow2(attempts - 1)
  {
    assert Pow2(10) == 1024 && Pow2(11) == 2048 by {
      assert Pow2(3) == 8 && Pow2(6) == 8 * 8 && Pow2(9) == 8 * Pow2(6);
    }
    var exponent := if attempts - 1 > 30 then 30 else attempts - 1;
    Pow2Grows(0, exponent);
    if attempts >= 12 { Pow2Grows(11, exponent); } else { Pow2Grows(exponent, 10); }
  }

  /** A job that has ended is not tried again. */
  lemma {:induction false} NoFailureAfterTheEnd(job: Row, visits: seq<Visit>)
    requires job.status.Terminal?
    ensures FailureTimes(job, visits) == []
    decreases |visits|
  {
    if visits == [] {
    } else {
      NoFailureAfterTheEnd(job, visits[1..]);
    }
  }

  /** A failure that does not end the job schedules the next try. */
  lemma FailureSchedules(job: Row, v: Visit)
    requires Fails(job, v)
    ensures var next := AfterVisit(job, v);
      && next.attempts == job.attempts + 1
      && (next.status.Terminal? || next.nextRetryAt == Some(v.now + RetryDelay(job.attempts + 1)))
  {
    TerminalExactlyAtExpiry(v.now, v.dustUsd, v.replies, job);
  }

  /** Failure k+1 of a job that has failed `job.attempts` times waits for the delay of failure k. */
  lemma {:induction false} FailureGaps(job: Row, visits: seq<Visit>)
    requires KeepsFailing(job, visits)
    ensures var t := FailureTimes(job, visits);
      && (forall k :: 0 <= k < |t| - 1 ==> t[k + 1] - t[k] >= RetryDelay(job.attempts + k + 1))
      && (t != [] && job.nextRetryAt.Some? ==> t[0] >= job.nextRetryAt.value)
    decreases |visits|
  {
    if visits == [] {
    } else {
      var v := visits[0];
      var next := AfterVisit(job, v);
      FailureGaps(next, visits[1..]);
      if !Skippable(job, v.now) {
        var rest := FailureTimes(next, visits[1..]);
        var t := FailureTimes(job, visits);
        assert t == [v.now] + rest;
        FailureSchedules(job, v);
        if next.status.Terminal? {
          NoFailureAfterTheEnd(next, visits[1..]);
        }
        forall k | 0 <= k < |t| - 1
          ensures t[k + 1] - t[k] >= RetryDelay(job.attempts + k + 1)
        {
          if k > 0 { assert rest[k] - rest[k - 1] >= RetryDelay(next.attempts + (k - 1) + 1); }
        }
      }
    }
  }

  /** Beyond the eleventh gap every gap is a full cap. */
  lemma {:induction false} GapsAddUp(t: seq<int>, i: nat, j: nat)
    requires i <= j < |t|
    requires forall k :: 0 <= k < |t| - 1 ==> t[k + 1] - t[k] >= RetryDelay(k + 1)
    ensures t[j] - t[i] >= 0
    ensures t[j] - t[i] >= (j - i - 11) * RETRY_CAP_MS
    decreases j - i
  {
    if i == j {
    } else {
      GapsAddUp(t, i, j - 1);
      DelayBounds(j);
      assert t[j] - t[j - 1] >= RetryDelay(j);
    }
  }

  /**
   * A job that starts at no attempts and only fails does so at most
   * 12 + window / 30 minutes times in any window, however often it is visited, the failure
   * that ends it included.
   */
  lemma RetryBudget(job: Row, visits: seq<Visit>, i: nat, j: nat, window: nat)
    requires job.attempts == 0 && KeepsFailing(job, visits)
    requires i <= j < |FailureTimes(job, visits)|
    requires FailureTimes(job, visits)[j] - FailureTimes(job, visits)[i] <= window
    ensures j - i + 1 <= 12 + window / RETRY_CAP_MS
  {
    FailureGaps(job, visits);
    GapsAddUp(FailureTimes(job, visits), i, j);
  }
}
