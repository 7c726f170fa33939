/**
 * The pool of RPC endpoints: calls rotate over them from a moving cursor, each
 * endpoint behind its own circuit breaker, with request starts paced apart.
 */
module RpcPool {
  import opened Prelude
  import opened RetryBackoff
  import CB = CircuitBreaker

  /** One endpoint's turn within a call: its clock readings and what the retried request would meet. */
  datatype Turn = Turn(pacedAt: int, admitAt: int, endAt: int, retried: Outcome)

  /** A refusing breaker fails the turn with a network error, without a request. */
  const REFUSED := Err(Failure(false, false, true, None))

  datatype Done = Done(breaker: CB.Breaker, outcome: Outcome, contacted: bool)

  function EndOf(o: Outcome): CB.End {
    match o
    case Ok(_) => CB.Success
    case Err(f) => if f.network then CB.Counted else CB.Uncounted
  }

  /** The request, run behind the endpoint's breaker. */
  function RunEndpoint(b: CB.Breaker, lim: CB.Limits, t: Turn): Done {
    var admitted := CB.Admission(CB.GetState(b, lim, t.admitAt));
    var c := CB.Admit(b, lim, t.admitAt);
    if admitted.None? then Done(c, REFUSED, false)
    else Done(CB.Finish(c, lim, EndOf(t.retried), t.endAt), t.retried, true)
  }

  predicate NetworkError(o: Outcome) {
    o.Err? && o.failure.network
  }

  /** The breaker lets a call in at this time: closed, or due for a trial with none under way. */
  predicate LetsIn(b: CB.Breaker, lim: CB.Limits, now: int) {
    || b.mode.Closed?
    || (!b.trialInFlight && (b.mode.HalfOpen? || b.openedAt + lim.resetTimeoutMs <= now))
  }

  /** The endpoint would answer: it is let in, and its request succeeds within its retries. */
  predicate WouldAnswer(b: CB.Breaker, lim: CB.Limits, t: Turn) {
    LetsIn(b, lim, t.admitAt) && t.retried.Ok?
  }

  /**
   * One turn: a refusal contacts nobody, counts as a network error and leaves the breaker's count; a
   * success closes the breaker; a network error counts, and opens it at the threshold as of its
   * end; any other error moves nothing. After a contact no trial is under way.
   */
  lemma TurnExactly(b: CB.Breaker, lim: CB.Limits, t: Turn)
    ensures var d := RunEndpoint(b, lim, t);
      && d.contacted == LetsIn(b, lim, t.admitAt)
      && (d.contacted ==> d.outcome == t.retried && !d.breaker.trialInFlight)
      && (!d.contacted ==>
            && NetworkError(d.outcome) && !d.outcome.failure.retriable
            && d.breaker.(mode := b.mode) == b && (d.breaker.mode == b.mode || d.breaker.mode.HalfOpen?))
      && (d.contacted && d.outcome.Ok? ==> d.breaker.mode.Closed? && d.breaker.consecutiveFailures == 0)
      && (d.contacted && NetworkError(d.outcome) ==>
            && d.breaker.consecutiveFailures == b.consecutiveFailures + 1
            && (b.consecutiveFailures + 1 >= lim.failureThreshold ==>
                  d.breaker.mode.Open? && d.breaker.openedAt == t.endAt)
            && (b.consecutiveFailures + 1 < lim.failureThreshold ==> !d.breaker.mode.Open?))
      && (d.contacted && d.outcome.Err? && !NetworkError(d.outcome) ==>
            d.breaker.consecutiveFailures == b.consecutiveFailures && !d.breaker.mode.Open?)
  {
  }

  /** The k-th endpoint in rotation order from start: (start + k) modulo n, for start and k below n. */
  function At(n: nat, start: nat, k: nat): (e: nat)
    requires start < n && k < n
    ensures e < n
  {
    if start + k < n then start + k else start + k - n
  }

  lemma ModuloBelow(x: nat, n: nat)
    requires x < n
    ensures x % n == x
  {
  }

  lemma TwiceAtLeast(q: nat, n: nat)
    requires q >= 2
    ensures q * n >= 2 * n
  {
    assert q * n == 2 * n + (q - 2) * n;
  }

  lemma ModuloOnce(x: nat, n: nat)
    requires n <= x < 2 * n
    ensures x % n == x - n
  {
    var q := x / n;
    assert x == q * n + x % n;
    if q >= 2 {
      TwiceAtLeast(q, n);
    }
  }

  lemma AtIsModulo(n: nat, start: nat, k: nat)
    requires start < n && k < n
    ensures At(n, start, k) == (start + k) % n
  {
    if start + k >= n {
      ModuloOnce(start + k, n);
    } else {
      ModuloBelow(start + k, n);
    }
  }

  datatype Tried = Tried(breakers: seq<CB.Breaker>, outcome: Outcome, visited: seq<nat>)

  /** An endpoint's turn, then, on a network error with attempts left, the next endpoint's. */
  function TryEndpoint(
      breakers: seq<CB.Breaker>, lim: CB.Limits, turns: nat -> Turn, start: nat, offset: nat, left: nat): Tried
    requires start < |breakers| && 0 < left && offset + left <= |breakers|
    decreases left
  {
    var e := At(|breakers|, start, offset);
    var d := RunEndpoint(breakers[e], lim, turns(e));
    var after := breakers[e := d.breaker];
    if left > 1 && NetworkError(d.outcome) then
      var rest := TryEndpoint(after, lim, turns, start, offset + 1, left - 1);
      rest.(visited := [e] + rest.visited)
    else Tried(after, d.outcome, [e])
  }

  function Call(breakers: seq<CB.Breaker>, lim: CB.Limits, turns: nat -> Turn, start: nat): Tried
    requires start < |breakers|
  {
    TryEndpoint(breakers, lim, turns, start, 0, |breakers|)
  }

  // ---- One call ----

  /** What the k-th endpoint in rotation order gives, on the breakers as the call found them. */
  function Turned(breakers: seq<CB.Breaker>, lim: CB.Limits, turns: nat -> Turn, start: nat, k: nat): Done
    requires start < |breakers| && k < |breakers|
  {
    var e := At(|breakers|, start, k);
    RunEndpoint(breakers[e], lim, turns(e))
  }

  lemma RotationIsInjective(n: nat, start: nat, i: nat, j: nat)
    requires start < n && i < j < n
    ensures At(n, start, i) != At(n, start, j)
  {
  }

  /** Breakers of the endpoints still to come are as the call found them. */
  ghost predicate Untouched(breakers: seq<CB.Breaker>, was: seq<CB.Breaker>, start: nat, offset: nat)
    requires start < |was|
  {
    && |breakers| == |was|
    && forall k :: offset <= k < |was| ==> breakers[At(|was|, start, k)] == was[At(|was|, start, k)]
  }

  lemma StaysUntouched(breakers: seq<CB.Breaker>, was: seq<CB.Breaker>, start: nat, offset: nat, b: CB.Breaker)
    requires start < |was| && offset < |was| && Untouched(breakers, was, start, offset)
    ensures Untouched(breakers[At(|was|, start, offset) := b], was, start, offset + 1)
  {
  }

  /** How many turns are taken from offset on: up to the first that is not a network error. */
  function TurnsTaken(was: seq<CB.Breaker>, lim: CB.Limits, turns: nat -> Turn, start: nat, offset: nat, left: nat)
    : (k: nat)
    requires start < |was| && 0 < left && offset + left <= |was|
    ensures 0 < k <= left
    decreases left
  {
    if left > 1 && NetworkError(Turned(was, lim, turns, start, offset).outcome)
    then 1 + TurnsTaken(was, lim, turns, start, offset + 1, left - 1)
    else 1
  }

  lemma {:induction false} TurnsTakenMeaning(
      was: seq<CB.Breaker>, lim: CB.Limits, turns: nat -> Turn, start: nat, offset: nat, left: nat)
    requires start < |was| && 0 < left && offset + left <= |was|
    ensures var k := TurnsTaken(was, lim, turns, start, offset, left);
      && (forall i :: offset <= i < offset + k - 1 ==> NetworkError(Turned(was, lim, turns, start, i).outcome))
      && (k < left ==> !NetworkError(Turned(was, lim, turns, start, offset + k - 1).outcome))
    decreases left
  {
    if left == 1 || !NetworkError(Turned(was, lim, turns, start, offset).outcome) {
    } else {
      TurnsTakenMeaning(was, lim, turns, start, offset + 1, left - 1);
    }
  }

  /** k turns were taken from offset on: the last one's outcome, and the rotation's next endpoints. */
  ghost predicate Rotated(
      r: Tried, k: nat, was: seq<CB.Breaker>, lim: CB.Limits, turns: nat -> Turn, start: nat, offset: nat, j: nat)
    requires start < |was| && 0 < k && offset + k <= |was|
  {
    && r.outcome == Turned(was, lim, turns, start, offset + k - 1).outcome
    && |r.visited| == k
    && (j < k ==> r.visited[j] == At(|was|, start, offset + j))
  }

  lemma OneMoreVisit(
      rest: Tried, r: Tried, k: nat, was: seq<CB.Breaker>, lim: CB.Limits, turns: nat -> Turn,
      start: nat, offset: nat, j: nat)
    requires start < |was| && 0 < k && offset + 1 + k <= |was|
    requires Rotated(rest, k, was, lim, turns, start, offset + 1, if j > 0 then j - 1 else 0)
    requires r.outcome == rest.outcome && r.visited == [At(|was|, start, offset)] + rest.visited
    ensures Rotated(r, k + 1, was, lim, turns, start, offset, j)
  {
  }

  /** The outcome is that of the last turn taken, and the visits are the rotation's next endpoints. */
  lemma {:induction false} VisitsRotation(
      breakers: seq<CB.Breaker>, was: seq<CB.Breaker>, lim: CB.Limits, turns: nat -> Turn,
      start: nat, offset: nat, left: nat, j: nat)
    requires start < |was| && 0 < left && offset + left <= |was|
    requires Untouched(breakers, was, start, offset)
    ensures Rotated(TryEndpoint(breakers, lim, turns, start, offset, left),
                    TurnsTaken(was, lim, turns, start, offset, left), was, lim, turns, start, offset, j)
    decreases left
  {
    var e := At(|was|, start, offset);
    var d := RunEndpoint(breakers[e], lim, turns(e));
    assert d == Turned(was, lim, turns, start, offset);
    if left == 1 || !NetworkError(d.outcome) {
    } else {
      var after := breakers[e := d.breaker];
      StaysUntouched(breakers, was, start, offset, d.breaker);
      VisitsRotation(after, was, lim, turns, start, offset + 1, left - 1, if j > 0 then j - 1 else 0);
      OneMoreVisit(TryEndpoint(after, lim, turns, start, offset + 1, left - 1),
                   TryEndpoint(breakers, lim, turns, start, offset, left),
                   TurnsTaken(was, lim, turns, start, offset + 1, left - 1), was, lim, turns, start, offset, j);
    }
  }

  /** Each visited endpoint's breaker took one turn; every other breaker is as it was. */
  lemma {:induction false} OnlyVisitedBreakersMove(
      breakers: seq<CB.Breaker>, was: seq<CB.Breaker>, lim: CB.Limits, turns: nat -> Turn,
      start: nat, offset: nat, left: nat, j: nat)
    requires start < |was| && 0 < left && offset + left <= |was| && j < |was|
    requires Untouched(breakers, was, start, offset)
    ensures var r, k := TryEndpoint(breakers, lim, turns, start, offset, left),
                        TurnsTaken(was, lim, turns, start, offset, left);
      && |r.breakers| == |was|
      && r.breakers[At(|was|, start, j)] ==
         if offset <= j < offset + k then Turned(was, lim, turns, start, j).breaker
         else breakers[At(|was|, start, j)]
    decreases left
  {
    var e := At(|was|, start, offset);
    var d := RunEndpoint(breakers[e], lim, turns(e));
    if left == 1 || !NetworkError(d.outcome) {
    } else {
      StaysUntouched(breakers, was, start, offset, d.breaker);
      OnlyVisitedBreakersMove(breakers[e := d.breaker], was, lim, turns, start, offset + 1, left - 1, j);
    }
  }

  /** From any cursor one call visits pairwise different endpoints, at most all of them. */
  lemma CallVisitsEachOnce(breakers: seq<CB.Breaker>, lim: CB.Limits, turns: nat -> Turn, start: nat)
    requires start < |breakers|
    ensures var r := Call(breakers, lim, turns, start);
      && 0 < |r.visited| <= |breakers|
      && (forall i, j :: 0 <= i < j < |r.visited| ==> r.visited[i] != r.visited[j])
  {
    VisitsRotation(breakers, breakers, lim, turns, start, 0, |breakers|, 0);
    var r := Call(breakers, lim, turns, start);
    forall i, j | 0 <= i < j < |r.visited| ensures r.visited[i] != r.visited[j] {
      VisitsRotation(breakers, breakers, lim, turns, start, 0, |breakers|, i);
      VisitsRotation(breakers, breakers, lim, turns, start, 0, |breakers|, j);
      RotationIsInjective(|breakers|, start, i, j);
    }
  }

  /** A call fails only with an error that is not a network error, or after every endpoint failed with one. */
  lemma FailsOnlyAfterAll(breakers: seq<CB.Breaker>, lim: CB.Limits, turns: nat -> Turn, start: nat)
    requires start < |breakers|
    ensures var r := Call(breakers, lim, turns, start);
      NetworkError(r.outcome) ==>
        && |r.visited| == |breakers|
        && forall e: nat :: e < |breakers| ==>
             !LetsIn(breakers[e], lim, turns(e).admitAt) || NetworkError(turns(e).retried)
  {
    VisitsRotation(breakers, breakers, lim, turns, start, 0, |breakers|, 0);
    TurnsTakenMeaning(breakers, lim, turns, start, 0, |breakers|);
    if NetworkError(Call(breakers, lim, turns, start).outcome) {
      forall e: nat | e < |breakers|
        ensures !LetsIn(breakers[e], lim, turns(e).admitAt) || NetworkError(turns(e).retried)
      {
        var k := if start <= e then e - start else e + |breakers| - start;
        assert At(|breakers|, start, k) == e;
        assert NetworkError(Turned(breakers, lim, turns, start, k).outcome);
      }
    }
  }

  /** When endpoints fail only with network errors, a call succeeds exactly when some endpoint would. */
  lemma SucceedsExactlyWhenSomeEndpointDoes(
      breakers: seq<CB.Breaker>, lim: CB.Limits, turns: nat -> Turn, start: nat)
    requires start < |breakers|
    requires forall e: nat :: e < |breakers| && LetsIn(breakers[e], lim, turns(e).admitAt) ==>
        turns(e).retried.Ok? || turns(e).retried.failure.network
    ensures Call(breakers, lim, turns, start).outcome.Ok? <==>
        exists e: nat :: e < |breakers| && WouldAnswer(breakers[e], lim, turns(e))
  {
    var r := Call(breakers, lim, turns, start);
    VisitsRotation(breakers, breakers, lim, turns, start, 0, |breakers|, 0);
    FailsOnlyAfterAll(breakers, lim, turns, start);
    var last := At(|breakers|, start, |r.visited| - 1);
    assert r.outcome == RunEndpoint(breakers[last], lim, turns(last)).outcome;
  }

  // ---- Many calls ----

  /** The cursor moves by one endpoint each call, whatever the call's outcome. */
  function Advance(cursor: nat, n: nat): nat {
    if cursor + 1 == n then 0 else cursor + 1
  }

  lemma AdvanceIsModulo(cursor: nat, n: nat)
    requires cursor < n
    ensures cursor % n == cursor && (cursor + 1) % n == Advance(cursor, n)
  {
    ModuloBelow(cursor, n);
    if cursor + 1 < n {
      ModuloBelow(cursor + 1, n);
    } else {
      ModuloOnce(cursor + 1, n);
    }
  }

  function CursorAfter(cursor: nat, n: nat, calls: nat): nat {
    if calls == 0 then cursor else Advance(CursorAfter(cursor, n, calls - 1), n)
  }

  lemma {:induction false} CursorStaysInside(cursor: nat, n: nat, i: nat)
    requires cursor < n
    ensures CursorAfter(cursor, n, i) < n
  {
    if i == 0 {
    } else {
      CursorStaysInside(cursor, n, i - 1);
    }
  }

  lemma {:induction false} CursorAhead(cursor: nat, n: nat, i: nat, d: nat)
    requires cursor < n && d < n
    ensures CursorAfter(cursor, n, i) < n
    ensures CursorAfter(cursor, n, i + d) == At(n, CursorAfter(cursor, n, i), d)
    decreases d
  {
    CursorStaysInside(cursor, n, i);
    if d == 0 {
    } else {
      CursorAhead(cursor, n, i, d - 1);
    }
  }

  /** Any n calls in a row start at n different endpoints. */
  lemma {:induction false} StartsTakeTurns(cursor: nat, n: nat, i: nat, j: nat)
    requires cursor < n && i < j < i + n
    ensures CursorAfter(cursor, n, i) < n
    ensures CursorAfter(cursor, n, i) != CursorAfter(cursor, n, j)
  {
    CursorStaysInside(cursor, n, i);
    var c := CursorAfter(cursor, n, i);
    CursorAhead(cursor, n, i, j - i);
    RotationIsInjective(n, c, 0, j - i);
  }

  // ---- Pacing ----

  /** When a request read its clock at `now`, and may start: not before the previous start plus the interval. */
  function StartAt(nextStartAt: int, now: int): int {
    if now < nextStartAt then nextStartAt else now
  }

  /** The earliest start the pool will give the next request, after these clock readings. */
  function NextStart(readings: seq<int>, interval: nat): int {
    if readings == [] then 0
    else StartAt(NextStart(readings[..|readings| - 1], interval), readings[|readings| - 1]) + interval
  }

  /** The k-th paced request's start. */
  function PacedStart(readings: seq<int>, interval: nat, k: nat): int
    requires k < |readings|
  {
    StartAt(NextStart(readings[..k], interval), readings[k])
  }

  /** Whatever the clock reads, even running backwards, starts are at least the interval apart. */
  lemma {:induction false} StartsAreSpaced(readings: seq<int>, interval: nat, i: nat, j: nat)
    requires i <= j < |readings|
    ensures PacedStart(readings, interval, j) >= PacedStart(readings, interval, i) + (j - i) * interval
    decreases j
  {
    if i == j {
    } else {
      StartsAreSpaced(readings, interval, i, j - 1);
      assert readings[..j][..|readings[..j]| - 1] == readings[..j - 1];
      assert (j - i) * interval == (j - 1 - i) * interval + interval;
    }
  }

  /** No request waits longer than pacing needs: it starts now, or one interval after the one before. */
  lemma StartsAreEarliest(readings: seq<int>, interval: nat, k: nat)
    requires k < |readings|
    ensures PacedStart(readings, interval, k) >= readings[k]
    ensures k > 0 && PacedStart(readings, interval, k) != readings[k] ==>
        PacedStart(readings, interval, k) == PacedStart(readings, interval, k - 1) + interval
    ensures k == 0 && PacedStart(readings, interval, k) != readings[k] ==> readings[k] < 0
  {
    if k > 0 {
      assert readings[..k][..|readings[..k]| - 1] == readings[..k - 1];
    }
  }

  // ---- The class ----

  class Pool {
    const n: nat
    const lim: CB.Limits
    const interval: nat
    var breakers: seq<CB.Breaker>
    var cursor: nat
    var nextStartAt: int
    /** The clock readings of every paced request so far, and how many calls were made. */
    ghost var readings: seq<int>
    ghost var calls: nat

    ghost predicate Valid()
      reads this
    {
      && n > 0 && |breakers| == n && cursor == CursorAfter(0, n, calls) && cursor < n
      && nextStartAt == NextStart(readings, interval)
    }

    constructor (n: nat, lim: CB.Limits, interval: nat)
      requires n > 0
      ensures Valid() && this.n == n && readings == [] && calls == 0 && cursor == 0
      ensures breakers == seq(n, i => CB.NEW)
    {
      this.n, this.lim, this.interval := n, lim, interval;
      breakers, cursor, nextStartAt := seq(n, i => CB.NEW), 0, 0;
      readings, calls := [], 0;
    }

    /** Reserves the next start; the request then sleeps until it. */
    method PaceRpc(now: int) returns (startAt: int)
      requires Valid()
      modifies `nextStartAt, `readings
      ensures Valid() && readings == old(readings) + [now]
      ensures startAt == PacedStart(readings, interval, |readings| - 1)
    {
      var waitMs := if nextStartAt > now then nextStartAt - now else 0;
      startAt := now + waitMs;
      nextStartAt := (if now > nextStartAt then now else nextStartAt) + interval;
      readings := readings + [now];
      assert readings[..|readings| - 1] == old(readings);
    }

    /** The endpoint of the k-th turn of a call. */
    method EndpointAt(start: nat, offset: nat) returns (e: nat)
      requires start < n && offset < n
      ensures e == At(n, start, offset)
    {
      AtIsModulo(n, start, offset);
      e := (start + offset) % n;
    }

    /** One endpoint's turn: paced, then run behind its breaker. */
    method TakeTurn(turns: nat -> Turn, e: nat) returns (outcome: Outcome)
      requires Valid() && e < n
      modifies `breakers, `nextStartAt, `readings
      ensures Valid()
      ensures var d := RunEndpoint(old(breakers)[e], lim, turns(e));
        outcome == d.outcome && breakers == old(breakers)[e := d.breaker]
      ensures |readings| == |old(readings)| + 1 && old(readings) <= readings
    {
      var startAt := PaceRpc(turns(e).pacedAt);
      var d := RunEndpoint(breakers[e], lim, turns(e));
      breakers := breakers[e := d.breaker];
      outcome := d.outcome;
    }

    method TryFrom(turns: nat -> Turn, start: nat, offset: nat, left: nat)
        returns (outcome: Outcome, visited: seq<nat>)
      requires Valid() && start < n && 0 < left && offset + left <= n
      modifies `breakers, `nextStartAt, `readings
      ensures Valid()
      ensures Tried(breakers, outcome, visited) == TryEndpoint(old(breakers), lim, turns, start, offset, left)
      ensures |readings| == |old(readings)| + |visited| && old(readings) <= readings
      decreases left
    {
      var e := EndpointAt(start, offset);
      outcome := TakeTurn(turns, e);
      visited := [e];
      if left > 1 && NetworkError(outcome) {
        var rest;
        outcome, rest := TryFrom(turns, start, offset + 1, left - 1);
        visited := [e] + rest;
      }
    }

    /** One call: the cursor moves on, then endpoints take turns, each turn paced. */
    method RpcCall(turns: nat -> Turn) returns (outcome: Outcome, visited: seq<nat>)
      requires Valid()
      modifies this
      ensures Valid() && calls == old(calls) + 1
      ensures Tried(breakers, outcome, visited) == Call(old(breakers), lim, turns, old(cursor))
      ensures |readings| == |old(readings)| + |visited| && old(readings) <= readings
    {
      AdvanceIsModulo(cursor, n);
      var startIndex := cursor % n;
      cursor := (cursor + 1) % n;
      calls := calls + 1;
      outcome, visited := TryFrom(turns, startIndex, 0, n);
    }
  }
}
