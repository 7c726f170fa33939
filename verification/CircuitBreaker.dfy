/** The circuit breaker and the calls it admits, for any number of overlapping calls. */
module CircuitBreaker {
  import opened Prelude

  datatype Mode = Closed | Open | HalfOpen

  datatype Breaker = Breaker(mode: Mode, consecutiveFailures: nat, openedAt: int, trialInFlight: bool)

  datatype Limits = Limits(failureThreshold: int, resetTimeoutMs: int)

  /** How a call ended; an uncounted end is a non-retriable error or an interruption. */
  datatype End = Success | Counted | Uncounted

  datatype Kind = Normal | Trial

  const NEW := Breaker(Closed, 0, 0, false)

  function GetState(b: Breaker, lim: Limits, now: int): Breaker {
    if b.mode.Open? && now - b.openedAt >= lim.resetTimeoutMs then b.(mode := HalfOpen) else b
  }

  /** None: the call is refused without being started. */
  function Admission(b: Breaker): Option<Kind> {
    match b.mode
    case Open => None
    case HalfOpen => if b.trialInFlight then None else Some(Trial)
    case Closed => Some(Normal)
  }

  function Admit(b: Breaker, lim: Limits, now: int): Breaker {
    var current := GetState(b, lim, now);
    if current.mode.HalfOpen? then current.(trialInFlight := true) else current
  }

  function Finish(b: Breaker, lim: Limits, end: End, now: int): Breaker {
    var c := match end
      case Success => b.(consecutiveFailures := 0, mode := Closed)
      case Counted =>
        var failures := b.consecutiveFailures + 1;
        if failures >= lim.failureThreshold then b.(consecutiveFailures := failures, mode := Open, openedAt := now)
        else b.(consecutiveFailures := failures)
      case Uncounted => b;
    c.(trialInFlight := false)
  }

  function Reset(b: Breaker): Breaker {
    b.(mode := Closed, consecutiveFailures := 0, trialInFlight := false)
  }

  // ---- The breaker with its calls in flight ----

  datatype Note = Ended(end: End) | WasReset

  /**
   * `history` records how calls ended and resets; `disturbed` tells whether, since the
   * latest trial started, another call ended or the breaker was reset.
   */
  datatype System = System(breaker: Breaker, calls: map<nat, Kind>, history: seq<Note>, disturbed: bool)

  datatype Event =
    | Polled(now: int)
    | Started(id: nat, now: int)
    | Finished(id: nat, end: End, now: int)
    | ResetCalled

  function Trials(calls: map<nat, Kind>): set<nat> {
    set id | id in calls && calls[id].Trial?
  }

  predicate Enabled(s: System, e: Event) {
    match e
    case Started(id, _) => id !in s.calls
    case Finished(id, _, _) => id in s.calls
    case _ => true
  }

  function Step(s: System, lim: Limits, e: Event): System {
    match e
    case Polled(now) => s.(breaker := GetState(s.breaker, lim, now))
    case Started(id, now) =>
      var admitted := Admission(GetState(s.breaker, lim, now));
      var b := Admit(s.breaker, lim, now);
      if admitted.None? then s.(breaker := b)
      else s.(breaker := b, calls := s.calls[id := admitted.value], disturbed := s.disturbed && admitted.value.Normal?)
    case Finished(id, end, now) =>
      System(Finish(s.breaker, lim, end, now), s.calls - {id}, s.history + [Ended(end)], true)
    case ResetCalled => System(Reset(s.breaker), s.calls, s.history + [WasReset], true)
  }

  /** Counted failures since the last success or reset. */
  function TrailingFailures(history: seq<Note>): nat {
    if history == [] then 0
    else
      var before := TrailingFailures(history[..|history| - 1]);
      match history[|history| - 1]
      case WasReset => 0
      case Ended(Success) => 0
      case Ended(Counted) => before + 1
      case Ended(Uncounted) => before
  }

  const FRESH := System(NEW, map[], [], false)

  function Run(s: System, lim: Limits, events: seq<Event>): System
    decreases |events|
  {
    if events == [] then s else Run(Step(s, lim, events[0]), lim, events[1..])
  }

  ghost predicate AllEnabled(s: System, lim: Limits, events: seq<Event>)
    decreases |events|
  {
    events != [] ==> Enabled(s, events[0]) && AllEnabled(Step(s, lim, events[0]), lim, events[1..])
  }

  /** The counter is the trailing run of failures, and the breaker is closed exactly below the threshold. */
  ghost predicate CountsHistory(s: System, lim: Limits) {
    && s.breaker.consecutiveFailures == TrailingFailures(s.history)
    && (s.breaker.mode.Closed? <==> s.breaker.consecutiveFailures < lim.failureThreshold)
  }

  lemma StepCounts(s: System, lim: Limits, e: Event)
    requires CountsHistory(s, lim) && lim.failureThreshold >= 1
    ensures CountsHistory(Step(s, lim, e), lim)
  {
    var t := Step(s, lim, e);
    if e.Finished? || e.ResetCalled? { assert t.history[..|t.history| - 1] == s.history; }
  }

  /** Over any run of overlapping calls, polls and resets, the breaker's state is a function of its history. */
  lemma {:induction false} BreakerRefinesHistory(s: System, lim: Limits, events: seq<Event>)
    requires CountsHistory(s, lim) && lim.failureThreshold >= 1
    ensures CountsHistory(Run(s, lim, events), lim)
    decreases |events|
  {
    if events == [] {
    } else {
      StepCounts(s, lim, events[0]);
      BreakerRefinesHistory(Step(s, lim, events[0]), lim, events[1..]);
    }
  }

  /** A new breaker's counter is the failures since the last success or reset, whatever calls follow. */
  lemma FreshRefinesHistory(lim: Limits, events: seq<Event>)
    requires lim.failureThreshold >= 1
    ensures var s := Run(FRESH, lim, events);
      && s.breaker.consecutiveFailures == TrailingFailures(s.history)
      && (s.breaker.mode.Closed? <==> TrailingFailures(s.history) < lim.failureThreshold)
  {
    BreakerRefinesHistory(FRESH, lim, events);
  }

  // ---- What an open breaker refuses ----

  /** The breaker is open, having been opened at t by a failure that reached the threshold. */
  predicate OpenedAt(s: System, t: int) {
    s.breaker.mode.Open? && s.breaker.openedAt == t
  }

  /** A failure at this time opens the breaker as of this time exactly when it reaches the threshold. */
  lemma OpensExactly(s: System, lim: Limits, id: nat, now: int)
    requires s.breaker.mode.Closed?
    ensures OpenedAt(Step(s, lim, Finished(id, Counted, now)), now) <==>
            s.breaker.consecutiveFailures + 1 >= lim.failureThreshold
    ensures !Step(s, lim, Finished(id, Success, now)).breaker.mode.Open?
    ensures !Step(s, lim, Finished(id, Uncounted, now)).breaker.mode.Open?
  {
  }

  /** Nothing closes the breaker opened at t, and no look at it comes as late as the reset timeout. */
  predicate StillOpen(lim: Limits, e: Event, t: int) {
    match e
    case Polled(now) => now < t + lim.resetTimeoutMs
    case Started(_, now) => now < t + lim.resetTimeoutMs
    case Finished(_, end, now) => !end.Success? && (end.Counted? ==> t <= now)
    case ResetCalled => false
  }

  /**
   * An open breaker admits no call until the reset timeout has passed since it opened, whatever
   * other calls do short of succeeding; a call that fails meanwhile only makes it wait longer.
   */
  lemma {:induction false} OpenRefuses(s: System, lim: Limits, events: seq<Event>, t: int)
    requires s.breaker.mode.Open? && t <= s.breaker.openedAt
    requires forall k :: 0 <= k < |events| ==> StillOpen(lim, events[k], t)
    ensures var d := Run(s, lim, events);
      d.breaker.mode.Open? && t <= d.breaker.openedAt && d.calls.Keys <= s.calls.Keys
    decreases |events|
  {
    if events == [] {
    } else {
      assert StillOpen(lim, events[0], t);
      OpenRefuses(Step(s, lim, events[0]), lim, events[1..], t);
    }
  }

  /** An open breaker without a trial under way admits a call exactly from the reset timeout on, as a trial. */
  lemma OpenAdmitsExactly(s: System, lim: Limits, id: nat, now: int)
    requires s.breaker.mode.Open? && id !in s.calls
    ensures var d := Step(s, lim, Started(id, now));
      && (id in d.calls <==> now >= s.breaker.openedAt + lim.resetTimeoutMs && !s.breaker.trialInFlight)
      && (id in d.calls ==> d.calls[id].Trial?)
  {
  }

  // ---- How many trials run at once ----

  ghost predicate AtMostOneTrial(s: System) {
    forall a, b :: a in Trials(s.calls) && b in Trials(s.calls) ==> a == b
  }

  /** The flag is up exactly while an undisturbed trial is in flight. */
  ghost predicate FlagOk(s: System) {
    s.breaker.trialInFlight <==> Trials(s.calls) != {} && !s.disturbed
  }

  /** A call arrives at the half-open breaker while a disturbed trial is still in flight. */
  ghost predicate SecondTrial(s: System, lim: Limits, e: Event) {
    e.Started? && GetState(s.breaker, lim, e.now).mode.HalfOpen? && Trials(s.calls) != {} && s.disturbed
  }

  lemma StepTrials(s: System, lim: Limits, e: Event)
    requires AtMostOneTrial(s) && FlagOk(s) && Enabled(s, e)
    ensures AtMostOneTrial(Step(s, lim, e)) <==> !SecondTrial(s, lim, e)
    ensures !SecondTrial(s, lim, e) ==> FlagOk(Step(s, lim, e))
  {
    var t := Step(s, lim, e);
    match e {
      case Polled(now) =>
      case ResetCalled =>
      case Finished(id, end, now) =>
        assert Trials(t.calls) == Trials(s.calls) - {id};
      case Started(id, now) =>
        if t.calls != s.calls {
          assert Trials(t.calls) == if t.calls[id].Trial? then Trials(s.calls) + {id} else Trials(s.calls);
          if SecondTrial(s, lim, e) {
            var other :| other in Trials(s.calls);
            assert other in Trials(t.calls) && id in Trials(t.calls) && other != id;
          }
        }
    }
  }

  ghost predicate AlwaysOneTrial(s: System, lim: Limits, events: seq<Event>)
    decreases |events|
  {
    AtMostOneTrial(s) && (events != [] ==> AlwaysOneTrial(Step(s, lim, events[0]), lim, events[1..]))
  }

  ghost predicate NeverSecondTrial(s: System, lim: Limits, events: seq<Event>)
    decreases |events|
  {
    events != [] ==> !SecondTrial(s, lim, events[0]) && NeverSecondTrial(Step(s, lim, events[0]), lim, events[1..])
  }

  /**
   * At most one trial runs at a time exactly when no call arrives at the half-open
   * breaker while a trial is in flight that another call's end or a reset has disturbed.
   */
  lemma {:induction false} OneTrialExactly(s: System, lim: Limits, events: seq<Event>)
    requires AtMostOneTrial(s) && FlagOk(s) && AllEnabled(s, lim, events)
    ensures AlwaysOneTrial(s, lim, events) <==> NeverSecondTrial(s, lim, events)
    decreases |events|
  {
    if events == [] {
    } else {
      StepTrials(s, lim, events[0]);
      if !SecondTrial(s, lim, events[0]) {
        OneTrialExactly(Step(s, lim, events[0]), lim, events[1..]);
      } else {
        assert !AlwaysOneTrial(Step(s, lim, events[0]), lim, events[1..]);
      }
    }
  }

  /** No normal call is in flight when a trial is admitted, and no reset comes during a trial. */
  ghost predicate Orderly(s: System, lim: Limits, e: Event) {
    && (e.Started? && Admission(GetState(s.breaker, lim, e.now)) == Some(Trial) ==>
          forall id :: id in s.calls ==> s.calls[id].Trial?)
    && (e.ResetCalled? ==> Trials(s.calls) == {})
  }

  ghost predicate AllOrderly(s: System, lim: Limits, events: seq<Event>)
    decreases |events|
  {
    events != [] ==> Orderly(s, lim, events[0]) && AllOrderly(Step(s, lim, events[0]), lim, events[1..])
  }

  /** While a trial is in flight it is the only call, the breaker is half-open and the flag is up. */
  ghost predicate TrialAlone(s: System) {
    Trials(s.calls) != {} ==>
      && s.breaker.mode.HalfOpen? && s.breaker.trialInFlight
      && forall a, b :: a in s.calls && b in s.calls ==> a == b
  }

  lemma OrderlyStep(s: System, lim: Limits, e: Event)
    requires TrialAlone(s) && Enabled(s, e) && Orderly(s, lim, e)
    requires s.breaker.trialInFlight ==> Trials(s.calls) != {}
    ensures TrialAlone(Step(s, lim, e))
    ensures Step(s, lim, e).breaker.trialInFlight ==> Trials(Step(s, lim, e).calls) != {}
  {
    var t := Step(s, lim, e);
    if e.Finished? {
      var ended := e.id;
      assert Trials(t.calls) == Trials(s.calls) - {ended};
      assert forall x :: x in Trials(t.calls) ==> x in s.calls && x != ended;
    } else if e.Started? && t.calls != s.calls {
      assert Trials(t.calls) == if t.calls[e.id].Trial? then Trials(s.calls) + {e.id} else Trials(s.calls);
      if t.calls[e.id].Trial? {
        assert e.id in Trials(t.calls);
        assert forall id :: id in s.calls ==> id in Trials(s.calls);
      }
    }
  }

  /** In an orderly run at most one trial is ever in flight, and nothing runs beside it. */
  lemma {:induction false} OrderlyRunsOneTrial(s: System, lim: Limits, events: seq<Event>)
    requires TrialAlone(s) && AllEnabled(s, lim, events) && AllOrderly(s, lim, events)
    requires s.breaker.trialInFlight ==> Trials(s.calls) != {}
    ensures AlwaysOneTrial(s, lim, events) && TrialAlone(Run(s, lim, events))
    decreases |events|
  {
    if events == [] {
    } else {
      OrderlyStep(s, lim, events[0]);
      OrderlyRunsOneTrial(Step(s, lim, events[0]), lim, events[1..]);
    }
  }

  lemma ThreeEvents(s: System, lim: Limits, a: Event, b: Event, c: Event)
    ensures var t := Step(Step(s, lim, a), lim, b);
      && Run(s, lim, [a, b, c]) == Step(t, lim, c)
      && (AllEnabled(s, lim, [a, b, c]) <==> Enabled(s, a) && Enabled(Step(s, lim, a), b) && Enabled(t, c))
  {
    var s1 := Step(s, lim, a);
    var s2 := Step(s1, lim, b);
    assert [a, b, c][1..] == [b, c] && [b, c][1..] == [c] && [c][1..] == [];
    assert Run(s, lim, [a, b, c]) == Run(s1, lim, [b, c]) == Run(s2, lim, [c]) == Run(Step(s2, lim, c), lim, []);
    assert AllEnabled(s2, lim, [c]) <==> Enabled(s2, c) && AllEnabled(Step(s2, lim, c), lim, []);
    assert AllEnabled(s1, lim, [b, c]) <==> Enabled(s1, b) && AllEnabled(s2, lim, [c]);
  }

  lemma {:induction false} RunConcat(s: System, lim: Limits, xs: seq<Event>, ys: seq<Event>)
    ensures Run(s, lim, xs + ys) == Run(Run(s, lim, xs), lim, ys)
    ensures AllEnabled(s, lim, xs + ys) <==> AllEnabled(s, lim, xs) && AllEnabled(Run(s, lim, xs), lim, ys)
    decreases |xs|
  {
    if xs == [] {
      assert xs + ys == ys;
    } else {
      assert (xs + ys)[0] == xs[0] && (xs + ys)[1..] == xs[1..] + ys;
      RunConcat(Step(s, lim, xs[0]), lim, xs[1..], ys);
    }
  }

  const ONE_FAILURE := Limits(1, 10)

  /** A call fails and opens the breaker while another one is still in flight ... */
  const OPENING: seq<Event> := [Started(0, 0), Started(1, 0), Finished(0, Counted, 0)]

  /** ... which ends during the trial that follows; then another call starts. */
  const STRAGGLING: seq<Event> := [Started(2, 10), Finished(1, Uncounted, 11), Started(3, 12)]

  lemma OpensBesideACall()
    ensures AllEnabled(FRESH, ONE_FAILURE, OPENING)
    ensures Run(FRESH, ONE_FAILURE, OPENING).calls == map[1 := Normal]
    ensures Run(FRESH, ONE_FAILURE, OPENING).breaker == Breaker(Open, 1, 0, false)
  {
    ThreeEvents(FRESH, ONE_FAILURE, OPENING[0], OPENING[1], OPENING[2]);
  }

  lemma StragglerEndsTrial(s: System)
    requires s.calls == map[1 := Normal] && s.breaker == Breaker(Open, 1, 0, false)
    ensures AllEnabled(s, ONE_FAILURE, STRAGGLING)
    ensures Run(s, ONE_FAILURE, STRAGGLING).calls == map[2 := Trial, 3 := Trial]
  {
    ThreeEvents(s, ONE_FAILURE, STRAGGLING[0], STRAGGLING[1], STRAGGLING[2]);
    var t := Step(Step(s, ONE_FAILURE, STRAGGLING[0]), ONE_FAILURE, STRAGGLING[1]);
    assert t.calls == map[2 := Trial] && t.breaker == Breaker(HalfOpen, 1, 0, false);
  }

  /** A call admitted before the breaker opened, ending during the trial, lets a second trial in. */
  lemma StragglerAdmitsSecondTrial()
    ensures AllEnabled(FRESH, ONE_FAILURE, OPENING + STRAGGLING)
    ensures Trials(Run(FRESH, ONE_FAILURE, OPENING + STRAGGLING).calls) == {2, 3}
  {
    OpensBesideACall();
    StragglerEndsTrial(Run(FRESH, ONE_FAILURE, OPENING));
    RunConcat(FRESH, ONE_FAILURE, OPENING, STRAGGLING);
  }

  // ---- The class ----

  class Gate {
    var mode: Mode
    var consecutiveFailures: nat
    var openedAt: int
    var trialInFlight: bool
    const lim: Limits

    function State(): Breaker
      reads this
    {
      Breaker(mode, consecutiveFailures, openedAt, trialInFlight)
    }

    constructor (lim: Limits)
      ensures State() == NEW && this.lim == lim
    {
      mode, consecutiveFailures, openedAt, trialInFlight, this.lim := Closed, 0, 0, false, lim;
    }

    method ReadMode(now: int) returns (m: Mode)
      modifies this
      ensures State() == GetState(old(State()), lim, now) && m == mode
    {
      if mode.Open? {
        var elapsed := now - openedAt;
        if elapsed >= lim.resetTimeoutMs { mode := HalfOpen; }
      }
      m := mode;
    }

    /** The part of execute before the call; None when the breaker refuses it. */
    method Begin(now: int) returns (admitted: Option<Kind>)
      modifies this
      ensures State() == Admit(old(State()), lim, now)
      ensures admitted == Admission(GetState(old(State()), lim, now))
    {
      var current := ReadMode(now);
      if current.Open? { return None; }
      if current.HalfOpen? && trialInFlight { return None; }
      if current.HalfOpen? {
        trialInFlight := true;
        return Some(Trial);
      }
      admitted := Some(Normal);
    }

    /** The part of execute after the call: count it, then always lower the flag. */
    method Conclude(end: End, now: int)
      modifies this
      ensures State() == Finish(old(State()), lim, end, now)
    {
      match end {
        case Success => consecutiveFailures, mode := 0, Closed;
        case Counted =>
          consecutiveFailures := consecutiveFailures + 1;
          if consecutiveFailures >= lim.failureThreshold {
            mode := Open;
            openedAt := now;
          }
        case Uncounted =>
      }
      trialInFlight := false;
    }

    method ResetNow()
      modifies this
      ensures State() == Reset(old(State()))
    {
      mode := Closed;
      consecutiveFailures := 0;
      trialInFlight := false;
    }
  }
}
