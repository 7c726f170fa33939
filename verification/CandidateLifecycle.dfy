/**
 * The lifecycle of a discovered token candidate: scans, entry, cooldown. Every
 * transition returns a new record; times may arrive out of order.
 */
module CandidateLifecycle {
  import opened Prelude

  datatype Policy = Policy(minHealthyScans: int, minObservationMs: int)

  datatype State = Discovered | Observing | Eligible | Entered | CoolingDown | Rejected

  datatype TransientReason =
    | MarketDataUnavailable | PriceEvidenceUnavailable | PriceEvidenceStale
    | RouteUnavailable | ScreenerRejected

  datatype Health = Healthy | TransientFailure(why: TransientReason) | HardFailure(reason: string)

  datatype Event =
    | Scan(at: int, health: Health)
    | EntryConfirmed(at: int)
    | CooldownStarted(at: int, until: int)
    | CooldownElapsed(at: int)

  datatype Identity = Identity(
    id: string, walletAddress: string, agentInstanceId: string, poolAddress: string, tokenMint: string)

  datatype Candidate = Candidate(
    identity: Identity, state: State, healthyScanCount: nat,
    firstSeenAt: int, lastSeenAt: int, eligibleAt: Option<int>, enteredAt: Option<int>,
    cooldownUntil: Option<int>, rejectionReason: Option<string>, createdAt: int, updatedAt: int)

  // ---- Health ----

  /** A price reading; a price that is not finite is None. */
  datatype Evidence = Evidence(mint: string, fallbackUsed: bool, priceUsd: Option<real>, observedAt: int)

  datatype Safety = Safe | Unsafe(reason: string)

  datatype HealthInput = HealthInput(
    safety: Safety, priceEvidence: seq<Evidence>, requiredMints: seq<string>, now: int,
    maxMarketDataAgeMs: int, routeAvailable: bool, screenerAccepted: bool, marketDataAvailable: bool)

  predicate IsFresh(e: Evidence, now: int, maxAgeMs: int) {
    && !e.fallbackUsed
    && e.priceUsd.Some?
    && e.priceUsd.value > 0.0
    && e.observedAt <= now
    && now - e.observedAt <= maxAgeMs
  }

  predicate HasFreshEvidence(i: HealthInput) {
    && i.requiredMints != []
    && forall mint :: mint in i.requiredMints ==>
        exists e :: e in i.priceEvidence && e.mint == mint && IsFresh(e, i.now, i.maxMarketDataAgeMs)
  }

  predicate HasAnyEvidence(i: HealthInput) {
    && i.requiredMints != []
    && forall mint :: mint in i.requiredMints ==> exists e :: e in i.priceEvidence && e.mint == mint
  }

  function EvaluateHealth(i: HealthInput): Health {
    if i.safety.Unsafe? then HardFailure(i.safety.reason)
    else if !i.marketDataAvailable then TransientFailure(MarketDataUnavailable)
    else if !HasFreshEvidence(i) then
      TransientFailure(if HasAnyEvidence(i) then PriceEvidenceStale else PriceEvidenceUnavailable)
    else if !i.routeAvailable then TransientFailure(RouteUnavailable)
    else if !i.screenerAccepted then TransientFailure(ScreenerRejected)
    else Healthy
  }

  /** A real price of the mint, seen no later than now and no longer ago than the limit. */
  predicate Proves(e: Evidence, mint: string, now: int, maxAgeMs: int) {
    && e.mint == mint && e.priceUsd.Some? && e.priceUsd.value > 0.0 && !e.fallbackUsed
    && now - maxAgeMs <= e.observedAt <= now
  }

  /** Every required mint, of at least one, has a price that proves it. */
  ghost predicate AllProven(i: HealthInput) {
    && |i.requiredMints| > 0
    && forall mint :: mint in i.requiredMints ==>
         exists e :: e in i.priceEvidence && Proves(e, mint, i.now, i.maxMarketDataAgeMs)
  }

  /** Every required mint, of at least one, has some evidence, however old or made up. */
  ghost predicate AllMentioned(i: HealthInput) {
    && |i.requiredMints| > 0
    && forall mint :: mint in i.requiredMints ==> exists e :: e in i.priceEvidence && e.mint == mint
  }

  lemma FreshExactly(i: HealthInput)
    ensures HasFreshEvidence(i) <==> AllProven(i)
    ensures HasFreshEvidence(i) ==> AllMentioned(i)
    ensures HasAnyEvidence(i) <==> AllMentioned(i)
  {
    forall mint, e | e in i.priceEvidence
      ensures e.mint == mint && IsFresh(e, i.now, i.maxMarketDataAgeMs) <==>
              Proves(e, mint, i.now, i.maxMarketDataAgeMs)
    {
    }
  }

  /** Each verdict, exactly: the first of the reasons in this order, and healthy when none holds. */
  lemma HealthExactly(i: HealthInput)
    ensures i.safety.Unsafe? <==> EvaluateHealth(i).HardFailure?
    ensures i.safety.Unsafe? ==> EvaluateHealth(i).reason == i.safety.reason
    ensures i.safety.Safe? ==>
        (EvaluateHealth(i) ==
         if !i.marketDataAvailable then TransientFailure(MarketDataUnavailable)
         else if !AllMentioned(i) then TransientFailure(PriceEvidenceUnavailable)
         else if !AllProven(i) then TransientFailure(PriceEvidenceStale)
         else if !i.routeAvailable then TransientFailure(RouteUnavailable)
         else if !i.screenerAccepted then TransientFailure(ScreenerRejected)
         else Healthy)
  {
    FreshExactly(i);
  }

  // ---- Transitions ----

  function Seen(c: Candidate, at: int): Candidate {
    c.(lastSeenAt := Max(c.lastSeenAt, at), updatedAt := Max(c.updatedAt, at))
  }

  function Create(identity: Identity, firstSeenAt: int): Candidate {
    Candidate(identity, Discovered, 0, firstSeenAt, firstSeenAt, None, None, None, None, firstSeenAt, firstSeenAt)
  }

  predicate MeetsGates(c: Candidate, policy: Policy) {
    && c.healthyScanCount >= policy.minHealthyScans
    && c.lastSeenAt - c.firstSeenAt >= policy.minObservationMs
  }

  /** Still being watched: scans count. */
  predicate Watched(s: State) {
    s in {Discovered, Observing, State.Eligible}
  }

  function RecordHealthyScan(c: Candidate, at: int, policy: Policy): Candidate {
    var observed := Seen(c, at).(healthyScanCount := c.healthyScanCount + 1, rejectionReason := None);
    if MeetsGates(observed, policy) then observed.(state := State.Eligible, eligibleAt := Some(observed.lastSeenAt))
    else observed.(state := Observing, eligibleAt := None)
  }

  function RecordTransientFailure(c: Candidate, at: int): Candidate {
    if Watched(c.state) then
      Seen(c, at).(state := Observing, healthyScanCount := 0, eligibleAt := None, rejectionReason := None)
    else Seen(c, at)
  }

  function RecordScan(c: Candidate, at: int, health: Health, policy: Policy): Candidate {
    match health
    case HardFailure(reason) =>
      Seen(c, at).(state := Rejected, healthyScanCount := 0, eligibleAt := None, cooldownUntil := None,
        rejectionReason := Some(reason))
    case TransientFailure(_) => RecordTransientFailure(c, at)
    case Healthy => if Watched(c.state) then RecordHealthyScan(c, at, policy) else Seen(c, at)
  }

  function Transition(c: Candidate, e: Event, policy: Policy): Candidate {
    match e
    case Scan(at, health) => RecordScan(c, at, health, policy)
    case EntryConfirmed(at) =>
      if c.state == State.Eligible then
        Seen(c, at).(state := Entered, enteredAt := Some(at), cooldownUntil := None)
      else c
    case CooldownStarted(at, until) =>
      if c.state == Entered then Seen(c, at).(state := CoolingDown, cooldownUntil := Some(until)) else c
    case CooldownElapsed(at) =>
      if c.state == CoolingDown && c.cooldownUntil.Some? && at >= c.cooldownUntil.value then
        Seen(c, at).(state := Discovered, healthyScanCount := 0, eligibleAt := None, cooldownUntil := None,
          rejectionReason := None)
      else c
  }

  /** The record after a whole history of events. */
  function Replay(c: Candidate, es: seq<Event>, policy: Policy): Candidate {
    if es == [] then c else Transition(Replay(c, es[..|es| - 1], policy), es[|es| - 1], policy)
  }

  // ---- What every history keeps ----

  /** Each optional field is present in exactly the states it belongs to. */
  predicate Consistent(c: Candidate) {
    && (c.eligibleAt.Some? <==> c.state in {State.Eligible, Entered, CoolingDown})
    && (c.cooldownUntil.Some? <==> c.state == CoolingDown)
    && (c.rejectionReason.Some? <==> c.state == Rejected)
    && (c.state in {Entered, CoolingDown} ==> c.enteredAt.Some?)
    && (c.eligibleAt.Some? ==> c.eligibleAt.value <= c.lastSeenAt)
    && c.firstSeenAt <= c.lastSeenAt
  }

  lemma TransitionKeepsConsistent(c: Candidate, e: Event, policy: Policy)
    requires Consistent(c)
    ensures Consistent(Transition(c, e, policy))
  {
  }

  /** Seen and updated times only move forward; who the candidate is never changes. */
  lemma TransitionMovesForward(c: Candidate, e: Event, policy: Policy)
    ensures var d := Transition(c, e, policy);
      && c.lastSeenAt <= d.lastSeenAt
      && c.updatedAt <= d.updatedAt
      && (c.enteredAt.Some? ==> d.enteredAt.Some?)
      && d.identity == c.identity && d.firstSeenAt == c.firstSeenAt && d.createdAt == c.createdAt
  {
  }

  lemma {:induction false} HistoryIdentity(c: Candidate, es: seq<Event>, policy: Policy)
    ensures Replay(c, es, policy).identity == c.identity && Replay(c, es, policy).firstSeenAt == c.firstSeenAt
  {
    if es == [] {
    } else {
      HistoryIdentity(c, es[..|es| - 1], policy);
    }
  }

  lemma {:induction false} HistoryKeeps(c: Candidate, es: seq<Event>, k: nat, policy: Policy)
    requires Consistent(c) && k <= |es|
    ensures Consistent(Replay(c, es, policy))
    ensures var earlier, later := Replay(c, es[..k], policy), Replay(c, es, policy);
      && earlier.lastSeenAt <= later.lastSeenAt
      && earlier.updatedAt <= later.updatedAt
      && later.identity == c.identity && later.firstSeenAt == c.firstSeenAt
      && (earlier.state == Rejected ==> later.state == Rejected)
    decreases |es|
  {
    if es == [] {
      assert es[..k] == es;
    } else {
      var init := es[..|es| - 1];
      if k < |es| {
        HistoryKeeps(c, init, k, policy);
        assert init[..k] == es[..k];
      } else {
        HistoryKeeps(c, init, 0, policy);
        assert es[..k] == es;
      }
      TransitionKeepsConsistent(Replay(c, init, policy), es[|es| - 1], policy);
      TransitionMovesForward(Replay(c, init, policy), es[|es| - 1], policy);
      HistoryIdentity(c, init, policy);
    }
  }

  // ---- Where each event leads ----

  predicate IsHardFailure(e: Event) {
    e.Scan? && e.health.HardFailure?
  }

  /** Entered: by an entry found eligible, recorded at its time, until a cooldown or a hard failure. */
  lemma EntersExactly(c: Candidate, e: Event, policy: Policy)
    ensures var d := Transition(c, e, policy);
      && (d.state == Entered <==>
            || (c.state == State.Eligible && e.EntryConfirmed?)
            || (c.state == Entered && !e.CooldownStarted? && !IsHardFailure(e)))
      && (d.state == Entered && c.state != Entered ==> d.enteredAt == Some(e.at))
  {
  }

  /** What a scan does to a watched candidate; any other it leaves in its state, unless it fails hard. */
  lemma ScansExactly(c: Candidate, at: int, health: Health, policy: Policy)
    requires !health.HardFailure?
    ensures var d := Transition(c, Scan(at, health), policy);
      var count := if health.Healthy? then c.healthyScanCount + 1 else 0;
      var seen := Max(c.lastSeenAt, at);
      if c.state.Entered? || c.state.CoolingDown? || c.state.Rejected? then
        d.state == c.state && d.healthyScanCount == c.healthyScanCount && d.eligibleAt == c.eligibleAt
      else
        && d.healthyScanCount == count && d.rejectionReason.None?
        && d.state in {Observing, State.Eligible}
        && (d.state == State.Eligible <==>
              health.Healthy? && count >= policy.minHealthyScans && seen - c.firstSeenAt >= policy.minObservationMs)
        && d.eligibleAt == (if d.state == State.Eligible then Some(seen) else None)
  {
  }

  /** A candidate is discovered when it is created, and again when its cooldown is over. */
  lemma DiscoveredExactly(identity: Identity, at: int, c: Candidate, e: Event, policy: Policy)
    requires c.state == CoolingDown ==> c.cooldownUntil.Some?
    ensures Create(identity, at).state == Discovered && Create(identity, at).healthyScanCount == 0
    ensures var d := Transition(c, e, policy);
      && (d.state == Discovered <==>
            || (c.state == CoolingDown && e.CooldownElapsed? && c.cooldownUntil.value <= e.at)
            || (c.state == Discovered && !e.Scan?))
      && (d.state == Discovered && c.state != Discovered ==> d.healthyScanCount == 0 && d.eligibleAt.None?)
  {
  }

  /** Cooling down: from a cooldown of an entered candidate until its time has come, or a hard failure. */
  lemma CoolsExactly(c: Candidate, e: Event, policy: Policy)
    requires c.state == CoolingDown ==> c.cooldownUntil.Some?
    ensures var d := Transition(c, e, policy);
      && (d.state == CoolingDown <==>
            || (c.state == Entered && e.CooldownStarted?)
            || (c.state == CoolingDown && !IsHardFailure(e)
                && !(e.CooldownElapsed? && c.cooldownUntil.value <= e.at)))
      && (d.state == CoolingDown && c.state != CoolingDown ==> d.cooldownUntil == Some(e.until))
      && (d.state == CoolingDown && c.state == CoolingDown ==> d.cooldownUntil == c.cooldownUntil)
  {
  }

  /** A hard failure leaves nothing to build on. */
  lemma HardFailureClears(c: Candidate, e: Event, policy: Policy)
    requires IsHardFailure(e)
    ensures var d := Transition(c, e, policy);
      && d.state == Rejected && d.healthyScanCount == 0 && d.eligibleAt.None? && d.cooldownUntil.None?
      && d.rejectionReason == Some(e.health.reason) && d.enteredAt == c.enteredAt
  {
  }

  // ---- Rejection: exactly one cause, and no way back ----

  lemma RejectsOnlyOnHardFailure(c: Candidate, e: Event, policy: Policy)
    ensures Transition(c, e, policy).state == Rejected <==> c.state == Rejected || IsHardFailure(e)
  {
  }

  /** A candidate is rejected exactly when some scan failed hard. */
  lemma {:induction false} RejectedExactlyByHardFailure(c: Candidate, es: seq<Event>, policy: Policy)
    requires c.state != Rejected
    ensures Replay(c, es, policy).state == Rejected <==> exists i :: 0 <= i < |es| && IsHardFailure(es[i])
  {
    if es == [] {
    } else {
      var init, e := es[..|es| - 1], es[|es| - 1];
      RejectedExactlyByHardFailure(c, init, policy);
      assert es == init + [e];
      assert IsHardFailure(e) ==> IsHardFailure(es[|es| - 1]);
      RejectsOnlyOnHardFailure(Replay(c, init, policy), e, policy);
    }
  }

  lemma RejectedKeepsReason(c: Candidate, e: Event, policy: Policy)
    requires c.state == Rejected && !IsHardFailure(e)
    ensures Transition(c, e, policy).state == Rejected
    ensures Transition(c, e, policy).rejectionReason == c.rejectionReason
  {
  }

  /** The reason kept is that of the last hard failure. */
  lemma {:induction false} RejectionKeepsLastReason(c: Candidate, es: seq<Event>, i: nat, policy: Policy)
    requires i < |es| && IsHardFailure(es[i])
    requires forall j :: i < j < |es| ==> !IsHardFailure(es[j])
    ensures Replay(c, es, policy).state == Rejected
    ensures Replay(c, es, policy).rejectionReason == Some(es[i].health.reason)
    decreases |es|
  {
    if i == |es| - 1 {
    } else {
      var init := es[..|es| - 1];
      assert init[i] == es[i];
      RejectionKeepsLastReason(c, init, i, policy);
      RejectedKeepsReason(Replay(c, init, policy), es[|es| - 1], policy);
    }
  }

  // ---- Eligibility: what the scan count means ----

  predicate IsHealthyScan(e: Event) {
    e.Scan? && e.health.Healthy?
  }

  function HealthyScans(es: seq<Event>): nat {
    if es == [] then 0
    else HealthyScans(es[..|es| - 1]) + if IsHealthyScan(es[|es| - 1]) then 1 else 0
  }

  /** No failure among the events from k on. */
  predicate OnlyHealthyFrom(es: seq<Event>, k: nat) {
    forall i :: k <= i < |es| ==> es[i].Scan? ==> es[i].health.Healthy?
  }

  /** The candidate after a history that begins with its discovery. */
  function CandidateAfter(identity: Identity, at: int, es: seq<Event>, policy: Policy): Candidate {
    Replay(Create(identity, at), es, policy)
  }

  /** The event does restart the count: a failed scan of a watched candidate, or a cooldown that is over. */
  predicate Restarts(c: Candidate, e: Event) {
    || (Watched(c.state) && e.Scan? && e.health.TransientFailure?)
    || (c.state == CoolingDown && e.CooldownElapsed? && c.cooldownUntil.Some? && e.at >= c.cooldownUntil.value)
  }

  /** The candidate has been watched since the restart just before event k, its last one. */
  ghost predicate WatchedSince(identity: Identity, at: int, es: seq<Event>, policy: Policy, k: nat) {
    && k <= |es|
    && (k == 0 || Restarts(CandidateAfter(identity, at, es[..k - 1], policy), es[k - 1]))
    && (forall j :: k <= j <= |es| ==> Watched(CandidateAfter(identity, at, es[..j], policy).state))
    && (forall j :: k <= j < |es| ==> !Restarts(CandidateAfter(identity, at, es[..j], policy), es[j]))
  }

  /** There is only one last restart. */
  lemma LastRestartIsUnique(identity: Identity, at: int, es: seq<Event>, policy: Policy, j: nat, k: nat)
    requires WatchedSince(identity, at, es, policy, j) && WatchedSince(identity, at, es, policy, k)
    ensures j == k
  {
  }

  /** Staying watched without a restart: only a healthy scan counts, and no other scan happens. */
  lemma WatchedStep(c: Candidate, e: Event, policy: Policy)
    requires Watched(Transition(c, e, policy).state) && !Restarts(c, e)
    ensures Watched(c.state) && (e.Scan? ==> e.health.Healthy?)
    ensures Transition(c, e, policy).healthyScanCount == c.healthyScanCount + if IsHealthyScan(e) then 1 else 0
  {
  }

  lemma ScansOneMore(es: seq<Event>, e: Event, k: nat)
    requires k <= |es|
    ensures HealthyScans((es + [e])[k..]) == HealthyScans(es[k..]) + if IsHealthyScan(e) then 1 else 0
  {
    assert (es + [e])[k..] == es[k..] + [e];
    assert (es[k..] + [e])[..|es[k..]|] == es[k..];
  }

  lemma StillWatchedSince(identity: Identity, at: int, es: seq<Event>, e: Event, policy: Policy, k: nat)
    requires WatchedSince(identity, at, es, policy, k)
    requires !Restarts(CandidateAfter(identity, at, es, policy), e)
    requires Watched(CandidateAfter(identity, at, es + [e], policy).state)
    ensures WatchedSince(identity, at, es + [e], policy, k)
  {
    var more := es + [e];
    forall j | k <= j <= |more| ensures Watched(CandidateAfter(identity, at, more[..j], policy).state) {
      if j <= |es| {
        assert more[..j] == es[..j];
      } else {
        assert more[..j] == more;
      }
    }
    forall j | k <= j < |more| ensures !Restarts(CandidateAfter(identity, at, more[..j], policy), more[j]) {
      assert more[..j] == es[..j];
      if j == |es| {
        assert es[..j] == es;
      }
    }
    if k > 0 {
      assert more[..k - 1] == es[..k - 1];
    }
  }

  /** While watched, the count is the number of healthy scans since the last restart, none failing between. */
  lemma {:induction false} CountIsTrailingHealthyScans(identity: Identity, at: int, es: seq<Event>, policy: Policy)
    returns (k: nat)
    requires Watched(CandidateAfter(identity, at, es, policy).state)
    ensures WatchedSince(identity, at, es, policy, k) && OnlyHealthyFrom(es, k)
    ensures CandidateAfter(identity, at, es, policy).healthyScanCount == HealthyScans(es[k..])
  {
    assert es[..|es|] == es;
    if es == [] {
      k := 0;
    } else {
      var init, e := es[..|es| - 1], es[|es| - 1];
      var before := CandidateAfter(identity, at, init, policy);
      assert es == init + [e];
      if Restarts(before, e) {
        k := |es|;
        assert es[k..] == [];
      } else {
        WatchedStep(before, e, policy);
        k := CountIsTrailingHealthyScans(identity, at, init, policy);
        ScansOneMore(init, e, k);
        StillWatchedSince(identity, at, init, e, policy, k);
      }
    }
  }

  /** Event i moved the time last seen forward, to its own time. */
  ghost predicate Advances(identity: Identity, at: int, es: seq<Event>, policy: Policy, i: nat) {
    && i < |es|
    && CandidateAfter(identity, at, es[..i], policy).lastSeenAt < es[i].at
    && CandidateAfter(identity, at, es[..i + 1], policy).lastSeenAt == es[i].at
  }

  lemma SeenTimes(c: Candidate, e: Event, policy: Policy)
    ensures var d := Transition(c, e, policy);
      || (d.lastSeenAt == c.lastSeenAt && d.updatedAt == c.updatedAt)
      || (d.lastSeenAt == Max(c.lastSeenAt, e.at) && d.updatedAt == Max(c.updatedAt, e.at))
  {
  }

  /** The time last seen is the first sighting, or the time of an event that did move it there. */
  lemma {:induction false} LastSeenWasObserved(identity: Identity, at: int, es: seq<Event>, policy: Policy)
    ensures var c := CandidateAfter(identity, at, es, policy);
      && c.updatedAt == c.lastSeenAt
      && (c.lastSeenAt == at
          || exists i: nat :: Advances(identity, at, es, policy, i) && es[i].at == c.lastSeenAt)
  {
    assert es[..|es|] == es;
    if es == [] {
    } else {
      var init, e := es[..|es| - 1], es[|es| - 1];
      LastSeenWasObserved(identity, at, init, policy);
      var c := CandidateAfter(identity, at, es, policy);
      var before := CandidateAfter(identity, at, init, policy);
      SeenTimes(before, e, policy);
      if c.lastSeenAt != before.lastSeenAt {
        assert Advances(identity, at, es, policy, |es| - 1);
      } else if c.lastSeenAt != at {
        var i: nat :| Advances(identity, at, init, policy, i) && init[i].at == c.lastSeenAt;
        assert init[..i] == es[..i] && init[..i + 1] == es[..i + 1];
        assert Advances(identity, at, es, policy, i);
      }
    }
  }

  /** While watched, eligible is what a counted healthy scan with both gates met amounts to. */
  lemma {:induction false} WatchedGates(identity: Identity, at: int, es: seq<Event>, policy: Policy)
    ensures var c := CandidateAfter(identity, at, es, policy);
      Watched(c.state) ==> (c.state == State.Eligible <==> c.healthyScanCount >= 1 && MeetsGates(c, policy))
  {
    if es == [] {
    } else {
      WatchedGates(identity, at, es[..|es| - 1], policy);
    }
  }

  /** Something was observed, and counted as seen, at least the observation age after the first sighting. */
  ghost predicate ObservedLongEnough(identity: Identity, at: int, es: seq<Event>, policy: Policy) {
    policy.minObservationMs <= 0
    || exists i: nat :: Advances(identity, at, es, policy, i) && es[i].at >= at + policy.minObservationMs
  }

  /** The time last seen is at or after that of every event that moved it. */
  lemma SeenAtLeast(identity: Identity, at: int, es: seq<Event>, policy: Policy)
    ensures forall i: nat :: Advances(identity, at, es, policy, i) ==>
        es[i].at <= CandidateAfter(identity, at, es, policy).lastSeenAt
  {
    forall i: nat | Advances(identity, at, es, policy, i)
      ensures es[i].at <= CandidateAfter(identity, at, es, policy).lastSeenAt
    {
      HistoryKeeps(Create(identity, at), es, i + 1, policy);
    }
  }

  /**
   * A watched candidate is eligible exactly when since its last restart there were at least
   * max(1, minHealthyScans) healthy scans - and no failing one - and something was observed at
   * least minObservationMs after the first sighting.
   */
  lemma EligibleExactlyWhenEarned(identity: Identity, at: int, es: seq<Event>, policy: Policy)
    requires Watched(CandidateAfter(identity, at, es, policy).state)
    ensures CandidateAfter(identity, at, es, policy).state == State.Eligible <==>
        && (exists k: nat :: WatchedSince(identity, at, es, policy, k) && OnlyHealthyFrom(es, k)
                             && HealthyScans(es[k..]) >= Max(1, policy.minHealthyScans))
        && ObservedLongEnough(identity, at, es, policy)
  {
    var c := CandidateAfter(identity, at, es, policy);
    WatchedGates(identity, at, es, policy);
    HistoryIdentity(Create(identity, at), es, policy);
    var k := CountIsTrailingHealthyScans(identity, at, es, policy);
    forall j: nat | WatchedSince(identity, at, es, policy, j) ensures j == k {
      LastRestartIsUnique(identity, at, es, policy, j, k);
    }
    LastSeenWasObserved(identity, at, es, policy);
    SeenAtLeast(identity, at, es, policy);
    HistoryKeeps(Create(identity, at), es, 0, policy);
  }

  /** Entry number k of the history is the one the candidate is still in. */
  ghost predicate EnteredAt(identity: Identity, at: int, es: seq<Event>, policy: Policy, k: nat) {
    && k < |es| && es[k].EntryConfirmed?
    && Replay(Create(identity, at), es[..k], policy).state == State.Eligible
    && Replay(Create(identity, at), es, policy).enteredAt == Some(es[k].at)
    && forall j :: k < j <= |es| ==> Replay(Create(identity, at), es[..j], policy).state in {Entered, CoolingDown}
  }

  /**
   * A candidate is entered or cooling down only since an entry that found it eligible, and
   * records that entry's time.
   */
  lemma {:induction false} EnteredWasEligible(identity: Identity, at: int, es: seq<Event>, policy: Policy)
    returns (k: nat)
    requires Replay(Create(identity, at), es, policy).state in {Entered, CoolingDown}
    ensures EnteredAt(identity, at, es, policy, k)
  {
    var c0 := Create(identity, at);
    if es == [] {
    } else {
      var init := es[..|es| - 1];
      var before := Replay(c0, init, policy);
      assert es[..|es|] == es;
      if before.state == State.Eligible {
        k := |es| - 1;
      } else {
        k := EnteredWasEligible(identity, at, init, policy);
        assert init[..k] == es[..k];
        forall j | k < j <= |es| ensures Replay(c0, es[..j], policy).state in {Entered, CoolingDown} {
          if j < |es| {
            assert init[..j] == es[..j];
          }
        }
      }
    }
  }

  /** The cooldown that event k of the history started is still to be served. */
  ghost predicate CoolingSince(identity: Identity, at: int, es: seq<Event>, policy: Policy, k: nat) {
    && k < |es| && es[k].CooldownStarted?
    && Replay(Create(identity, at), es[..k], policy).state == Entered
    && Replay(Create(identity, at), es, policy).cooldownUntil == Some(es[k].until)
    && forall j :: k < j < |es| && es[j].CooldownElapsed? ==> es[j].at < es[k].until
  }

  /** A candidate cools down from the event that started it until one at or after the time it set. */
  lemma {:induction false} CooldownIsServed(identity: Identity, at: int, es: seq<Event>, policy: Policy)
    returns (k: nat)
    requires Replay(Create(identity, at), es, policy).state == CoolingDown
    ensures CoolingSince(identity, at, es, policy, k)
  {
    if es == [] {
    } else {
      var init := es[..|es| - 1];
      if Replay(Create(identity, at), init, policy).state == CoolingDown {
        k := CooldownIsServed(identity, at, init, policy);
        assert init[..k] == es[..k];
        assert forall j :: 0 <= j < |init| ==> init[j] == es[j];
      } else {
        k := |es| - 1;
      }
    }
  }
}
