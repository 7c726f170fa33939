/**
 * The wallet safety pause over whole cycles of an autonomous engine: the settlement
 * phase arms or resolves it and reads the stored pause back, the top of the cycle clears a
 * stale execution pause, each pool that gets as far as the drawdown check resolves and arms
 * its own, and the tail arms it for any breach. A cycle without pools stops after the
 * first two. An execution whose settlement rows cannot be saved stores a pause of its own,
 * which the engine learns of only when it reads the stored pause back.
 */
module SafetyPause {
  import opened Prelude
  import opened SettlementJobs
  import opened SettlementStore

  datatype Reason =
    | DailyDrawdown | CoreDataUnavailable | ExecutionFailures | SettlementOverdue | SettlementUnsaved

  datatype Limits = Limits(
    mode: Mode, maxDailyDrawdownPct: real, maxExecutionFailures: int, settlementMaxPendingMs: int)

  /**
   * What outlives a cycle: the pause the engine goes by, the pause stored for the wallet, the
   * two counters, and the drawdown computed last. A resolved pause is none.
   */
  datatype Engine = Engine(
    active: Option<Reason>, stored: Option<Reason>, failures: nat, coreFailures: nat, drawdownPct: real)

  /**
   * One pool's turn. It stops before the drawdown check, at an entry gate or by an error, or it
   * reaches the check and then executes some decisions. unsaved: the settlement rows of one of
   * them could not be saved; failed: the turn ended in an error.
   */
  datatype Visit =
    | Stopped(failed: bool)
    | Reached(drawdownPct: real, dayRolledOver: bool, executions: seq<bool>, unsaved: bool, failed: bool)

  /**
   * What one cycle meets. resumed: the operator has resolved the stored pause by the time it is
   * read back; readFails: that read fails. redeploys: executions of the redeploy pass after the
   * pools, and redeployUnsaved as for a pool.
   */
  datatype Observed = Observed(
    oldestStuckMs: int, resumed: bool, readFails: bool, pools: seq<Visit>, redeploys: seq<bool>,
    redeployUnsaved: bool)

  // ---- Stuck settlements ----

  predicate Stuck(job: Row, now: int) {
    && !job.status.Confirmed? && !job.status.Terminal?
    && (job.nextRetryAt.None? || job.nextRetryAt.value <= now)
  }

  function OldestStuckMs(jobs: seq<Row>, now: int): int {
    if jobs == [] then 0
    else
      var before, job := OldestStuckMs(jobs[..|jobs| - 1], now), jobs[|jobs| - 1];
      if Stuck(job, now) && now - job.createdAt > before then now - job.createdAt else before
  }

  /** Overdue exactly when some stuck job is older than the limit: one with a scheduled retry never counts. */
  lemma {:induction false} OverdueExactly(jobs: seq<Row>, now: int, limit: nat)
    ensures OldestStuckMs(jobs, now) > limit <==>
        exists job :: job in jobs && job.status in {Pending, Retryable, Prepared, Submitted}
          && GetOr(job.nextRetryAt, now) <= now && job.createdAt + limit < now
  {
    if jobs == [] {
    } else {
      OverdueExactly(jobs[..|jobs| - 1], now, limit);
      assert jobs == jobs[..|jobs| - 1] + [jobs[|jobs| - 1]];
    }
  }

  // ---- Decisions ----

  predicate DrawdownBreached(lim: Limits, drawdownPct: real) {
    lim.maxDailyDrawdownPct > 0.0 && drawdownPct >= lim.maxDailyDrawdownPct
  }

  predicate ExecutionBreached(lim: Limits, failures: nat) {
    lim.maxExecutionFailures > 0 && failures >= lim.maxExecutionFailures
  }

  /** The cause of a pause, as the engine stands. It keeps no measure of unsaved settlements. */
  predicate CausePresent(lim: Limits, oldestStuckMs: int, e: Engine, r: Reason) {
    match r
    case DailyDrawdown => DrawdownBreached(lim, e.drawdownPct)
    case CoreDataUnavailable => e.coreFailures >= 2
    case ExecutionFailures => ExecutionBreached(lim, e.failures)
    case SettlementOverdue => oldestStuckMs > lim.settlementMaxPendingMs
    case SettlementUnsaved => false
  }

  function ShouldTrigger(lim: Limits, oldestStuckMs: int, e: Engine): Option<Reason> {
    if DrawdownBreached(lim, e.drawdownPct) then Some(DailyDrawdown)
    else if e.coreFailures >= 2 then Some(CoreDataUnavailable)
    else if ExecutionBreached(lim, e.failures) then Some(ExecutionFailures)
    else if oldestStuckMs > lim.settlementMaxPendingMs then Some(SettlementOverdue)
    else None
  }

  predicate AutoResolvesExecution(lim: Limits, failures: nat) {
    lim.maxExecutionFailures <= 0 || lim.mode.Shadow? || failures < lim.maxExecutionFailures
  }

  predicate AutoResolvesDrawdown(lim: Limits, drawdownPct: real, dayRolledOver: bool) {
    || lim.maxDailyDrawdownPct <= 0.0
    || lim.mode.Shadow?
    || (lim.mode.Canary? && dayRolledOver)
    || drawdownPct < lim.maxDailyDrawdownPct
  }

  /** Arms or resolves a pause, in the engine and in the store, whatever is stored. */
  function Put(e: Engine, pause: Option<Reason>): Engine {
    e.(active := pause, stored := pause)
  }

  /** Settlement rows that could not be saved: the pause is stored, whatever was, and only stored. */
  function NoteUnsaved(e: Engine, unsaved: bool): Engine {
    if unsaved then e.(stored := Some(SettlementUnsaved)) else e
  }

  function SettlementPhase(lim: Limits, oldestStuckMs: int, e: Engine): Engine {
    if oldestStuckMs > lim.settlementMaxPendingMs && e.active.None? then Put(e, Some(SettlementOverdue))
    else if e.active == Some(SettlementOverdue) && oldestStuckMs <= lim.settlementMaxPendingMs then Put(e, None)
    else e
  }

  function ReadBack(o: Observed, e: Engine): Engine {
    var row := if o.resumed then None else e.stored;
    e.(active := if o.readFails then e.active else row, stored := row)
  }

  function ExecutionPhase(lim: Limits, e: Engine): Engine {
    if e.active == Some(ExecutionFailures) && AutoResolvesExecution(lim, e.failures) then Put(e, None) else e
  }

  function DrawdownPhase(lim: Limits, drawdownPct: real, dayRolledOver: bool, e: Engine): Engine {
    var resolved :=
      if e.active == Some(DailyDrawdown) && AutoResolvesDrawdown(lim, drawdownPct, dayRolledOver) then Put(e, None)
      else e;
    if resolved.active.None? && DrawdownBreached(lim, drawdownPct) then Put(resolved, Some(DailyDrawdown))
    else resolved
  }

  /** The counter after some executions. */
  function Counted(failures: nat, executions: seq<bool>): nat {
    if executions == [] then failures
    else if executions[|executions| - 1] then 0
    else Counted(failures, executions[..|executions| - 1]) + 1
  }

  // ---- One cycle ----

  /** The engine after the settlement phase, the reading back and the top of the cycle. */
  function Top(lim: Limits, o: Observed, e: Engine): Engine {
    ExecutionPhase(lim, ReadBack(o, SettlementPhase(lim, o.oldestStuckMs, e)))
  }

  function VisitPool(lim: Limits, v: Visit, e: Engine): Engine {
    match v
    case Stopped(_) => e
    case Reached(drawdownPct, dayRolledOver, executions, unsaved, _) =>
      var checked := DrawdownPhase(lim, drawdownPct, dayRolledOver, e);
      NoteUnsaved(checked.(drawdownPct := drawdownPct, failures := Counted(e.failures, executions)), unsaved)
  }

  function VisitPools(lim: Limits, pools: seq<Visit>, e: Engine): Engine {
    if pools == [] then e
    else VisitPool(lim, pools[|pools| - 1], VisitPools(lim, pools[..|pools| - 1], e))
  }

  /** The executions of a cycle, in order. */
  function PoolExecutions(pools: seq<Visit>): seq<bool> {
    if pools == [] then []
    else
      var last := pools[|pools| - 1];
      PoolExecutions(pools[..|pools| - 1]) + if last.Reached? then last.executions else []
  }

  function Executions(o: Observed): seq<bool> {
    PoolExecutions(o.pools) + o.redeploys
  }

  /** Every pool of the cycle ended in an error. */
  predicate AllFailed(pools: seq<Visit>) {
    forall v :: v in pools ==> v.failed
  }

  /** The counters at the tail: a cycle without a failed execution is quiet and clears its counter. */
  function Tallied(o: Observed, e: Engine): Engine {
    e.(failures := if false in Executions(o) then Counted(e.failures, o.redeploys) else 0,
       coreFailures := if AllFailed(o.pools) then e.coreFailures + 1 else 0)
  }

  function Tail(lim: Limits, o: Observed, e: Engine): Engine {
    var t := Tallied(o, NoteUnsaved(e, o.redeployUnsaved));
    var trigger := ShouldTrigger(lim, o.oldestStuckMs, t);
    if t.active.None? && trigger.Some? then Put(t, trigger) else t
  }

  function Cycle(lim: Limits, o: Observed, e: Engine): Engine {
    var top := Top(lim, o, e);
    if o.pools == [] then top.(failures := 0) else Tail(lim, o, VisitPools(lim, o.pools, top))
  }

  function Run(lim: Limits, os: seq<Observed>, e: Engine): Engine {
    if os == [] then e else Cycle(lim, os[|os| - 1], Run(lim, os[..|os| - 1], e))
  }

  // ---- The stored pause ----

  /** What is stored is the pause the engine goes by, one it has yet to read, or resolved. */
  predicate Coherent(e: Engine) {
    e.stored in {e.active, None, Some(SettlementUnsaved)}
  }

  lemma {:induction false} PoolsKeepCoherent(lim: Limits, pools: seq<Visit>, e: Engine)
    requires Coherent(e)
    ensures Coherent(VisitPools(lim, pools, e))
  {
    if pools == [] {
    } else {
      PoolsKeepCoherent(lim, pools[..|pools| - 1], e);
    }
  }

  lemma CycleKeepsCoherent(lim: Limits, o: Observed, e: Engine)
    requires Coherent(e)
    ensures Coherent(Top(lim, o, e)) && Coherent(Cycle(lim, o, e))
  {
    PoolsKeepCoherent(lim, o.pools, Top(lim, o, e));
  }

  /** Over any run the engine's pause and the stored one differ only by a note of unsaved settlements, or a resume. */
  lemma {:induction false} RunKeepsCoherent(lim: Limits, os: seq<Observed>, e: Engine)
    requires Coherent(e)
    ensures Coherent(Run(lim, os, e))
  {
    if os == [] {
    } else {
      RunKeepsCoherent(lim, os[..|os| - 1], e);
      CycleKeepsCoherent(lim, os[|os| - 1], Run(lim, os[..|os| - 1], e));
    }
  }

  // ---- What the pools do to the pause ----

  /** The drawdown of the last pool that reached the check. */
  function LastDrawdown(pools: seq<Visit>): Option<real> {
    if pools == [] then None
    else
      var last := pools[|pools| - 1];
      if last.Reached? then Some(last.drawdownPct) else LastDrawdown(pools[..|pools| - 1])
  }

  lemma {:induction false} CountedConcat(failures: nat, xs: seq<bool>, ys: seq<bool>)
    ensures Counted(Counted(failures, xs), ys) == Counted(failures, xs + ys)
  {
    if ys == [] {
      assert xs + ys == xs;
    } else {
      assert (xs + ys)[..|xs + ys| - 1] == xs + ys[..|ys| - 1];
      CountedConcat(failures, xs, ys[..|ys| - 1]);
    }
  }

  /** The pause in the pools' hands: none or a drawdown pause, only the last check decides. */
  function Decided(lim: Limits, last: Option<real>, active: Option<Reason>): Option<Reason> {
    if last.None? || (active.Some? && active != Some(DailyDrawdown)) then active
    else if DrawdownBreached(lim, last.value) then Some(DailyDrawdown)
    else None
  }

  /**
   * Whatever the mode, day rollovers included: after the pools only the last one that reached
   * the check decides about a drawdown pause, and any other pause is left alone.
   */
  lemma {:induction false} OnlyLastCheckDecides(lim: Limits, pools: seq<Visit>, e: Engine)
    ensures var t := VisitPools(lim, pools, e);
      && t.active == Decided(lim, LastDrawdown(pools), e.active)
      && t.failures == Counted(e.failures, PoolExecutions(pools)) && t.coreFailures == e.coreFailures
      && t.drawdownPct == GetOr(LastDrawdown(pools), e.drawdownPct)
  {
    if pools == [] {
    } else {
      var init, last := pools[..|pools| - 1], pools[|pools| - 1];
      OnlyLastCheckDecides(lim, init, e);
      if last.Reached? {
        CountedConcat(e.failures, PoolExecutions(init), last.executions);
      } else {
        assert PoolExecutions(init) + [] == PoolExecutions(init);
      }
    }
  }

  function TailFailures(o: Observed, e: Engine): nat {
    if false in Executions(o) then Counted(e.failures, Executions(o)) else 0
  }

  function TailCoreFailures(o: Observed, e: Engine): nat {
    if AllFailed(o.pools) then e.coreFailures + 1 else 0
  }

  /** The pause at the tail, before it is armed. */
  function TailPause(lim: Limits, o: Observed, e: Engine): Option<Reason> {
    Decided(lim, LastDrawdown(o.pools), Top(lim, o, e).active)
  }

  lemma TailFields(lim: Limits, o: Observed, e: Engine)
    ensures var after := Tail(lim, o, e);
      && after.failures == (if false in Executions(o) then Counted(e.failures, o.redeploys) else 0)
      && after.coreFailures == TailCoreFailures(o, e) && after.drawdownPct == e.drawdownPct
      && after.active == if e.active.None? then ShouldTrigger(lim, o.oldestStuckMs, after) else e.active
  {
  }

  lemma TopKeepsCounters(lim: Limits, o: Observed, e: Engine)
    ensures var top := Top(lim, o, e);
      top.failures == e.failures && top.coreFailures == e.coreFailures && top.drawdownPct == e.drawdownPct
  {
  }

  lemma TailCounts(o: Observed, e: Engine, t: Engine)
    requires t.failures == Counted(e.failures, PoolExecutions(o.pools))
    ensures false in Executions(o) ==> Counted(t.failures, o.redeploys) == TailFailures(o, e)
  {
    CountedConcat(e.failures, PoolExecutions(o.pools), o.redeploys);
  }

  /** A cycle with pools, by what it observed. */
  lemma CycleByTail(lim: Limits, o: Observed, e: Engine)
    requires o.pools != []
    ensures var after := Cycle(lim, o, e);
      && after.failures == TailFailures(o, e) && after.coreFailures == TailCoreFailures(o, e)
      && after.drawdownPct == GetOr(LastDrawdown(o.pools), e.drawdownPct)
      && after.active == if TailPause(lim, o, e).None? then ShouldTrigger(lim, o.oldestStuckMs, after)
                         else TailPause(lim, o, e)
  {
    var top := Top(lim, o, e);
    TopKeepsCounters(lim, o, e);
    OnlyLastCheckDecides(lim, o.pools, top);
    TailCounts(o, top, VisitPools(lim, o.pools, top));
    TailFields(lim, o, VisitPools(lim, o.pools, top));
  }

  // ---- One cycle ----

  /** From no pause, the pause at the top: overdue settlements, or a note of unsaved ones that is read back. */
  function FreshTop(lim: Limits, o: Observed, e: Engine): Option<Reason> {
    if o.oldestStuckMs > lim.settlementMaxPendingMs then
      if o.readFails || !o.resumed then Some(SettlementOverdue) else None
    else if o.readFails || o.resumed then None
    else e.stored
  }

  /**
   * From no pause, the reason a cycle ends with. The settlement phase runs first, so an overdue
   * settlement is reported before a breached drawdown, and over a note of unsaved settlements;
   * and the drawdown compared at the tail is the last one computed, in this cycle or an earlier one.
   */
  lemma FreshPauseReason(lim: Limits, o: Observed, e: Engine)
    requires Coherent(e) && e.active.None?
    ensures FreshTop(lim, o, e) in {None, Some(SettlementOverdue), Some(SettlementUnsaved)}
    ensures Cycle(lim, o, e).active ==
        if FreshTop(lim, o, e).Some? then FreshTop(lim, o, e)
        else if o.pools == [] then None
        else if 0.0 < lim.maxDailyDrawdownPct <= GetOr(LastDrawdown(o.pools), e.drawdownPct) then Some(DailyDrawdown)
        else if TailCoreFailures(o, e) >= 2 then Some(CoreDataUnavailable)
        else if 0 < lim.maxExecutionFailures <= TailFailures(o, e) then Some(ExecutionFailures)
        else if o.oldestStuckMs > lim.settlementMaxPendingMs then Some(SettlementOverdue)
        else None
  {
    if o.pools != [] {
      CycleByTail(lim, o, e);
    }
  }

  /** The engine still goes by the pause it had: the row was not read, or it is that pause, unresolved. */
  predicate StillStands(o: Observed, e: Engine) {
    o.readFails || (!o.resumed && e.stored == e.active)
  }

  /**
   * Exactly when a drawdown pause outlives its cause: it was active, it was neither resumed nor
   * replaced by a note of unsaved settlements, and no pool of the cycle reached the check that
   * would have cleared it.
   */
  lemma DrawdownPauseOutlivesExactly(lim: Limits, o: Observed, e: Engine)
    requires Coherent(e)
    ensures var after := Cycle(lim, o, e);
      after.active == Some(DailyDrawdown) && !DrawdownBreached(lim, after.drawdownPct) <==>
        && e.active == Some(DailyDrawdown) && StillStands(o, e)
        && LastDrawdown(o.pools).None? && !DrawdownBreached(lim, e.drawdownPct)
  {
    if o.pools != [] {
      CycleByTail(lim, o, e);
    }
  }

  /**
   * The pauses a cycle can end with although the engine sees no cause, exactly: a drawdown pause no
   * pool looked at, a core-data pause nobody resumed, an execution pause whose counter was still
   * at the limit at the top of the cycle, and any pause for unsaved settlements.
   */
  predicate Lingers(lim: Limits, o: Observed, e: Engine, after: Engine) {
    var top := Top(lim, o, e).active;
    && top.Some?
    && match top.value
       case DailyDrawdown => LastDrawdown(o.pools).None? && !DrawdownBreached(lim, e.drawdownPct)
       case CoreDataUnavailable => after.coreFailures < 2
       case ExecutionFailures => !ExecutionBreached(lim, after.failures)
       case SettlementOverdue => false
       case SettlementUnsaved => true
  }

  lemma PauseHasACause(lim: Limits, o: Observed, e: Engine)
    requires Coherent(e)
    ensures var after := Cycle(lim, o, e);
      after.active.Some? && !CausePresent(lim, o.oldestStuckMs, after, after.active.value) <==>
      Lingers(lim, o, e, after)
    ensures Lingers(lim, o, e, Cycle(lim, o, e)) ==>
        Cycle(lim, o, e).active in {e.active, Some(SettlementUnsaved)}
  {
    if o.pools != [] {
      CycleByTail(lim, o, e);
    }
  }

  /**
   * A breach goes unanswered exactly in a cycle without pools whose top leaves no pause: the
   * tail that would arm it is never reached.
   */
  lemma BreachPauses(lim: Limits, o: Observed, e: Engine)
    ensures var after := Cycle(lim, o, e);
      after.active.None? && (exists r :: CausePresent(lim, o.oldestStuckMs, after, r)) <==>
        && o.pools == [] && Top(lim, o, e).active.None?
        && (DrawdownBreached(lim, e.drawdownPct) || e.coreFailures >= 2
            || o.oldestStuckMs > lim.settlementMaxPendingMs)
  {
    var after := Cycle(lim, o, e);
    if o.pools != [] {
      CycleByTail(lim, o, e);
    } else {
      assert CausePresent(lim, o.oldestStuckMs, after, DailyDrawdown) <==> DrawdownBreached(lim, e.drawdownPct);
      assert CausePresent(lim, o.oldestStuckMs, after, CoreDataUnavailable) <==> e.coreFailures >= 2;
      assert CausePresent(lim, o.oldestStuckMs, after, SettlementOverdue) <==>
             o.oldestStuckMs > lim.settlementMaxPendingMs;
    }
  }

  /**
   * An execution pause that is read back is cleared at the top of a cycle exactly when its limit is
   * off, the mode is shadow, or the counter is below the limit.
   */
  lemma ExecutionPauseClearsExactly(lim: Limits, o: Observed, e: Engine)
    requires e.active == e.stored == Some(ExecutionFailures) && !o.resumed
    ensures Top(lim, o, e) ==
        if lim.maxExecutionFailures <= 0 || lim.mode.Shadow? || e.failures < lim.maxExecutionFailures
        then e.(active := None, stored := None) else e
  {
  }

  /** An execution pause cleared at the top of a cycle comes back only if an execution fails in that cycle. */
  lemma NoToggle(lim: Limits, o: Observed, e: Engine)
    requires e.active == Some(ExecutionFailures) && Top(lim, o, e).active.None?
    ensures Cycle(lim, o, e).active == Some(ExecutionFailures) ==> false in Executions(o)
  {
    if o.pools != [] {
      CycleByTail(lim, o, e);
    }
  }

  // ---- Unsaved settlements ----

  /** The pool's check resolves or arms a drawdown pause, and so overwrites the stored pause. */
  predicate Overwrites(lim: Limits, v: Visit, active: Option<Reason>) {
    && v.Reached?
    && var off := lim.maxDailyDrawdownPct <= 0.0;
       if active == Some(DailyDrawdown) then
         off || lim.mode.Shadow? || (lim.mode.Canary? && v.dayRolledOver) || v.drawdownPct < lim.maxDailyDrawdownPct
       else active.None? && !off && v.drawdownPct >= lim.maxDailyDrawdownPct
  }

  /** No check from pool k on overwrites the stored pause, when the pools start under this one. */
  ghost predicate UntouchedFrom(lim: Limits, pools: seq<Visit>, k: nat, active: Option<Reason>) {
    forall j :: k <= j < |pools| ==> !Overwrites(lim, pools[j], Decided(lim, LastDrawdown(pools[..j]), active))
  }

  predicate UnsavedAt(pools: seq<Visit>, k: nat) {
    k < |pools| && pools[k].Reached? && pools[k].unsaved
  }

  /** The note of pool k is the last thing the pools store. */
  ghost predicate NoteOf(lim: Limits, pools: seq<Visit>, k: nat, active: Option<Reason>) {
    UnsavedAt(pools, k) && UntouchedFrom(lim, pools, k + 1, active)
  }

  ghost predicate SomeNote(lim: Limits, pools: seq<Visit>, active: Option<Reason>) {
    exists k: nat :: NoteOf(lim, pools, k, active)
  }

  lemma UntouchedSnoc(lim: Limits, pools: seq<Visit>, k: nat, active: Option<Reason>)
    requires k < |pools|
    ensures var n := |pools| - 1;
      UntouchedFrom(lim, pools, k, active) <==>
        && UntouchedFrom(lim, pools[..n], k, active)
        && !Overwrites(lim, pools[n], Decided(lim, LastDrawdown(pools[..n]), active))
  {
    var n := |pools| - 1;
    assert forall j :: 0 <= j < n ==> pools[..n][..j] == pools[..j] && pools[..n][j] == pools[j];
  }

  lemma NoteOfSnoc(lim: Limits, pools: seq<Visit>, k: nat, active: Option<Reason>)
    requires pools != []
    ensures var n := |pools| - 1;
      NoteOf(lim, pools, k, active) <==>
        if k == n then UnsavedAt(pools, n)
        else NoteOf(lim, pools[..n], k, active)
             && !Overwrites(lim, pools[n], Decided(lim, LastDrawdown(pools[..n]), active))
  {
    if k < |pools| - 1 {
      UntouchedSnoc(lim, pools, k + 1, active);
    }
  }

  lemma SomeNoteSnoc(lim: Limits, pools: seq<Visit>, active: Option<Reason>)
    requires pools != []
    ensures var n := |pools| - 1;
      SomeNote(lim, pools, active) <==>
        || UnsavedAt(pools, n)
        || (SomeNote(lim, pools[..n], active)
            && !Overwrites(lim, pools[n], Decided(lim, LastDrawdown(pools[..n]), active)))
  {
    var n := |pools| - 1;
    NoteOfSnoc(lim, pools, n, active);
    if k: nat :| NoteOf(lim, pools, k, active) {
      NoteOfSnoc(lim, pools, k, active);
    }
    if k: nat :| NoteOf(lim, pools[..n], k, active) {
      NoteOfSnoc(lim, pools, k, active);
    }
  }

  /**
   * Exactly when a note of unsaved settlements is stored after the pools: it is one of theirs or was
   * there before, and no check since has overwritten it.
   */
  lemma {:induction false} NoteLeftExactly(lim: Limits, pools: seq<Visit>, e: Engine)
    ensures VisitPools(lim, pools, e).stored == Some(SettlementUnsaved) <==>
        || SomeNote(lim, pools, e.active)
        || (e.stored == Some(SettlementUnsaved) && UntouchedFrom(lim, pools, 0, e.active))
  {
    if pools == [] {
    } else {
      var init, last := pools[..|pools| - 1], pools[|pools| - 1];
      NoteLeftExactly(lim, init, e);
      SomeNoteSnoc(lim, pools, e.active);
      UntouchedSnoc(lim, pools, 0, e.active);
      OnlyLastCheckDecides(lim, init, e);
    }
  }

  /** The tail arms a pause, and so overwrites the stored one. */
  predicate TailArms(lim: Limits, o: Observed, e: Engine) {
    o.pools != [] && TailPause(lim, o, e).None? && Cycle(lim, o, e).active.Some?
  }

  lemma TailStores(lim: Limits, o: Observed, e: Engine)
    ensures var after := Tail(lim, o, e);
      after.stored == if e.active.None? && after.active.Some? then after.active
                      else if o.redeployUnsaved then Some(SettlementUnsaved) else e.stored
    ensures e.active.None? ==> Tail(lim, o, e).active != Some(SettlementUnsaved)
  {
  }

  /**
   * Exactly when a cycle ends with a note of unsaved settlements stored, for the next one to read:
   * it is from the redeploys, a pool or an earlier cycle, and no later check, nor the tail,
   * overwrote it.
   */
  lemma NoteStandsExactly(lim: Limits, o: Observed, e: Engine)
    ensures var top := Top(lim, o, e);
      Cycle(lim, o, e).stored == Some(SettlementUnsaved) <==>
        && !TailArms(lim, o, e)
        && (|| (o.pools != [] && (o.redeployUnsaved || SomeNote(lim, o.pools, top.active)))
            || (top.stored == Some(SettlementUnsaved) && UntouchedFrom(lim, o.pools, 0, top.active)))
  {
    var top := Top(lim, o, e);
    NoteLeftExactly(lim, o.pools, top);
    if o.pools != [] {
      CycleByTail(lim, o, e);
      OnlyLastCheckDecides(lim, o.pools, top);
      TailStores(lim, o, VisitPools(lim, o.pools, top));
    }
  }

  /**
   * Exactly when a stored note pauses the next cycle: the row is read and unresolved, and the
   * settlement phase, which goes by the engine's own pause, has not just armed or resolved one over it.
   */
  lemma NoteIsReadExactly(lim: Limits, o: Observed, e: Engine)
    requires Coherent(e)
    ensures Top(lim, o, e).active == Some(SettlementUnsaved) <==>
        if o.readFails then e.active == Some(SettlementUnsaved)
        else
          && e.stored == Some(SettlementUnsaved) && !o.resumed
          && !(e.active.None? && o.oldestStuckMs > lim.settlementMaxPendingMs)
          && !(e.active == Some(SettlementOverdue) && o.oldestStuckMs <= lim.settlementMaxPendingMs)
  {
  }

  /** A cycle in which an exit cannot save its settlements and a later pool breaches the drawdown limit. */
  function ForgettingCycle(lim: Limits): Observed {
    Observed(0, false, false,
             [Reached(0.0, false, [true], true, false), Reached(lim.maxDailyDrawdownPct, false, [], false, false)],
             [], false)
  }

  ghost predicate SomeUnsaved(pools: seq<Visit>) {
    exists k: nat :: UnsavedAt(pools, k)
  }

  /** Some settlement row of the cycle could not be saved. */
  ghost predicate SavesFail(o: Observed) {
    o.pools != [] && (o.redeployUnsaved || SomeUnsaved(o.pools))
  }

  /** The pause that the failed save stored is then gone before anything has read it. */
  lemma NoteIsForgotten(lim: Limits)
    requires lim.maxDailyDrawdownPct > 0.0 && lim.settlementMaxPendingMs >= 0
    ensures var e := Engine(None, None, 0, 0, 0.0);
      SavesFail(ForgettingCycle(lim)) && Cycle(lim, ForgettingCycle(lim), e).stored == Some(DailyDrawdown)
  {
    var e := Engine(None, None, 0, 0, 0.0);
    var o := ForgettingCycle(lim);
    var first := o.pools[0];
    assert UnsavedAt(o.pools, 0);
    assert o.pools[..1] == [first] && [first][..0] == [];
    var t := VisitPool(lim, first, VisitPools(lim, [], e));
    assert VisitPools(lim, [first], e) == t;
    assert t.active.None? && t.stored == Some(SettlementUnsaved);
  }

  // ---- Many cycles ----

  /** The pauses that the engine itself neither arms again nor resolves. */
  predicate Held(pause: Option<Reason>) {
    pause == Some(CoreDataUnavailable) || pause == Some(SettlementUnsaved)
  }

  lemma {:induction false} PoolsUnderHeld(lim: Limits, pools: seq<Visit>, e: Engine)
    requires Held(e.active)
    ensures VisitPools(lim, pools, e).stored == if SomeUnsaved(pools) then Some(SettlementUnsaved) else e.stored
  {
    if pools == [] {
    } else {
      var n := |pools| - 1;
      PoolsUnderHeld(lim, pools[..n], e);
      OnlyLastCheckDecides(lim, pools[..n], e);
      assert forall k: nat :: k < n ==> (UnsavedAt(pools[..n], k) <==> UnsavedAt(pools, k));
      if UnsavedAt(pools, n) {
        assert SomeUnsaved(pools);
      } else if k: nat :| UnsavedAt(pools[..n], k) {
        assert UnsavedAt(pools, k);
      }
    }
  }

  lemma HeldStep(lim: Limits, o: Observed, e: Engine)
    requires Held(e.active) && Held(e.stored) && !o.resumed
    ensures var after := Cycle(lim, o, e);
      && after.active == (if o.readFails then e.active else e.stored)
      && after.stored == if SavesFail(o) then Some(SettlementUnsaved) else e.stored
  {
    var top := Top(lim, o, e);
    if o.pools != [] {
      CycleByTail(lim, o, e);
      OnlyLastCheckDecides(lim, o.pools, top);
      PoolsUnderHeld(lim, o.pools, top);
      TailStores(lim, o, VisitPools(lim, o.pools, top));
    }
  }

  /** Some save of settlements failed before a cycle that read the stored pause. */
  ghost predicate FailedSince(os: seq<Observed>) {
    exists i, j :: 0 <= i < j < |os| && SavesFail(os[i]) && !os[j].readFails
  }

  ghost predicate AnySaveFailed(os: seq<Observed>) {
    exists i :: 0 <= i < |os| && SavesFail(os[i])
  }

  lemma AnySaveFailedSnoc(os: seq<Observed>)
    requires os != []
    ensures var n := |os| - 1;
      && (AnySaveFailed(os) <==> AnySaveFailed(os[..n]) || SavesFail(os[n]))
      && (FailedSince(os) <==> FailedSince(os[..n]) || (AnySaveFailed(os[..n]) && !os[n].readFails))
  {
    var n := |os| - 1;
    if i :| 0 <= i < |os[..n]| && SavesFail(os[..n][i]) {
      assert SavesFail(os[i]);
    }
    if i, j :| 0 <= i < j < |os[..n]| && SavesFail(os[..n][i]) && !os[..n][j].readFails {
      assert SavesFail(os[i]) && !os[j].readFails;
    }
    if i, j :| 0 <= i < j < |os| && SavesFail(os[i]) && !os[j].readFails {
      assert SavesFail(os[..n][i]);
      assert j < n ==> !os[..n][j].readFails;
    }
  }

  /**
   * A core-data pause that nobody resumes lasts through every run, unless settlements cannot be
   * saved: then the pause for that replaces it, as soon as the stored pause is read, and lasts.
   */
  lemma {:induction false} CorePauseStays(lim: Limits, os: seq<Observed>, e: Engine)
    requires e.active == e.stored == Some(CoreDataUnavailable)
    requires forall k :: 0 <= k < |os| ==> !os[k].resumed
    ensures var t := Run(lim, os, e);
      && t.active == Some(if FailedSince(os) then SettlementUnsaved else CoreDataUnavailable)
      && t.stored == Some(if AnySaveFailed(os) then SettlementUnsaved else CoreDataUnavailable)
  {
    if os == [] {
    } else {
      CorePauseStays(lim, os[..|os| - 1], e);
      HeldStep(lim, os[|os| - 1], Run(lim, os[..|os| - 1], e));
      AnySaveFailedSnoc(os);
    }
  }

  /** A pause for unsaved settlements is never resolved but by an operator. */
  lemma {:induction false} UnsavedPauseStays(lim: Limits, os: seq<Observed>, e: Engine)
    requires e.active == e.stored == Some(SettlementUnsaved)
    requires forall k :: 0 <= k < |os| ==> !os[k].resumed
    ensures Run(lim, os, e).active == Run(lim, os, e).stored == Some(SettlementUnsaved)
  {
    if os == [] {
    } else {
      UnsavedPauseStays(lim, os[..|os| - 1], e);
      HeldStep(lim, os[|os| - 1], Run(lim, os[..|os| - 1], e));
    }
  }

  // ---- A drawdown pause over many cycles ----

  /** The pools of a cycle leave a drawdown pause in place: none looked, or the last one saw a breach. */
  predicate LeavesDrawdownPause(lim: Limits, o: Observed) {
    LastDrawdown(o.pools).Some? ==> DrawdownBreached(lim, LastDrawdown(o.pools).value)
  }

  /** Under a drawdown pause, the cycle leaves a note of its own unsaved settlements. */
  ghost predicate Notes(lim: Limits, o: Observed) {
    o.pools != [] && (o.redeployUnsaved || SomeNote(lim, o.pools, Some(DailyDrawdown)))
  }

  /** Under a drawdown pause, the cycle leaves an earlier note as it was. */
  ghost predicate Untouched(lim: Limits, o: Observed) {
    UntouchedFrom(lim, o.pools, 0, Some(DailyDrawdown))
  }

  lemma {:induction false} PoolsKeepTight(lim: Limits, pools: seq<Visit>, e: Engine)
    requires e.stored in {e.active, Some(SettlementUnsaved)}
    ensures var t := VisitPools(lim, pools, e); t.stored in {t.active, Some(SettlementUnsaved)}
  {
    if pools == [] {
    } else {
      PoolsKeepTight(lim, pools[..|pools| - 1], e);
    }
  }

  lemma DrawdownPauseStep(lim: Limits, o: Observed, e: Engine)
    requires e.active == Some(DailyDrawdown) && !o.resumed
    requires e.stored in {Some(DailyDrawdown), Some(SettlementUnsaved)}
    ensures var after := Cycle(lim, o, e);
      && (after.active == Some(DailyDrawdown) <==>
            LeavesDrawdownPause(lim, o) && (o.readFails || e.stored == Some(DailyDrawdown)))
      && (after.active == Some(DailyDrawdown) ==>
            && after.stored in {Some(DailyDrawdown), Some(SettlementUnsaved)}
            && (after.stored == Some(SettlementUnsaved) <==>
                  Notes(lim, o) || (e.stored == Some(SettlementUnsaved) && Untouched(lim, o))))
  {
    var top := Top(lim, o, e);
    NoteStandsExactly(lim, o, e);
    if o.pools != [] {
      CycleByTail(lim, o, e);
      OnlyLastCheckDecides(lim, o.pools, top);
      PoolsKeepTight(lim, o.pools, top);
      TailStores(lim, o, VisitPools(lim, o.pools, top));
    }
  }

  /** The i-th cycle leaves a note and the later ones leave it as it is. */
  ghost predicate NoteFrom(lim: Limits, os: seq<Observed>, i: nat)
    requires i < |os|
  {
    Notes(lim, os[i]) && forall j :: i < j < |os| ==> Untouched(lim, os[j])
  }

  /** A note of unsaved settlements is stored after these cycles, all under a drawdown pause. */
  ghost predicate NoteStands(lim: Limits, os: seq<Observed>) {
    exists i :: 0 <= i < |os| && NoteFrom(lim, os, i)
  }

  lemma NoteStandsSnoc(lim: Limits, os: seq<Observed>)
    requires os != []
    ensures var n := |os| - 1;
      NoteStands(lim, os) <==> Notes(lim, os[n]) || (NoteStands(lim, os[..n]) && Untouched(lim, os[n]))
  {
    var n := |os| - 1;
    forall i | 0 <= i < n
      ensures NoteFrom(lim, os, i) <==> NoteFrom(lim, os[..n], i) && Untouched(lim, os[n])
    {
      assert forall j :: 0 <= j < n ==> os[..n][j] == os[j];
    }
    assert NoteFrom(lim, os, n) <==> Notes(lim, os[n]);
  }

  /** Every cycle of the run ended with the drawdown pause active. */
  predicate PausedThroughout(lim: Limits, os: seq<Observed>, e: Engine) {
    && Run(lim, os, e).active == Some(DailyDrawdown)
    && (os != [] ==> PausedThroughout(lim, os[..|os| - 1], e))
  }

  /** The k-th cycle leaves the drawdown pause: its checks do, and it reads no note of unsaved settlements. */
  ghost predicate LeavesPauseAt(lim: Limits, os: seq<Observed>, k: nat)
    requires k < |os|
  {
    LeavesDrawdownPause(lim, os[k]) && (os[k].readFails || !NoteStands(lim, os[..k]))
  }

  lemma {:induction false} StoredUnderDrawdown(lim: Limits, os: seq<Observed>, e: Engine)
    requires e.active == e.stored == Some(DailyDrawdown) && PausedThroughout(lim, os, e)
    requires forall k :: 0 <= k < |os| ==> !os[k].resumed
    ensures Run(lim, os, e).stored == Some(if NoteStands(lim, os) then SettlementUnsaved else DailyDrawdown)
  {
    if os == [] {
    } else {
      StoredUnderDrawdown(lim, os[..|os| - 1], e);
      DrawdownPauseStep(lim, os[|os| - 1], Run(lim, os[..|os| - 1], e));
      NoteStandsSnoc(lim, os);
    }
  }

  /**
   * A drawdown pause that nobody resumes lasts through a run exactly while no cycle's last drawdown
   * check is below the limit and no cycle reads a note of unsaved settlements; cycles in which
   * no pool reaches the check never end it.
   */
  lemma {:induction false} DrawdownPauseStaysExactly(lim: Limits, os: seq<Observed>, e: Engine)
    requires e.active == e.stored == Some(DailyDrawdown)
    requires forall k :: 0 <= k < |os| ==> !os[k].resumed
    ensures PausedThroughout(lim, os, e) <==> forall k :: 0 <= k < |os| ==> LeavesPauseAt(lim, os, k)
  {
    if os == [] {
    } else {
      var n := |os| - 1;
      DrawdownPauseStaysExactly(lim, os[..n], e);
      forall k | 0 <= k < n
        ensures LeavesPauseAt(lim, os, k) <==> LeavesPauseAt(lim, os[..n], k)
      {
        assert os[..n][..k] == os[..k];
      }
      if PausedThroughout(lim, os[..n], e) {
        StoredUnderDrawdown(lim, os[..n], e);
        DrawdownPauseStep(lim, os[n], Run(lim, os[..n], e));
        assert LeavesPauseAt(lim, os, n) <==> PausedThroughout(lim, os, e);
      }
    }
  }

  // ---- An execution pause over two cycles ----

  /** The last n executions of the list failed. */
  predicate FailedLast(executions: seq<bool>, n: nat) {
    n <= |executions| && forall k :: |executions| - n <= k < |executions| ==> !executions[k]
  }

  lemma {:induction false} CountedMeaning(failures: nat, executions: seq<bool>)
    ensures true in executions ==>
        && FailedLast(executions, Counted(failures, executions))
        && !FailedLast(executions, Counted(failures, executions) + 1)
    ensures true !in executions ==> Counted(failures, executions) == failures + |executions|
  {
    if executions == [] {
    } else {
      var init := executions[..|executions| - 1];
      assert executions == init + [executions[|executions| - 1]];
      CountedMeaning(failures, init);
      if !executions[|executions| - 1] && true in init {
        var n := Counted(failures, init);
        assert FailedLast(executions, n + 1);
        if n + 2 <= |executions| {
          var k :| |init| - (n + 1) <= k < |init| && init[k];
          assert executions[k];
        }
      }
    }
  }

  /**
   * After a quiet cycle, one without pools included, an execution pause is cleared at the top of
   * the next one, which ends with one only if its own last executions failed, as many as the limit.
   */
  lemma QuietCycleClears(lim: Limits, quiet: Observed, next: Observed, e: Engine)
    requires quiet.pools == [] || false !in Executions(quiet)
    ensures var first := Cycle(lim, quiet, e);
      && first.failures == 0
      && Top(lim, next, first).active != Some(ExecutionFailures)
      && (Cycle(lim, next, first).active == Some(ExecutionFailures) ==>
            lim.maxExecutionFailures > 0 && FailedLast(Executions(next), lim.maxExecutionFailures))
  {
    var first := Cycle(lim, quiet, e);
    if quiet.pools != [] {
      CycleByTail(lim, quiet, e);
    }
    if next.pools != [] {
      CycleByTail(lim, next, first);
      var executions := Executions(next);
      CountedMeaning(0, executions);
      if Cycle(lim, next, first).active == Some(ExecutionFailures) && true !in executions {
        assert forall k :: 0 <= k < |executions| ==> executions[k] in executions;
      }
    }
  }
}
