/**
 * What one processing of a job decides, in plain terms of the row and the replies: which jobs
 * are sold, which are written off as dust, and what the saved row says in every case.
 */
module SettlementDecisions {
  import opened Prelude
  import opened SettlementJobs

  // ---- The conditions ----

  predicate Unrecorded(job: Row) {
    job.confirmedOutputAtomic.None? || job.outputUsd.None? || job.executionCostUsd.None?
  }

  /** Neither final nor waiting for its retry time. */
  predicate IsDue(job: Row, now: int) {
    !job.status.Terminal? && GetOr(job.nextRetryAt, now) <= now && (job.status.Confirmed? ==> Unrecorded(job))
  }

  /** The job is due, and no earlier broadcast of it is or may be on the chain, as far as can be read. */
  predicate NeedsSwap(now: int, r: Replies, job: Row) {
    && IsDue(job, now) && !(job.status.Prepared? && job.txSignature.None?)
    && (job.txSignature.Some? ==> r.swapStatus.None? || r.swapStatus == Some(Ok(TxFailed)))
  }

  /** The price that was quoted for a mint; an unknown one counts as zero. */
  function Quoted(prices: Call<map<string, real>>, mint: string): real {
    if prices.Ok? && mint in prices.value then prices.value[mint] else 0.0
  }

  /** The job's amount, or the balance that was read if that is less. */
  function Sellable(r: Replies, job: Row): int {
    if r.balance.Some? && r.balance.value.Ok? then Min(job.amountAtomic, r.balance.value.value) else job.amountAtomic
  }

  function Usd(amountAtomic: int, decimals: nat, price: real): real {
    amountAtomic as real / Pow10(decimals) as real * price
  }

  predicate StartsWith(s: string, prefix: string) {
    |prefix| <= |s| && s[..|prefix|] == prefix
  }

  /** Known to be worth less than the cutoff, or of unknown worth and not a real position's. */
  predicate IsDust(dustUsd: real, r: Replies, job: Row)
    requires r.decimals.Ok?
  {
    var price := Quoted(r.prices, job.tokenMint);
    && dustUsd > 0.0
    && if price > 0.0 then Usd(Sellable(r, job), r.decimals.value, price) < dustUsd
       else StartsWith(job.positionId, "orphan:") || StartsWith(job.positionId, "rollback:")
  }

  /** The amount can be valued and is worth a swap. */
  predicate WorthSelling(dustUsd: real, r: Replies, job: Row) {
    && Quoted(r.prices, SOL_MINT) > 0.0 && Sellable(r, job) > 0 && job.tokenMint != SOL_MINT
    && r.decimals.Ok? && !IsDust(dustUsd, r, job)
  }

  /** Every step up to and including the broadcast succeeds. */
  predicate ReachesNetwork(r: Replies) {
    && r.hasSwapOps && r.quote.Ok? && r.prepare.Ok? && r.simulate.Ok? && r.nativeBefore.Ok? && r.savePrepared.Ok?
    && !r.submission.Refused?
  }

  // ---- Scaling ----

  /** Pow10 counts powers of ten. */
  lemma {:induction false} Pow10Adds(m: nat, n: nat)
    ensures Pow10(1) == 10 && Pow10(m + n) == Pow10(m) * Pow10(n)
  {
    assert Pow10(1) == 10 * Pow10(0);
    if m == 0 {
    } else {
      Pow10Adds(m - 1, n);
    }
  }

  lemma UsdIs(amountAtomic: nat, decimals: nat, price: real)
    ensures AtomicUsd(amountAtomic, decimals, price) == Usd(amountAtomic, decimals, price)
  {
    AtomicUsdExact(amountAtomic, decimals, price);
  }

  // ---- What is sold ----

  lemma FreshAttempt(now: int, dustUsd: real, r: Replies, job: Row)
    requires NeedsSwap(now, r, job)
    ensures !Skippable(job, now) && Attempted(now, dustUsd, r, job) == Settle(now, dustUsd, r, job)
  {
  }

  lemma NoFreshAttempt(now: int, dustUsd: real, r: Replies, job: Row)
    requires !NeedsSwap(now, r, job)
    ensures Process(now, dustUsd, r, job).sale.None?
  {
  }

  lemma DustRecordExactly(now: int, dustUsd: real, r: Replies, job: Row)
    requires r.decimals.Ok? && r.prices.Ok? && Sellable(r, job) >= 0
    ensures var amount, price := Sellable(r, job), Quoted(r.prices, job.tokenMint);
      var dust := DustRecord(now, dustUsd, job, amount, r.decimals.value, price);
      && (dust.Some? <==> IsDust(dustUsd, r, job))
      && (dust.Some? ==> dust.value == ConfirmedRow(job, now, job.attempts + 1, amount,
                           Usd(amount, r.decimals.value, price), 0.0,
                           Some(if price > 0.0 then DustSkipped else DustUnpriced)))
  {
    UsdIs(Sellable(r, job), r.decimals.value, Quoted(r.prices, job.tokenMint));
  }

  /**
   * A job is sold exactly when it needs a swap, is worth one, and every step up to the broadcast
   * succeeds; and what is sold is the amount that could be sold.
   */
  lemma SoldExactly(now: int, dustUsd: real, r: Replies, job: Row)
    ensures Process(now, dustUsd, r, job).sale.Some? <==>
            NeedsSwap(now, r, job) && WorthSelling(dustUsd, r, job) && ReachesNetwork(r)
    ensures var sale := Process(now, dustUsd, r, job).sale;
      sale.Some? ==> sale.value.signature == r.submission.signature && sale.value.amount == Sellable(r, job)
  {
    if NeedsSwap(now, r, job) {
      FreshAttempt(now, dustUsd, r, job);
      if r.decimals.Ok? && r.prices.Ok? {
        DustRecordExactly(now, dustUsd, r, job);
      }
    } else {
      NoFreshAttempt(now, dustUsd, r, job);
    }
  }

  // ---- What is saved when nothing is sold ----

  /** A processing that sends nothing and saves this row, if it can. */
  function JustSaves(r: Replies, row: Row): Outcome {
    if r.saveResult then Outcome([row], None, Some(row)) else Outcome([], None, None)
  }

  /** Dust is recorded as recovered in full: the amount itself, its own value, no cost. */
  lemma DustIsConfirmed(now: int, dustUsd: real, r: Replies, job: Row)
    requires NeedsSwap(now, r, job) && Quoted(r.prices, SOL_MINT) > 0.0 && Sellable(r, job) > 0
    requires job.tokenMint != SOL_MINT && r.decimals.Ok? && IsDust(dustUsd, r, job)
    ensures var amount, price := Sellable(r, job), Quoted(r.prices, job.tokenMint);
      Process(now, dustUsd, r, job) == JustSaves(r,
        job.(status := Confirmed, attempts := job.attempts + 1, nextRetryAt := None,
             confirmedOutputAtomic := Some(amount), outputUsd := Some(Usd(amount, r.decimals.value, price)),
             executionCostUsd := Some(0.0), error := Some(if price > 0.0 then DustSkipped else DustUnpriced),
             updatedAt := now))
  {
    FreshAttempt(now, dustUsd, r, job);
    DustRecordExactly(now, dustUsd, r, job);
  }

  /** SOL needs no swap. */
  lemma SolIsConfirmed(now: int, dustUsd: real, r: Replies, job: Row)
    requires NeedsSwap(now, r, job) && Quoted(r.prices, SOL_MINT) > 0.0 && Sellable(r, job) > 0
    requires job.tokenMint == SOL_MINT
    ensures Process(now, dustUsd, r, job) == JustSaves(r,
        job.(status := Confirmed, attempts := job.attempts + 1, nextRetryAt := None,
             confirmedOutputAtomic := Some(Sellable(r, job)),
             outputUsd := Some(Usd(Sellable(r, job), 9, Quoted(r.prices, SOL_MINT))),
             executionCostUsd := Some(0.0), error := None, updatedAt := now))
  {
    FreshAttempt(now, dustUsd, r, job);
    UsdIs(Sellable(r, job), 9, Quoted(r.prices, SOL_MINT));
  }

  /** A job whose tokens are gone from the wallet ends. */
  lemma NothingLeftEnds(now: int, dustUsd: real, r: Replies, job: Row)
    requires NeedsSwap(now, r, job) && Quoted(r.prices, SOL_MINT) > 0.0 && Sellable(r, job) == 0
    ensures Process(now, dustUsd, r, job) == JustSaves(r,
        job.(status := Terminal, attempts := job.attempts + 1, nextRetryAt := None, error := Some(Exhausted),
             updatedAt := now))
  {
    FreshAttempt(now, dustUsd, r, job);
  }

  /** A failed attempt that reached no network: the job is tried again, or ends when final and expired. */
  function Again(job: Row, now: int, transient: bool): Row {
    var next := job.(attempts := job.attempts + 1, error := Some(Failure), updatedAt := now);
    if !transient && job.expiresAt <= now then next.(status := Terminal, nextRetryAt := None)
    else next.(status := Retryable, nextRetryAt := Some(now + RetryDelay(job.attempts + 1)))
  }

  /** How a call failed, if it did. */
  function Fault<T>(c: Call<T>): Option<bool> {
    match c
    case Ok(_) => None
    case Failed(transient) => Some(transient)
  }

  /** How the first failing step before the broadcast fails; missing swap operations are a final failure. */
  function FirstFault(r: Replies): Option<bool> {
    OrElse(if r.hasSwapOps then None else Some(false),
           OrElse(Fault(r.quote),
                  OrElse(Fault(r.prepare),
                         OrElse(Fault(r.simulate), OrElse(Fault(r.nativeBefore), Fault(r.savePrepared))))))
  }

  lemma WorthwhileAttempt(now: int, dustUsd: real, r: Replies, job: Row)
    requires NeedsSwap(now, r, job) && WorthSelling(dustUsd, r, job)
    ensures !Skippable(job, now)
    ensures Attempted(now, dustUsd, r, job)
         == QuoteAndSubmit(now, r, job, Sellable(r, job), Quoted(r.prices, SOL_MINT), r.decimals.value,
                           Quoted(r.prices, job.tokenMint))
  {
    FreshAttempt(now, dustUsd, r, job);
    DustRecordExactly(now, dustUsd, r, job);
  }

  /** A swap worth making that meets a failing step before anything is saved is put off, and only that is saved. */
  lemma FailedStepIsRetried(now: int, dustUsd: real, r: Replies, job: Row)
    requires NeedsSwap(now, r, job) && WorthSelling(dustUsd, r, job) && FirstFault(r).Some?
    ensures Process(now, dustUsd, r, job) == JustSaves(r, Again(job, now, FirstFault(r).value))
  {
    WorthwhileAttempt(now, dustUsd, r, job);
  }

  /** A swap that cannot be valued is put off; no price for SOL is a final failure. */
  lemma UnvaluedIsRetried(now: int, dustUsd: real, r: Replies, job: Row)
    requires NeedsSwap(now, r, job)
    ensures r.prices.Failed? ==> Process(now, dustUsd, r, job) == JustSaves(r, Again(job, now, r.prices.transient))
    ensures r.prices.Ok? && Quoted(r.prices, SOL_MINT) <= 0.0 ==>
              Process(now, dustUsd, r, job) == JustSaves(r, Again(job, now, false))
    ensures Quoted(r.prices, SOL_MINT) > 0.0 && Sellable(r, job) > 0 && job.tokenMint != SOL_MINT ==>
              r.decimals.Failed? ==>
              Process(now, dustUsd, r, job) == JustSaves(r, Again(job, now, r.decimals.transient))
  {
    FreshAttempt(now, dustUsd, r, job);
  }

  /** An unsigned `prepared` job is never sent again: it is put off until it ends. */
  lemma UnsignedPreparedIsRetried(now: int, dustUsd: real, r: Replies, job: Row)
    requires IsDue(job, now) && job.status.Prepared? && job.txSignature.None?
    ensures Process(now, dustUsd, r, job) == JustSaves(r, Again(job, now, false))
  {
  }

  /** A job that is not due is returned as it is. */
  lemma NotDueIsUntouched(now: int, dustUsd: real, r: Replies, job: Row)
    requires !IsDue(job, now)
    ensures Process(now, dustUsd, r, job) == Outcome([], None, Some(job))
  {
  }

  // ---- What is saved around a sale ----

  /** The mark saved before the swap is sent. */
  function Marked(job: Row, now: int): Row {
    job.(status := Prepared, attempts := job.attempts + 1, confirmedOutputAtomic := None, outputUsd := None,
         executionCostUsd := None, updatedAt := now)
  }

  /** The row saved by the broadcast itself. */
  function Sent(job: Row, now: int, signature: Signature): Row {
    job.(status := Submitted, attempts := job.attempts + 1, txSignature := Some(signature),
         nextRetryAt := Some(now + RetryDelay(job.attempts + 1)), updatedAt := now)
  }

  /** Waits for an operator: no retry time, the failure on record. */
  function Parked(job: Row, now: int): Row {
    job.(status := Prepared, attempts := job.attempts + 1, nextRetryAt := None, error := Some(Failure),
         updatedAt := now)
  }

  /** The saves, in order, the last one being the result if it can be saved. */
  function SavesThen(r: Replies, first: seq<Row>, last: Row): seq<Row> {
    if r.saveResult then first + [last] else first
  }

  /** The saves of a reported broadcast: the mark, and the signature if it could be saved. */
  function Reported(now: int, r: Replies, job: Row): seq<Row>
    requires r.submission.Broadcast?
  {
    [Marked(job, now)] + if r.submission.saved then [Sent(job, now, r.submission.signature)] else []
  }

  /** The sale was reported, saved and confirmed, and the SOL balance was read and has grown. */
  predicate Measured(r: Replies) {
    && r.submission.Broadcast? && r.submission.saved && r.submission.confirm.Ok?
    && r.nativeBefore.Ok? && r.nativeAfter.Ok? && r.nativeAfter.value > r.nativeBefore.value
  }

  /** What a measured sale is booked as: the growth of the SOL balance, and what was lost on the way. */
  function SoldRow(now: int, r: Replies, job: Row): Row
    requires Measured(r) && r.decimals.Ok?
  {
    var output := r.nativeAfter.value - r.nativeBefore.value;
    var outputUsd := Usd(output, 9, Quoted(r.prices, SOL_MINT));
    var price := Quoted(r.prices, job.tokenMint);
    var loss := Usd(Sellable(r, job), r.decimals.value, price) - outputUsd;
    job.(status := Confirmed, attempts := job.attempts + 1, nextRetryAt := None,
         txSignature := Some(r.submission.signature), confirmedOutputAtomic := Some(output),
         outputUsd := Some(outputUsd), executionCostUsd := Some(if price > 0.0 && loss > 0.0 then loss else 0.0),
         error := None, updatedAt := now)
  }

  lemma SoldRowExactly(now: int, r: Replies, job: Row)
    requires Measured(r) && r.decimals.Ok? && Sellable(r, job) >= 0
    ensures SoldRow(now, r, job)
         == ConfirmedSale(job, Sellable(r, job), r.nativeAfter.value - r.nativeBefore.value, Quoted(r.prices, SOL_MINT),
                          r.decimals.value, Quoted(r.prices, job.tokenMint), r.submission.signature, now)
  {
    UsdIs(r.nativeAfter.value - r.nativeBefore.value, 9, Quoted(r.prices, SOL_MINT));
    UsdIs(Sellable(r, job), r.decimals.value, Quoted(r.prices, job.tokenMint));
  }

  /** A send that went unreported leaves the mark and a retry. */
  lemma UnreportedSaleIsRetried(now: int, dustUsd: real, r: Replies, job: Row)
    requires NeedsSwap(now, r, job) && WorthSelling(dustUsd, r, job) && ReachesNetwork(r) && r.submission.Unreported?
    ensures Process(now, dustUsd, r, job).writes
         == SavesThen(r, [Marked(job, now)], Again(job, now, r.submission.transient))
  {
    WorthwhileAttempt(now, dustUsd, r, job);
  }

  /** A reported sale that cannot be measured is parked under its signature, with no output yet. */
  lemma UnmeasuredSaleIsParked(now: int, dustUsd: real, r: Replies, job: Row)
    requires NeedsSwap(now, r, job) && WorthSelling(dustUsd, r, job) && ReachesNetwork(r)
    requires r.submission.Broadcast? && !Measured(r)
    ensures Process(now, dustUsd, r, job).writes
         == SavesThen(r, Reported(now, r, job),
                      Parked(job, now).(txSignature := Some(r.submission.signature), confirmedOutputAtomic := Some(0)))
  {
    WorthwhileAttempt(now, dustUsd, r, job);
  }

  /** A measured sale is booked at the growth of the SOL balance. */
  lemma MeasuredSaleIsBooked(now: int, dustUsd: real, r: Replies, job: Row)
    requires NeedsSwap(now, r, job) && WorthSelling(dustUsd, r, job) && ReachesNetwork(r) && Measured(r)
    ensures Process(now, dustUsd, r, job).writes == SavesThen(r, Reported(now, r, job), SoldRow(now, r, job))
  {
    WorthwhileAttempt(now, dustUsd, r, job);
    SoldRowExactly(now, r, job);
  }

  // ---- What an earlier broadcast decides ----

  /** The job is due and signed, and the status of its transaction was read. */
  predicate StatusRead(now: int, r: Replies, job: Row) {
    IsDue(job, now) && job.txSignature.Some? && r.swapStatus.Some? && r.swapStatus.value.Ok?
  }

  predicate OnChain(r: Replies)
    requires r.swapStatus.Some? && r.swapStatus.value.Ok?
  {
    r.swapStatus.value.value.TxConfirmed? || r.swapStatus.value.value.TxFinalized?
  }

  /** The measured output of the transaction, when one was read. */
  function Evidenced(r: Replies): Option<Evidence> {
    match r.swapOutput
    case Some(Ok(Some(e))) => if e.outputAtomic > 0 then Some(e) else None
    case _ => None
  }

  lemma EvidenceRow(now: int, r: Replies, job: Row)
    requires Evidenced(r).Some? && Quoted(r.evidencePrices, SOL_MINT) > 0.0
    ensures var e, sol := Evidenced(r).value, Quoted(r.evidencePrices, SOL_MINT);
      ConfirmFromEvidence(now, r, job)
      == Ok(Some(ConfirmedRow(job, now, job.attempts, e.outputAtomic, AtomicUsd(e.outputAtomic, 9, sol),
                              AtomicUsd(e.feeAtomic, 9, sol), None)))
  {
  }

  /** The result of a processing that an earlier broadcast decides. */
  lemma DecidedByStatus(now: int, dustUsd: real, r: Replies, job: Row)
    requires StatusRead(now, r, job)
    ensures var resolved := ResolveBroadcast(now, r, job);
      && (resolved.Failed? ==> Process(now, dustUsd, r, job) == JustSaves(r, Again(job, now, resolved.transient)))
      && (resolved.Ok? && resolved.value.Some? ==> Process(now, dustUsd, r, job) == JustSaves(r, resolved.value.value))
  {
  }

  /** A landed transaction with evidence is booked at the output and the fee, both at the SOL price. */
  lemma LandedIsConfirmed(now: int, dustUsd: real, r: Replies, job: Row)
    requires StatusRead(now, r, job) && OnChain(r) && Unrecorded(job)
    requires Evidenced(r).Some? && Quoted(r.evidencePrices, SOL_MINT) > 0.0
    ensures var e, sol := Evidenced(r).value, Quoted(r.evidencePrices, SOL_MINT);
      Process(now, dustUsd, r, job) == JustSaves(r,
        job.(status := Confirmed, nextRetryAt := None, confirmedOutputAtomic := Some(e.outputAtomic),
             outputUsd := Some(Usd(e.outputAtomic, 9, sol)), executionCostUsd := Some(Usd(e.feeAtomic, 9, sol)),
             error := None, updatedAt := now))
  {
    var e, sol := Evidenced(r).value, Quoted(r.evidencePrices, SOL_MINT);
    DecidedByStatus(now, dustUsd, r, job);
    EvidenceRow(now, r, job);
    UsdIs(e.outputAtomic, 9, sol);
    UsdIs(e.feeAtomic, 9, sol);
  }

  /** A landed transaction whose figures are on record keeps them. */
  lemma RecordedIsConfirmed(now: int, dustUsd: real, r: Replies, job: Row)
    requires StatusRead(now, r, job) && OnChain(r) && !Unrecorded(job)
    ensures Process(now, dustUsd, r, job)
         == JustSaves(r, job.(status := Confirmed, nextRetryAt := None, error := None, updatedAt := now))
  {
    DecidedByStatus(now, dustUsd, r, job);
  }

  /** A landed transaction without evidence, or without a price for it, is parked. */
  lemma LandedIsParked(now: int, dustUsd: real, r: Replies, job: Row)
    requires StatusRead(now, r, job) && OnChain(r) && Unrecorded(job)
    requires r.swapOutput.None? || r.swapOutput.value.Ok?
    requires Evidenced(r).Some? ==> r.evidencePrices.Ok? && Quoted(r.evidencePrices, SOL_MINT) <= 0.0
    ensures Process(now, dustUsd, r, job) == JustSaves(r, Parked(job, now))
  {
    DecidedByStatus(now, dustUsd, r, job);
  }

  /** An unreadable status puts the job off. */
  lemma UnreadStatusIsRetried(now: int, dustUsd: real, r: Replies, job: Row)
    requires IsDue(job, now) && job.txSignature.Some? && r.swapStatus.Some? && r.swapStatus.value.Failed?
    ensures Process(now, dustUsd, r, job) == JustSaves(r, Again(job, now, r.swapStatus.value.transient))
  {
  }

  /** Unreadable evidence of a landed transaction puts the job off, and so does evidence that cannot be priced. */
  lemma UnreadEvidenceIsRetried(now: int, dustUsd: real, r: Replies, job: Row)
    requires StatusRead(now, r, job) && OnChain(r) && Unrecorded(job)
    ensures r.swapOutput.Some? && r.swapOutput.value.Failed? ==>
              Process(now, dustUsd, r, job) == JustSaves(r, Again(job, now, r.swapOutput.value.transient))
    ensures Evidenced(r).Some? && r.evidencePrices.Failed? ==>
              Process(now, dustUsd, r, job) == JustSaves(r, Again(job, now, r.evidencePrices.transient))
  {
    DecidedByStatus(now, dustUsd, r, job);
  }

  /**
   * A transaction the chain has seen, or has not seen yet, keeps the job submitted until a next look;
   * one not seen by the job's expiry ends it, and no swap is sent in either case.
   */
  lemma PendingIsWatched(now: int, dustUsd: real, r: Replies, job: Row)
    requires StatusRead(now, r, job)
    ensures r.swapStatus.value.value.TxProcessed? ==>
        Process(now, dustUsd, r, job) == JustSaves(r,
          job.(status := Submitted, nextRetryAt := Some(now + RetryDelay(job.attempts + 1)), updatedAt := now))
    ensures r.swapStatus.value.value.TxNotFound? && now < job.expiresAt ==>
        Process(now, dustUsd, r, job) == JustSaves(r,
          job.(status := Submitted, attempts := job.attempts + 1,
               nextRetryAt := Some(now + RetryDelay(job.attempts + 1)), updatedAt := now))
    ensures r.swapStatus.value.value.TxNotFound? && job.expiresAt <= now ==>
        Process(now, dustUsd, r, job) == JustSaves(r,
          job.(status := Terminal, attempts := job.attempts + 1, nextRetryAt := None, error := Some(SignatureLost),
               updatedAt := now))
  {
    DecidedByStatus(now, dustUsd, r, job);
  }
}
