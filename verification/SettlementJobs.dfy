/**
 * One settlement job: the row, the replies of the adapter and the database to one
 * processing of it, and what the processor then writes, sends and returns.
 *
 * Every call into the outside world is a field of `Replies`, so a statement about
 * all replies is a statement about every behaviour of the chain, the swap API, the
 * wallet and the database.
 */
module SettlementJobs {
  import opened Prelude

  const SOL_MINT := "So11111111111111111111111111111111111111112"

  type Signature = s: string | s != "" witness "s"

  datatype Status = Pending | Retryable | Prepared | Submitted | Confirmed | Terminal

  datatype Note = Failure | SignatureLost | Exhausted | DustSkipped | DustUnpriced

  datatype Row = Row(
    id: string,
    positionId: string,
    tokenMint: string,
    amountAtomic: nat,
    status: Status,
    attempts: nat,
    nextRetryAt: Option<int>,
    txSignature: Option<Signature>,
    confirmedOutputAtomic: Option<nat>,
    outputUsd: Option<real>,
    executionCostUsd: Option<real>,
    finalizedAt: Option<int>,
    realizedPnlUsd: Option<real>,
    expiresAt: int,
    error: Option<Note>,
    createdAt: int,
    updatedAt: int)

  /** The outcome of one fallible call; `transient` is the classification of its error. */
  datatype Call<+T> = Ok(value: T) | Failed(transient: bool)

  datatype ChainState = TxConfirmed | TxFinalized | TxProcessed | TxNotFound | TxFailed

  datatype Evidence = Evidence(outputAtomic: int, feeAtomic: nat)

  datatype Submission =
    | Refused(transient: bool)                                    // failed before the broadcast
    | Unreported(signature: Signature, transient: bool)  // reached the network, but the send failed or timed out
    | Broadcast(signature: Signature, saved: bool, confirm: Call<()>)  // the callback's save, then the confirmation

  datatype Replies = Replies(
    swapStatus: Option<Call<ChainState>>,            // None: the adapter has no getSwapStatus
    swapOutput: Option<Call<Option<Evidence>>>,      // None: no getConfirmedSwapOutput
    evidencePrices: Call<map<string, real>>,
    prices: Call<map<string, real>>,
    balance: Option<Call<nat>>,                      // None: no balance reader
    decimals: Call<nat>,
    hasSwapOps: bool,
    quote: Call<()>,
    prepare: Call<()>,
    simulate: Call<()>,
    nativeBefore: Call<nat>,
    savePrepared: Call<()>,
    submission: Submission,
    nativeAfter: Call<nat>,
    saveResult: bool)

  datatype Sale = Sale(signature: Signature, amount: nat)

  function Pow10(n: nat): (p: nat)
    ensures p > 0
  {
    if n == 0 then 1 else 10 * Pow10(n - 1)
  }

  const RETRY_CAP_MS := 1_800_000

  function RetryDelay(attempts: int): int {
    var exponent := if attempts - 1 < 0 then 0 else if attempts - 1 > 30 then 30 else attempts - 1;
    var ramp := Pow2(exponent) * 1000;
    if ramp < RETRY_CAP_MS then ramp else RETRY_CAP_MS
  }

  function NextSettlementRetryAt(now: int, attempts: int): int {
    now + RetryDelay(attempts)
  }

  /** A number of atomic units in whole ones, split into whole units and a fraction. */
  function WholeAndFraction(n: nat, scale: nat): real
    requires scale > 0
  {
    (n / scale) as real + (n % scale) as real / scale as real
  }

  function AtomicUsd(amountAtomic: nat, decimals: nat, priceUsd: real): real {
    WholeAndFraction(amountAtomic, Pow10(decimals)) * priceUsd
  }

  function PriceOf(prices: map<string, real>, mint: string): real {
    if mint in prices then prices[mint] else 0.0
  }

  // ---- Rows the processor produces ----

  function RetryableJob(job: Row, now: int, transient: bool): Row {
    var attempts := job.attempts + 1;
    var expired := !transient && now >= job.expiresAt;
    job.(status := if expired then Terminal else Retryable,
         attempts := attempts,
         nextRetryAt := if expired then None else Some(NextSettlementRetryAt(now, attempts)),
         error := Some(Failure),
         updatedAt := now)
  }

  function ReconciliationJob(job: Row, now: int): Row {
    job.(status := Prepared, attempts := job.attempts + 1, nextRetryAt := None, error := Some(Failure),
         updatedAt := now)
  }

  function RetainSubmitted(job: Row, now: int): Row {
    var attempts := job.attempts + 1;
    var expired := now >= job.expiresAt;
    job.(status := if expired then Terminal else Submitted,
         attempts := attempts,
         nextRetryAt := if expired then None else Some(NextSettlementRetryAt(now, attempts)),
         error := if expired then Some(SignatureLost) else job.error,
         updatedAt := now)
  }

  function ConfirmedRow(
      job: Row, now: int, attempts: nat, output: nat, outputUsd: real, costUsd: real, error: Option<Note>): Row
  {
    job.(status := Confirmed, attempts := attempts, nextRetryAt := None, confirmedOutputAtomic := Some(output),
         outputUsd := Some(outputUsd), executionCostUsd := Some(costUsd), error := error, updatedAt := now)
  }

  function ConfirmFromEvidence(now: int, r: Replies, job: Row): Call<Option<Row>> {
    match r.swapOutput
    case None => Ok(None)
    case Some(Failed(t)) => Failed(t)
    case Some(Ok(None)) => Ok(None)
    case Some(Ok(Some(evidence))) =>
      if evidence.outputAtomic <= 0 then Ok(None)
      else
        match r.evidencePrices
        case Failed(t) => Failed(t)
        case Ok(prices) =>
          var sol := PriceOf(prices, SOL_MINT);
          if !(sol > 0.0) then Ok(Some(ReconciliationJob(job, now)))
          else Ok(Some(ConfirmedRow(job, now, job.attempts, evidence.outputAtomic,
                                    AtomicUsd(evidence.outputAtomic, 9, sol),
                                    AtomicUsd(evidence.feeAtomic, 9, sol), None)))
  }

  predicate FullyRecorded(job: Row) {
    job.confirmedOutputAtomic.Some? && job.outputUsd.Some? && job.executionCostUsd.Some?
  }

  function ConfirmBroadcast(now: int, r: Replies, job: Row): Call<Row> {
    if FullyRecorded(job) then
      Ok(job.(status := Confirmed, nextRetryAt := None, error := None, updatedAt := now))
    else
      match ConfirmFromEvidence(now, r, job)
      case Failed(t) => Failed(t)
      case Ok(Some(row)) => Ok(row)
      case Ok(None) => Ok(ReconciliationJob(job, now))
  }

  /** The row an already broadcast swap leads to, or None when a fresh swap must be submitted. */
  function ResolveBroadcast(now: int, r: Replies, job: Row): Call<Option<Row>> {
    if job.txSignature.None? || r.swapStatus.None? then Ok(None)
    else
      match r.swapStatus.value
      case Failed(t) => Failed(t)
      case Ok(state) =>
        if state.TxConfirmed? || state.TxFinalized? then
          match ConfirmBroadcast(now, r, job)
          case Failed(t) => Failed(t)
          case Ok(row) => Ok(Some(row))
        else if state.TxProcessed? then
          Ok(Some(job.(status := Submitted,
                       nextRetryAt := Some(NextSettlementRetryAt(now, job.attempts + 1)), updatedAt := now)))
        else if state.TxNotFound? then Ok(Some(RetainSubmitted(job, now)))
        else Ok(None)
  }

  /** A missing reader or a failed read keeps the job's own amount. */
  function ClampToWallet(r: Replies, amount: nat): nat {
    match r.balance
    case None => amount
    case Some(Failed(_)) => amount
    case Some(Ok(balance)) => if balance >= amount then amount else balance
  }

  predicate Synthetic(positionId: string) {
    "orphan:" <= positionId || "rollback:" <= positionId
  }

  function DustRecord(now: int, dustUsd: real, job: Row, amount: nat, decimals: nat, price: real): Option<Row> {
    var inputUsd := AtomicUsd(amount, decimals, price);
    if dustUsd > 0.0 && price > 0.0 && inputUsd < dustUsd then
      Some(ConfirmedRow(job, now, job.attempts + 1, amount, inputUsd, 0.0, Some(DustSkipped)))
    else if dustUsd > 0.0 && Synthetic(job.positionId) && price <= 0.0 then
      Some(ConfirmedRow(job, now, job.attempts + 1, amount, inputUsd, 0.0, Some(DustUnpriced)))
    else None
  }

  predicate Skippable(job: Row, now: int) {
    || job.status.Terminal?
    || (job.nextRetryAt.Some? && job.nextRetryAt.value > now)
    || (job.status.Confirmed? && FullyRecorded(job))
  }

  function EarlyResult(job: Row, amount: nat, sol: real, now: int): Option<Row> {
    if amount == 0 then
      Some(job.(status := Terminal, attempts := job.attempts + 1, nextRetryAt := None, error := Some(Exhausted),
                updatedAt := now))
    else if job.tokenMint == SOL_MINT then
      Some(ConfirmedRow(job, now, job.attempts + 1, amount, AtomicUsd(amount, 9, sol), 0.0, None))
    else None
  }

  function ConfirmedSale(job: Row, amount: nat, output: nat, sol: real, decimals: nat, price: real,
                         signature: Signature, now: int): Row {
    var outputUsd := AtomicUsd(output, 9, sol);
    var inputUsd := if price > 0.0 then AtomicUsd(amount, decimals, price) else outputUsd;
    var cost := if inputUsd - outputUsd > 0.0 then inputUsd - outputUsd else 0.0;
    ConfirmedRow(job, now, job.attempts + 1, output, outputUsd, cost, None).(txSignature := Some(signature))
  }

  // ---- The fresh quote, simulate, submit path ----

  datatype Attempt = Attempt(writes: seq<Row>, sale: Option<Sale>, result: Call<Row>)

  function PreparedRow(job: Row, now: int): Row {
    job.(status := Prepared, attempts := job.attempts + 1, confirmedOutputAtomic := None,
         outputUsd := None, executionCostUsd := None, updatedAt := now)
  }

  function SubmittedRow(job: Row, now: int, signature: Signature): Row {
    job.(status := Submitted, attempts := job.attempts + 1,
         nextRetryAt := Some(NextSettlementRetryAt(now, job.attempts + 1)),
         txSignature := Some(signature), updatedAt := now)
  }

  function MeasuredOutput(before: nat, after: nat): nat {
    if after > before then after - before else 0
  }

  /** What the row becomes once the swap has been broadcast. */
  function AfterBroadcast(
      now: int, r: Replies, job: Row, amount: nat, sol: real, decimals: nat, price: real, before: nat): Row
    requires r.submission.Broadcast?
  {
    var b := r.submission;
    var unmeasured := ReconciliationJob(job.(txSignature := Some(b.signature), confirmedOutputAtomic := Some(0)), now);
    if !b.saved || b.confirm.Failed? || r.nativeAfter.Failed? then unmeasured
    else
      var output := MeasuredOutput(before, r.nativeAfter.value);
      if output == 0 then unmeasured
      else ConfirmedSale(job, amount, output, sol, decimals, price, b.signature, now)
  }

  function QuoteAndSubmit(now: int, r: Replies, job: Row, amount: nat, sol: real, decimals: nat, price: real): Attempt {
    if !r.hasSwapOps then Attempt([], None, Failed(false))
    else if r.quote.Failed? then Attempt([], None, Failed(r.quote.transient))
    else if r.prepare.Failed? then Attempt([], None, Failed(r.prepare.transient))
    else if r.simulate.Failed? then Attempt([], None, Failed(r.simulate.transient))
    else if r.nativeBefore.Failed? then Attempt([], None, Failed(r.nativeBefore.transient))
    else if r.savePrepared.Failed? then Attempt([], None, Failed(r.savePrepared.transient))
    else
      var prepared := [PreparedRow(job, now)];
      match r.submission
      case Refused(t) => Attempt(prepared, None, Failed(t))
      case Unreported(signature, t) => Attempt(prepared, Some(Sale(signature, amount)), Failed(t))
      case Broadcast(signature, saved, _) =>
        Attempt(prepared + (if saved then [SubmittedRow(job, now, signature)] else []),
                Some(Sale(signature, amount)),
                Ok(AfterBroadcast(now, r, job, amount, sol, decimals, price, r.nativeBefore.value)))
  }

  /** The fresh-settlement path, from prices to submission. */
  function Settle(now: int, dustUsd: real, r: Replies, job: Row): Attempt {
    match r.prices
    case Failed(t) => Attempt([], None, Failed(t))
    case Ok(prices) =>
      var sol := PriceOf(prices, SOL_MINT);
      if !(sol > 0.0) then Attempt([], None, Failed(false))
      else
        var amount := ClampToWallet(r, job.amountAtomic);
        match EarlyResult(job, amount, sol, now)
        case Some(row) => Attempt([], None, Ok(row))
        case None =>
          match r.decimals
          case Failed(t) => Attempt([], None, Failed(t))
          case Ok(decimals) =>
            var price := PriceOf(prices, job.tokenMint);
            match DustRecord(now, dustUsd, job, amount, decimals, price)
            case Some(row) => Attempt([], None, Ok(row))
            case None => QuoteAndSubmit(now, r, job, amount, sol, decimals, price)
  }

  function Attempted(now: int, dustUsd: real, r: Replies, job: Row): Attempt {
    match ResolveBroadcast(now, r, job)
    case Failed(t) => Attempt([], None, Failed(t))
    case Ok(Some(row)) => Attempt([], None, Ok(row))
    case Ok(None) =>
      if job.status.Prepared? && job.txSignature.None? then Attempt([], None, Failed(false))
      else Settle(now, dustUsd, r, job)
  }

  datatype Outcome = Outcome(writes: seq<Row>, sale: Option<Sale>, returned: Option<Row>)

  /** What a non-skipped job becomes; a failed attempt becomes a retry. */
  function ResultRow(now: int, dustUsd: real, r: Replies, job: Row): Row {
    match Attempted(now, dustUsd, r, job).result
    case Ok(row) => row
    case Failed(t) => RetryableJob(job, now, t)
  }

  /** One processing of one job. */
  function Process(now: int, dustUsd: real, r: Replies, job: Row): Outcome {
    if Skippable(job, now) then Outcome([], None, Some(job))
    else
      var a := Attempted(now, dustUsd, r, job);
      var result := ResultRow(now, dustUsd, r, job);
      Outcome(a.writes + (if r.saveResult then [result] else []), a.sale, if r.saveResult then Some(result) else None)
  }

  // ---- What one processing guarantees ----

  lemma WholeAndRest(whole: real, rest: real, scale: real)
    requires scale > 0.0
    ensures whole + rest / scale == (whole * scale + rest) / scale
  {
    var q := rest / scale;
    assert q * scale == rest;
    assert (whole + q) * scale == whole * scale + rest;
  }

  lemma SplitExact(n: nat, scale: nat)
    requires scale > 0
    ensures WholeAndFraction(n, scale) == n as real / scale as real
  {
    var whole, rest := n / scale, n % scale;
    assert n == whole * scale + rest;
    assert (whole * scale) as real == whole as real * scale as real;
    WholeAndRest(whole as real, rest as real, scale as real);
  }

  /** The split into whole and fractional units loses nothing. */
  lemma AtomicUsdExact(amountAtomic: nat, decimals: nat, priceUsd: real)
    ensures AtomicUsd(amountAtomic, decimals, priceUsd) == amountAtomic as real / Pow10(decimals) as real * priceUsd
  {
    SplitExact(amountAtomic, Pow10(decimals));
  }

  /** Everything a row keeps through any processing. */
  predicate SameJob(a: Row, b: Row) {
    && a.id == b.id && a.positionId == b.positionId && a.tokenMint == b.tokenMint && a.amountAtomic == b.amountAtomic
    && a.finalizedAt == b.finalizedAt && a.realizedPnlUsd == b.realizedPnlUsd
    && a.expiresAt == b.expiresAt && a.createdAt == b.createdAt
  }

  lemma ResolveKeepsJob(now: int, r: Replies, job: Row)
    requires ResolveBroadcast(now, r, job).Ok? && ResolveBroadcast(now, r, job).value.Some?
    ensures SameJob(ResolveBroadcast(now, r, job).value.value, job)
    ensures ResolveBroadcast(now, r, job).value.value.txSignature == job.txSignature
  {
  }

  lemma SettleKeepsJob(now: int, dustUsd: real, r: Replies, job: Row)
    ensures var a := Settle(now, dustUsd, r, job);
      && (forall i :: 0 <= i < |a.writes| ==> SameJob(a.writes[i], job))
      && (a.result.Ok? ==> SameJob(a.result.value, job))
  {
  }

  lemma ProcessKeepsJob(now: int, dustUsd: real, r: Replies, job: Row)
    ensures forall i :: 0 <= i < |Process(now, dustUsd, r, job).writes| ==>
              SameJob(Process(now, dustUsd, r, job).writes[i], job)
  {
    var resolved := ResolveBroadcast(now, r, job);
    if resolved.Ok? {
      if resolved.value.Some? { ResolveKeepsJob(now, r, job); } else { SettleKeepsJob(now, dustUsd, r, job); }
    }
  }

  /**
   * A new swap is broadcast only for a job that is due, carries no unsigned `prepared`
   * mark, and whose earlier signature, if any, the chain reported failed - unless the
   * adapter cannot read swap statuses at all.
   */
  lemma SendsOnlyWhenSafe(now: int, dustUsd: real, r: Replies, job: Row)
    requires Process(now, dustUsd, r, job).sale.Some?
    ensures job.txSignature.None? || r.swapStatus.None? || r.swapStatus == Some(Ok(TxFailed))
    ensures !(job.status.Prepared? && job.txSignature.None?) && !Skippable(job, now)
    ensures job.tokenMint != SOL_MINT
  {
  }

  /** What is sold is positive and at most both the job's amount and the balance that was read. */
  lemma SellsWithinBalance(now: int, dustUsd: real, r: Replies, job: Row)
    requires Process(now, dustUsd, r, job).sale.Some?
    ensures 0 < Process(now, dustUsd, r, job).sale.value.amount <= job.amountAtomic
    ensures r.balance.Some? && r.balance.value.Ok? ==>
              Process(now, dustUsd, r, job).sale.value.amount <= r.balance.value.value
  {
  }

  /** A confirmed row carries its output, its value and its cost, and no retry time. */
  predicate Complete(row: Row) {
    row.status.Confirmed? ==> FullyRecorded(row) && row.nextRetryAt.None?
  }

  lemma ResolvedIsComplete(now: int, r: Replies, job: Row)
    ensures var resolved := ResolveBroadcast(now, r, job);
      resolved.Ok? && resolved.value.Some? ==> Complete(resolved.value.value)
  {
  }

  lemma SettledIsComplete(now: int, dustUsd: real, r: Replies, job: Row)
    ensures var a := Settle(now, dustUsd, r, job);
      && (forall w :: w in a.writes ==> Complete(w))
      && (a.result.Ok? ==> Complete(a.result.value))
  {
  }

  /** Every row that becomes confirmed carries its output, its value and its cost, and no retry time. */
  lemma ConfirmedIsComplete(now: int, dustUsd: real, r: Replies, job: Row)
    ensures forall w :: w in Process(now, dustUsd, r, job).writes ==> Complete(w)
  {
    ResolvedIsComplete(now, r, job);
    SettledIsComplete(now, dustUsd, r, job);
    assert Complete(ResultRow(now, dustUsd, r, job));
  }

  /** Confirmed and terminal rows are fixed points of the processor, whatever the world replies. */
  lemma FinalRowsAreFixedPoints(now: int, dustUsd: real, r: Replies, job: Row)
    requires job.status.Terminal? || (job.status.Confirmed? && FullyRecorded(job))
    ensures Process(now, dustUsd, r, job) == Outcome([], None, Some(job))
  {
  }

  /** A failed attempt is a retry, terminal only when final and at expiry; what it sold went unreported. */
  lemma TerminalExactlyAtExpiry(now: int, dustUsd: real, r: Replies, job: Row)
    requires !Skippable(job, now) && Attempted(now, dustUsd, r, job).result.Failed?
    ensures ResultRow(now, dustUsd, r, job).status.Terminal? <==>
              !Attempted(now, dustUsd, r, job).result.transient && now >= job.expiresAt
    ensures ResultRow(now, dustUsd, r, job).status.Terminal? || ResultRow(now, dustUsd, r, job).status.Retryable?
    ensures Attempted(now, dustUsd, r, job).sale.Some? ==> r.submission.Unreported?
  {
  }
}
