/**
 * Whole runs of the settlement machine against the chain: processings of single jobs,
 * sweeps, new jobs, group finalisations and chain events in any interleaving.
 *
 * `sent` records every signature broadcast for a job and `chain` its fate. A
 * signature is `InFlight` until it has `Landed` or `Dropped`; both are final.
 */
module SettlementLedger {
  import opened Prelude
  import opened SettlementJobs
  import opened SettlementStore
  import opened SettlementSweep

  datatype Fate = InFlight | Landed | Dropped

  datatype Ledger = Ledger(rows: Rows, sent: map<string, seq<Signature>>, chain: map<Signature, Fate>)

  datatype Move =
    | Handled(id: string, now: int, dustUsd: real, replies: Replies)
    | Orphans(input: Input, jobs: seq<Row>)
    | Enqueued(row: Row)
    | Finalized(id: string, at: int, pnl: Option<real>)
    | Decided(signature: Signature, fate: Fate)

  function SentOf(l: Ledger, id: string): seq<Signature> {
    if id in l.sent then l.sent[id] else []
  }

  function AfterHandled(l: Ledger, id: string, o: Outcome): Ledger {
    var rows := ApplyWrites(l.rows, o.writes);
    match o.sale
    case None => l.(rows := rows)
    case Some(sale) =>
      Ledger(rows, l.sent[id := SentOf(l, id) + [sale.signature]], l.chain[sale.signature := InFlight])
  }

  function Next(l: Ledger, m: Move): Ledger {
    match m
    case Handled(id, now, dustUsd, replies) =>
      if id in l.rows then AfterHandled(l, id, Process(now, dustUsd, replies, l.rows[id])) else l
    case Orphans(input, jobs) =>
      if |input.ids| == |input.holdings| then l.(rows := AfterSweep(input, jobs, l.rows)) else l
    case Enqueued(row) => l.(rows := l.rows[row.id := row])
    case Finalized(id, at, pnl) =>
      if id in l.rows then l.(rows := l.rows[id := l.rows[id].(finalizedAt := Some(at), realizedPnlUsd := pnl)]) else l
    case Decided(signature, fate) =>
      if signature in l.chain && l.chain[signature].InFlight? then l.(chain := l.chain[signature := fate]) else l
  }

  // ---- The assumptions about the outside world ----

  /** `failed` is read only for a dropped transaction, and a new transaction has a new signature. */
  ghost predicate HonestReplies(l: Ledger, job: Row, r: Replies, o: Outcome) {
    && (job.txSignature.Some? && r.swapStatus == Some(Ok(TxFailed)) ==>
          job.txSignature.value in l.chain && l.chain[job.txSignature.value].Dropped?)
    && (o.sale.Some? ==> o.sale.value.signature !in l.chain)
  }

  predicate Unsent(row: Row) {
    row.status.Pending? && row.txSignature.None? && row.confirmedOutputAtomic.None?
  }

  ghost predicate Honest(l: Ledger, m: Move) {
    match m
    case Handled(id, now, dustUsd, r) =>
      id in l.rows && HonestReplies(l, l.rows[id], r, Process(now, dustUsd, r, l.rows[id]))
    case Orphans(input, jobs) => IsListing(l.rows, jobs) && WellFormed(input, l.rows)
    case Enqueued(row) => row.id !in l.rows && Unsent(row)
    case Finalized(id, at, pnl) => true
    case Decided(signature, fate) => true
  }

  /** A broadcast is remembered: it was reported, and the callback's save or the final save succeeded. */
  predicate SignatureSaved(r: Replies) {
    match r.submission
    case Refused(_) => true
    case Unreported(_, _) => false
    case Broadcast(_, saved, _) => saved || r.saveResult
  }

  predicate CanReadStatus(r: Replies) {
    r.swapStatus.Some?
  }

  ghost predicate Careful(m: Move) {
    m.Handled? ==> SignatureSaved(m.replies) && CanReadStatus(m.replies)
  }

  // ---- What every move keeps ----

  /** The row carries the last signature broadcast for it, and every earlier one was dropped. */
  ghost predicate Tracked(l: Ledger, id: string) {
    var sent := SentOf(l, id);
    && (id in l.rows ==> l.rows[id].txSignature == if sent == [] then None else Some(sent[|sent| - 1]))
    && (id !in l.rows ==> sent == [])
    && (forall i :: 0 <= i < |sent| ==> sent[i] in l.chain)
    && (forall i :: 0 <= i < |sent| - 1 ==> l.chain[sent[i]].Dropped?)
  }

  ghost predicate Inv(l: Ledger) {
    KeyedById(l.rows) && forall id :: Tracked(l, id)
  }

  predicate MayLand(l: Ledger, signature: Signature) {
    signature in l.chain ==> !l.chain[signature].Dropped?
  }

  /** At most one of the transactions broadcast for a job has landed or still can. */
  ghost predicate AtMostOneLands(l: Ledger, id: string) {
    var sent := SentOf(l, id);
    forall i, j :: 0 <= i < |sent| && 0 <= j < |sent| && MayLand(l, sent[i]) && MayLand(l, sent[j]) ==> i == j
  }

  /** Broadcasting again is safe: nothing was sent, or what was sent last is dropped for good. */
  ghost predicate MaySend(l: Ledger, job: Row) {
    job.txSignature.Some? ==> job.txSignature.value in l.chain && l.chain[job.txSignature.value].Dropped?
  }

  lemma {:induction false} ApplySameId(rows: Rows, writes: seq<Row>, id: string)
    requires forall w :: w in writes ==> w.id == id
    ensures ApplyWrites(rows, writes) == if writes == [] then rows else rows[id := writes[|writes| - 1]]
  {
    if writes == [] {
    } else {
      ApplySameId(rows, writes[..|writes| - 1], id);
    }
  }

  /** The signature in the last row a processing writes. */
  lemma WriteSignatures(now: int, dustUsd: real, r: Replies, job: Row)
    ensures var o := Process(now, dustUsd, r, job);
      && (o.sale.None? ==> forall w :: w in o.writes ==> w.txSignature == job.txSignature)
      && (o.sale.Some? ==>
            && |o.writes| > 0 && !r.submission.Refused? && r.submission.signature == o.sale.value.signature
            && o.writes[|o.writes| - 1].txSignature
               == if SignatureSaved(r) then Some(o.sale.value.signature) else job.txSignature)
  {
  }

  /** The row a processing leaves in the table, and its signature. */
  lemma HandledRow(now: int, dustUsd: real, r: Replies, job: Row, rows: Rows)
    requires job.id in rows && rows[job.id] == job
    ensures var o := Process(now, dustUsd, r, job);
      && ApplyWrites(rows, o.writes).Keys == rows.Keys
      && (forall id :: id in rows && id != job.id ==> ApplyWrites(rows, o.writes)[id] == rows[id])
      && SameJob(ApplyWrites(rows, o.writes)[job.id], job)
      && (o.sale.None? ==> ApplyWrites(rows, o.writes)[job.id].txSignature == job.txSignature)
      && (o.sale.Some? ==>
            ApplyWrites(rows, o.writes)[job.id].txSignature
            == if SignatureSaved(r) then Some(o.sale.value.signature) else job.txSignature)
  {
    var o := Process(now, dustUsd, r, job);
    ProcessKeepsJob(now, dustUsd, r, job);
    ApplySameId(rows, o.writes, job.id);
    WriteSignatures(now, dustUsd, r, job);
  }

  lemma HandledKeepsOthers(l: Ledger, id: string, o: Outcome, other: string)
    requires Inv(l) && id in l.rows && other != id
    requires other in l.rows <==> other in ApplyWrites(l.rows, o.writes)
    requires other in l.rows ==> ApplyWrites(l.rows, o.writes)[other] == l.rows[other]
    requires o.sale.Some? ==> o.sale.value.signature !in l.chain
    ensures Tracked(AfterHandled(l, id, o), other)
  {
    assert Tracked(l, other);
  }

  /** Appending a signature keeps the job tracked exactly when it is saved and the last one is dropped. */
  lemma TracksExactly(l: Ledger, id: string, o: Outcome, saved: bool)
    requires Tracked(l, id) && id in l.rows && id in ApplyWrites(l.rows, o.writes)
    requires o.sale.None? ==> ApplyWrites(l.rows, o.writes)[id].txSignature == l.rows[id].txSignature
    requires o.sale.Some? ==> o.sale.value.signature !in l.chain
    requires o.sale.Some? ==> ApplyWrites(l.rows, o.writes)[id].txSignature
                              == if saved then Some(o.sale.value.signature) else l.rows[id].txSignature
    ensures Tracked(AfterHandled(l, id, o), id) <==> (o.sale.Some? ==> saved && MaySend(l, l.rows[id]))
  {
    var before := SentOf(l, id);
    if o.sale.Some? {
      var after := SentOf(AfterHandled(l, id, o), id);
      assert after == before + [o.sale.value.signature];
      if before != [] { assert after[|before| - 1] == l.rows[id].txSignature.value; }
    }
  }

  /**
   * Exactly when a processing keeps the books: when it broadcasts, the signature must
   * be saved at least once and whatever was broadcast before must be dropped for good.
   */
  lemma HandledKeepsBooksExactly(l: Ledger, m: Move)
    requires Inv(l) && m.Handled? && Honest(l, m)
    ensures Inv(Next(l, m)) <==>
              (Process(m.now, m.dustUsd, m.replies, l.rows[m.id]).sale.Some? ==>
                 SignatureSaved(m.replies) && MaySend(l, l.rows[m.id]))
  {
    var job := l.rows[m.id];
    var o := Process(m.now, m.dustUsd, m.replies, job);
    HandledRow(m.now, m.dustUsd, m.replies, job, l.rows);
    assert Tracked(l, m.id);
    TracksExactly(l, m.id, o, SignatureSaved(m.replies));
    var t := Next(l, m);
    forall other | other != m.id
      ensures Tracked(t, other)
    {
      HandledKeepsOthers(l, m.id, o, other);
    }
    if (SignatureSaved(m.replies) && MaySend(l, job)) || o.sale.None? {
      assert forall id :: Tracked(t, id);
    }
  }

  /** With a status reader, the processor itself makes sure of the second half. */
  lemma CarefulMaySend(l: Ledger, m: Move)
    requires m.Handled? && Honest(l, m) && CanReadStatus(m.replies)
    ensures Process(m.now, m.dustUsd, m.replies, l.rows[m.id]).sale.Some? ==> MaySend(l, l.rows[m.id])
  {
    if Process(m.now, m.dustUsd, m.replies, l.rows[m.id]).sale.Some? {
      SendsOnlyWhenSafe(m.now, m.dustUsd, m.replies, l.rows[m.id]);
    }
  }

  lemma OrphansKeepBooks(l: Ledger, m: Move)
    requires Inv(l) && m.Orphans? && Honest(l, m)
    ensures Inv(Next(l, m))
  {
    SweepEffect(m.input, m.jobs, l.rows);
    var t := Next(l, m);
    forall id
      ensures Tracked(t, id)
    {
      assert Tracked(l, id);
      if id in t.rows && !(id in l.rows && t.rows[id] == l.rows[id]) {
        var i: nat :| SweptFrom(m.input, m.jobs, t.rows[id], i);
        SweptRowIsFresh(m.input, m.jobs, l.rows, t.rows[id], i);
      }
    }
  }

  lemma OtherMovesKeepBooks(l: Ledger, m: Move)
    requires Inv(l) && Honest(l, m) && !m.Handled? && !m.Orphans?
    ensures Inv(Next(l, m))
  {
    forall id
      ensures Tracked(Next(l, m), id)
    {
      assert Tracked(l, id);
      if m.Enqueued? { assert Tracked(l, m.row.id); }
    }
  }

  lemma MoveKeepsBooks(l: Ledger, m: Move)
    requires Inv(l) && Honest(l, m) && Careful(m)
    ensures Inv(Next(l, m))
  {
    if m.Handled? {
      CarefulMaySend(l, m);
      HandledKeepsBooksExactly(l, m);
    } else if m.Orphans? {
      OrphansKeepBooks(l, m);
    } else {
      OtherMovesKeepBooks(l, m);
    }
  }

  ghost predicate GoodRun(l: Ledger, moves: seq<Move>)
    decreases |moves|
  {
    moves != [] ==> Honest(l, moves[0]) && Careful(moves[0]) && GoodRun(Next(l, moves[0]), moves[1..])
  }

  function Run(l: Ledger, moves: seq<Move>): Ledger
    decreases |moves|
  {
    if moves == [] then l else Run(Next(l, moves[0]), moves[1..])
  }

  lemma {:induction false} RunConcat(l: Ledger, a: seq<Move>, b: seq<Move>)
    ensures Run(l, a + b) == Run(Run(l, a), b)
    ensures GoodRun(l, a + b) <==> GoodRun(l, a) && GoodRun(Run(l, a), b)
    decreases |a|
  {
    if a == [] {
      assert a + b == b;
    } else {
      assert (a + b)[0] == a[0] && (a + b)[1..] == a[1..] + b;
      RunConcat(Next(l, a[0]), a[1..], b);
    }
  }

  const EMPTY := Ledger(map[], map[], map[])

  lemma {:induction false} RunKeepsBooks(l: Ledger, moves: seq<Move>)
    requires Inv(l) && GoodRun(l, moves)
    ensures Inv(Run(l, moves))
    decreases |moves|
  {
    if moves == [] {
    } else {
      MoveKeepsBooks(l, moves[0]);
      RunKeepsBooks(Next(l, moves[0]), moves[1..]);
    }
  }

  /**
   * Over any interleaving of processings, sweeps, new jobs, finalisations and chain
   * events, at most one transaction broadcast for a job ever lands: all others are dropped.
   */
  lemma NeverSoldTwice(moves: seq<Move>, id: string)
    requires GoodRun(EMPTY, moves)
    ensures AtMostOneLands(Run(EMPTY, moves), id)
  {
    RunKeepsBooks(EMPTY, moves);
    assert Tracked(Run(EMPTY, moves), id);
  }

  // ---- Rows that stay as they are, and rows at cycle boundaries ----

  lemma MoveKeepsSignedTerminal(l: Ledger, m: Move, id: string)
    requires Inv(l) && Honest(l, m) && id in l.rows && l.rows[id].status.Terminal? && l.rows[id].txSignature.Some?
    ensures id in Next(l, m).rows && SentOf(Next(l, m), id) == SentOf(l, id)
    ensures Next(l, m).rows[id].status.Terminal? && Next(l, m).rows[id].txSignature == l.rows[id].txSignature
  {
    if m.Handled? {
      if m.id == id {
        FinalRowsAreFixedPoints(m.now, m.dustUsd, m.replies, l.rows[id]);
      } else {
        HandledRow(m.now, m.dustUsd, m.replies, l.rows[m.id], l.rows);
      }
    } else if m.Orphans? {
      SweepEffect(m.input, m.jobs, l.rows);
      if Next(l, m).rows[id] != l.rows[id] {
        var i: nat :| SweptFrom(m.input, m.jobs, Next(l, m).rows[id], i);
        SweptRowIsFresh(m.input, m.jobs, l.rows, Next(l, m).rows[id], i);
      }
    }
  }

  /** A terminal row that carries a signature waits for the operator: no run ever revives it. */
  lemma {:induction false} SignedTerminalStays(l: Ledger, moves: seq<Move>, id: string)
    requires Inv(l) && GoodRun(l, moves)
    requires id in l.rows && l.rows[id].status.Terminal? && l.rows[id].txSignature.Some?
    ensures id in Run(l, moves).rows
    ensures Run(l, moves).rows[id].status.Terminal? && Run(l, moves).rows[id].txSignature == l.rows[id].txSignature
    ensures SentOf(Run(l, moves), id) == SentOf(l, id)
    decreases |moves|
  {
    if moves == [] {
    } else {
      MoveKeepsBooks(l, moves[0]);
      MoveKeepsSignedTerminal(l, moves[0], id);
      SignedTerminalStays(Next(l, moves[0]), moves[1..], id);
    }
  }

  predicate TidyRow(row: Row) {
    && (row.status.Prepared? ==> row.txSignature.Some?)
    && (row.status.Confirmed? ==> FullyRecorded(row))
  }

  ghost predicate Tidy(l: Ledger) {
    forall id :: id in l.rows ==> TidyRow(l.rows[id])
  }

  predicate ResultsSaved(m: Move) {
    m.Handled? ==> m.replies.saveResult
  }

  lemma ResolvedIsTidy(now: int, r: Replies, job: Row)
    ensures var resolved := ResolveBroadcast(now, r, job);
      resolved.Ok? && resolved.value.Some? ==> TidyRow(resolved.value.value)
  {
    ResolvedIsComplete(now, r, job);
    var resolved := ResolveBroadcast(now, r, job);
    if resolved.Ok? && resolved.value.Some? {
      ResolveKeepsJob(now, r, job);
    }
  }

  lemma SettledIsTidy(now: int, dustUsd: real, r: Replies, job: Row)
    ensures Settle(now, dustUsd, r, job).result.Ok? ==> TidyRow(Settle(now, dustUsd, r, job).result.value)
  {
    SettledIsComplete(now, dustUsd, r, job);
  }

  lemma AttemptedIsTidy(now: int, dustUsd: real, r: Replies, job: Row)
    ensures TidyRow(ResultRow(now, dustUsd, r, job))
  {
    ResolvedIsTidy(now, r, job);
    SettledIsTidy(now, dustUsd, r, job);
  }

  lemma ResultIsTidy(now: int, dustUsd: real, r: Replies, job: Row)
    requires TidyRow(job) && r.saveResult && !Skippable(job, now)
    ensures |Process(now, dustUsd, r, job).writes| > 0
    ensures TidyRow(Process(now, dustUsd, r, job).writes[|Process(now, dustUsd, r, job).writes| - 1])
  {
    AttemptedIsTidy(now, dustUsd, r, job);
  }

  lemma SavedRowsAreTidy(l: Ledger, o: Outcome, id: string)
    requires Tidy(l) && (o.writes == [] || TidyRow(o.writes[|o.writes| - 1]))
    requires ApplyWrites(l.rows, o.writes) == if o.writes == [] then l.rows else l.rows[id := o.writes[|o.writes| - 1]]
    ensures Tidy(AfterHandled(l, id, o))
  {
  }

  lemma HandledKeepsTidy(l: Ledger, m: Move)
    requires Inv(l) && Tidy(l) && m.Handled? && Honest(l, m) && ResultsSaved(m)
    ensures Tidy(Next(l, m))
  {
    var job := l.rows[m.id];
    var o := Process(m.now, m.dustUsd, m.replies, job);
    HandledRow(m.now, m.dustUsd, m.replies, job, l.rows);
    ProcessKeepsJob(m.now, m.dustUsd, m.replies, job);
    ApplySameId(l.rows, o.writes, m.id);
    if !Skippable(job, m.now) { ResultIsTidy(m.now, m.dustUsd, m.replies, job); }
    SavedRowsAreTidy(l, o, m.id);
  }

  lemma MoveKeepsTidy(l: Ledger, m: Move)
    requires Inv(l) && Tidy(l) && Honest(l, m) && ResultsSaved(m)
    ensures Tidy(Next(l, m))
  {
    var t := Next(l, m);
    if m.Handled? {
      HandledKeepsTidy(l, m);
    } else if m.Orphans? {
      SweepEffect(m.input, m.jobs, l.rows);
      forall id | id in t.rows && !(id in l.rows && t.rows[id] == l.rows[id])
        ensures TidyRow(t.rows[id])
      {
        var i: nat :| SweptFrom(m.input, m.jobs, t.rows[id], i);
        assert t.rows[id].status.Pending?;
      }
    }
  }

  /** While final saves succeed, no row rests `prepared` without a signature or `confirmed` without its figures. */
  lemma {:induction false} BoundariesStayTidy(l: Ledger, moves: seq<Move>)
    requires Inv(l) && Tidy(l) && GoodRun(l, moves)
    requires forall i :: 0 <= i < |moves| ==> ResultsSaved(moves[i])
    ensures Tidy(Run(l, moves))
    decreases |moves|
  {
    if moves == [] {
    } else {
      MoveKeepsBooks(l, moves[0]);
      MoveKeepsTidy(l, moves[0]);
      BoundariesStayTidy(Next(l, moves[0]), moves[1..]);
    }
  }

  // ---- Each assumption is needed ----

  /** A fresh, due job of another token than SOL. */
  predicate FreshJob(job: Row) {
    && Unsent(job) && job.attempts == 0 && job.nextRetryAt.None? && job.amountAtomic > 0
    && job.tokenMint != SOL_MINT && job.expiresAt > 2
  }

  /** Everything works; the swap is broadcast under `signature` but its output cannot be measured. */
  function Sends(signature: Signature, status: Option<Call<ChainState>>, saved: bool, saveResult: bool): Replies {
    Replies(status, None, Ok(map[]), Ok(map[SOL_MINT := 1.0]), None, Ok(6), true, Ok(()), Ok(()), Ok(()), Ok(0), Ok(()),
            Broadcast(signature, saved, Ok(())), Failed(true), saveResult)
  }

  function Visit(job: Row, now: int, r: Replies): Move {
    Handled(job.id, now, 0.0, r)
  }

  /** Without a status reader, a job whose transaction has landed is sold a second time. */
  lemma BlindAdapterSellsTwice(job: Row, first: Signature, second: Signature)
    requires FreshJob(job) && first != second
    ensures var l := Ledger(map[job.id := job.(status := Submitted, txSignature := Some(first))],
                            map[job.id := [first]], map[first := Landed]);
      var m := Visit(job, 1, Sends(second, None, true, true));
      Inv(l) && Honest(l, m) && SignatureSaved(m.replies) && !AtMostOneLands(Next(l, m), job.id)
  {
    var row := job.(status := Submitted, txSignature := Some(first));
    var l := Ledger(map[job.id := row], map[job.id := [first]], map[first := Landed]);
    var m := Visit(job, 1, Sends(second, None, true, true));
    assert Process(m.now, m.dustUsd, m.replies, row).sale == Some(Sale(second, job.amountAtomic));
    assert SentOf(Next(l, m), job.id) == [first, second];
    assert MayLand(Next(l, m), [first, second][0]) && MayLand(Next(l, m), [first, second][1]);
  }

  /** The three visits after which a job whose signature was never saved has been sold twice. */
  function LosingRun(job: Row, first: Signature, second: Signature): seq<Move> {
    [Visit(job, 1, Sends(first, Some(Ok(TxNotFound)), false, false)),
     Visit(job, 2, Sends(first, Some(Ok(TxNotFound)), true, true)),
     Visit(job, 5000, Sends(second, Some(Ok(TxNotFound)), true, true))]
  }

  /** Neither save of the signature succeeded: the row is left `prepared` and unsigned. */
  lemma FirstVisitLosesSignature(job: Row, first: Signature)
    requires FreshJob(job)
    ensures Process(1, 0.0, Sends(first, Some(Ok(TxNotFound)), false, false), job)
         == Outcome([PreparedRow(job, 1)], Some(Sale(first, job.amountAtomic)), None)
  {
  }

  /** An unsigned `prepared` row becomes retryable, although its swap may land. */
  lemma SecondVisitRetries(job: Row, r: Replies)
    requires FreshJob(job) && r.saveResult
    ensures var row := RetryableJob(PreparedRow(job, 1), 2, false);
      && Process(2, 0.0, r, PreparedRow(job, 1)) == Outcome([row], None, Some(row))
      && row.status.Retryable? && row.nextRetryAt == Some(2002)
  {
    assert RetryDelay(2) == 2000 by { assert Pow2(1) == 2 * Pow2(0); }
  }

  lemma ThirdVisitSells(job: Row, second: Signature)
    requires FreshJob(job)
    ensures Process(5000, 0.0, Sends(second, Some(Ok(TxNotFound)), true, true),
                    RetryableJob(PreparedRow(job, 1), 2, false)).sale == Some(Sale(second, job.amountAtomic))
  {
    SecondVisitRetries(job, Sends(second, Some(Ok(TxNotFound)), true, true));
  }

  /** The books after the first two visits: sent once, yet the row is unsigned and retryable. */
  lemma BooksAfterLoss(job: Row, first: Signature, second: Signature)
    requires FreshJob(job) && first != second
    ensures var l := Ledger(map[job.id := job], map[], map[]);
      var run := LosingRun(job, first, second);
      && Next(l, run[0]) == Ledger(map[job.id := PreparedRow(job, 1)], map[job.id := [first]], map[first := InFlight])
      && Next(Next(l, run[0]), run[1])
         == Next(l, run[0]).(rows := map[job.id := RetryableJob(PreparedRow(job, 1), 2, false)])
  {
    var l := Ledger(map[job.id := job], map[], map[]);
    var run := LosingRun(job, first, second);
    FirstVisitLosesSignature(job, first);
    SecondVisitRetries(job, run[1].replies);
    var row1 := PreparedRow(job, 1);
    ApplySameId(map[job.id := job], [row1], job.id);
    assert [] + [first] == [first];
    var l1 := Next(l, run[0]);
    ApplySameId(l1.rows, [RetryableJob(row1, 2, false)], job.id);
  }

  /** When neither save of a signature succeeds, two visits later the job is sold again. */
  lemma LostSignatureSellsTwice(job: Row, first: Signature, second: Signature)
    requires FreshJob(job) && first != second
    ensures var l := Ledger(map[job.id := job], map[], map[]);
      var run := LosingRun(job, first, second);
      && Inv(l) && Honest(l, run[0]) && Honest(Next(l, run[0]), run[1]) && Honest(Next(Next(l, run[0]), run[1]), run[2])
      && (forall i :: 0 <= i < 3 ==> CanReadStatus(run[i].replies))
      && !AtMostOneLands(Run(l, run), job.id)
  {
    var l := Ledger(map[job.id := job], map[], map[]);
    var run := LosingRun(job, first, second);
    BooksAfterLoss(job, first, second);
    SecondVisitRetries(job, run[1].replies);
    ThirdVisitSells(job, second);
    var l1 := Next(l, run[0]);
    var l2 := Next(l1, run[1]);
    var l3 := Next(l2, run[2]);
    assert [first] + [second] == [first, second];
    assert SentOf(l3, job.id) == [first, second];
    assert MayLand(l3, [first, second][0]) && MayLand(l3, [first, second][1]);
    assert run[1..] == [run[1], run[2]] && run[1..][1..] == [run[2]];
    assert Run(l, run) == Run(l1, run[1..]) == Run(l2, [run[2]]) == Run(l3, []);
  }

  /** The two visits after which a job whose first send was not reported has been sold twice. */
  function UnreportedRun(job: Row, first: Signature, second: Signature): seq<Move> {
    [Visit(job, 1, Sends(first, Some(Ok(TxNotFound)), true, true).(submission := Unreported(first, false))),
     Visit(job, 5000, Sends(second, Some(Ok(TxNotFound)), true, true))]
  }

  /** The failed send leaves the job retryable and unsigned, although its swap may land. */
  lemma UnreportedSendRetries(job: Row, first: Signature, second: Signature)
    requires FreshJob(job)
    ensures var row := RetryableJob(job, 1, false);
      && Process(1, 0.0, UnreportedRun(job, first, second)[0].replies, job)
         == Outcome([PreparedRow(job, 1), row], Some(Sale(first, job.amountAtomic)), Some(row))
      && row.status.Retryable? && row.nextRetryAt == Some(1001) && row.txSignature.None?
  {
    assert RetryDelay(1) == 1000;
    assert [PreparedRow(job, 1)] + [RetryableJob(job, 1, false)]
        == [PreparedRow(job, 1), RetryableJob(job, 1, false)];
  }

  lemma BooksAfterUnreported(job: Row, first: Signature, second: Signature)
    requires FreshJob(job)
    ensures var l := Ledger(map[job.id := job], map[], map[]);
      Next(l, UnreportedRun(job, first, second)[0])
      == Ledger(map[job.id := RetryableJob(job, 1, false)], map[job.id := [first]], map[first := InFlight])
  {
    UnreportedSendRetries(job, first, second);
    ApplySameId(map[job.id := job], [PreparedRow(job, 1), RetryableJob(job, 1, false)], job.id);
    assert [] + [first] == [first];
  }

  /** When a send reaches the network and reports a failure, the next visit sells the job again. */
  lemma UnreportedSendSellsTwice(job: Row, first: Signature, second: Signature)
    requires FreshJob(job) && first != second
    ensures var l := Ledger(map[job.id := job], map[], map[]);
      var run := UnreportedRun(job, first, second);
      && Inv(l) && Honest(l, run[0]) && Honest(Next(l, run[0]), run[1]) && Careful(run[1])
      && !AtMostOneLands(Run(l, run), job.id)
  {
    var l := Ledger(map[job.id := job], map[], map[]);
    var run := UnreportedRun(job, first, second);
    UnreportedSendRetries(job, first, second);
    BooksAfterUnreported(job, first, second);
    var l1 := Next(l, run[0]);
    var l2 := Next(l1, run[1]);
    assert Process(5000, 0.0, run[1].replies, RetryableJob(job, 1, false)).sale == Some(Sale(second, job.amountAtomic));
    assert [first] + [second] == [first, second];
    assert SentOf(l2, job.id) == [first, second];
    assert MayLand(l2, [first, second][0]) && MayLand(l2, [first, second][1]);
    assert run[1..] == [run[1]] && run[1..][1..] == [];
    assert Run(l, run) == Run(l1, run[1..]) == Run(l2, []);
  }
}
