/** Which holdings an orphan sweep turns into jobs, and what those jobs say, in plain terms of the inputs. */
module SettlementOrphans {
  import opened Prelude
  import opened SettlementJobs
  import opened SettlementStore
  import opened SettlementSweep
  import opened SettlementDecisions

  /** A job of the mint that ended with nothing sent and nothing measured. */
  predicate Dead(job: Row, mint: string) {
    job.tokenMint == mint && job.status.Terminal? && job.txSignature.None? && job.confirmedOutputAtomic.None?
  }

  predicate SomeDead(jobs: seq<Row>, mint: string) {
    exists k :: 0 <= k < |jobs| && Dead(jobs[k], mint)
  }

  predicate LastDead(jobs: seq<Row>, mint: string, k: nat) {
    k < |jobs| && Dead(jobs[k], mint) && forall m :: k < m < |jobs| ==> !Dead(jobs[m], mint)
  }

  /** Every listed job of the mint has ended. */
  predicate NothingUnderWay(jobs: seq<Row>, mint: string) {
    forall j :: j in jobs && j.tokenMint == mint ==> j.status.Terminal? || j.status.Confirmed?
  }

  /** The holding is worth the cutoff; one of unknown worth never is. */
  predicate Worthwhile(input: Input, h: Holding) {
    input.dustUsd <= 0.0 ||
    (h.mint in input.prices && input.prices[h.mint] > 0.0
     && Usd(h.amountAtomic, h.decimals, input.prices[h.mint]) >= input.dustUsd)
  }

  /** No job looks after the holding, no open position accounts for it, and it is worth a sale. */
  predicate Stranded(input: Input, jobs: seq<Row>, h: Holding) {
    && h.mint != SOL_MINT && h.amountAtomic > 0 && NothingUnderWay(jobs, h.mint)
    && (h.mint in input.backed ==> SomeDead(jobs, h.mint)) && Worthwhile(input, h)
  }

  ghost predicate MintsDiffer(holdings: seq<Holding>) {
    forall i, j :: 0 <= i < j < |holdings| ==> holdings[i].mint != holdings[j].mint
  }

  lemma {:induction false} LastDeadIsUsed(jobs: seq<Row>, mint: string)
    ensures mint in TerminalByMint(jobs) <==> SomeDead(jobs, mint)
    ensures forall k: nat :: LastDead(jobs, mint, k) ==>
              mint in TerminalByMint(jobs) && TerminalByMint(jobs)[mint] == jobs[k]
  {
    if jobs == [] {
    } else {
      var n := |jobs| - 1;
      LastDeadIsUsed(jobs[..n], mint);
      assert SomeDead(jobs, mint) <==> SomeDead(jobs[..n], mint) || Dead(jobs[n], mint);
      forall k: nat | LastDead(jobs, mint, k)
        ensures mint in TerminalByMint(jobs) && TerminalByMint(jobs)[mint] == jobs[k]
      {
        if k < n { assert LastDead(jobs[..n], mint, k); }
      }
    }
  }

  lemma DustExactly(input: Input, h: Holding)
    ensures OrphanDust(h, PriceOf(input.prices, h.mint), input.dustUsd) <==> !Worthwhile(input, h)
  {
    UsdIs(h.amountAtomic, h.decimals, PriceOf(input.prices, h.mint));
  }

  lemma NextExactly(input: Input, jobs: seq<Row>, h: Holding, id: string)
    ensures NextOrphanSweepJob(h, id, ActiveMints(jobs), TerminalByMint(jobs), input).Some? <==>
            Stranded(input, jobs, h)
  {
    LastDeadIsUsed(jobs, h.mint);
    DustExactly(input, h);
    assert h.mint in ActiveMints(jobs) <==> !NothingUnderWay(jobs, h.mint) by {
      if h.mint in ActiveMints(jobs) {
        var j :| j in jobs && Active(j) && j.tokenMint == h.mint;
      }
    }
  }

  lemma SweptOfMint(input: Input, jobs: seq<Row>, i: nat, row: Row)
    requires |input.ids| == |input.holdings| && MintsDiffer(input.holdings) && i < |input.holdings|
    ensures row in Sweep(input, jobs) && row.tokenMint == input.holdings[i].mint <==> SweptFrom(input, jobs, row, i)
  {
    SweptOrigin(input, jobs, |input.holdings|, row);
  }

  /** The sweep makes a job for a holding exactly when the holding is stranded. */
  lemma SweptExactly(input: Input, jobs: seq<Row>, i: nat)
    requires |input.ids| == |input.holdings| && MintsDiffer(input.holdings) && i < |input.holdings|
    ensures (exists row :: row in Sweep(input, jobs) && row.tokenMint == input.holdings[i].mint) <==>
            Stranded(input, jobs, input.holdings[i])
  {
    var next := NextOrphanSweepJob(input.holdings[i], input.ids[i], ActiveMints(jobs), TerminalByMint(jobs), input);
    NextExactly(input, jobs, input.holdings[i], input.ids[i]);
    if next.Some? {
      SweptOfMint(input, jobs, i, next.value);
    }
    forall row | row in Sweep(input, jobs) && row.tokenMint == input.holdings[i].mint
      ensures next.Some?
    {
      SweptOfMint(input, jobs, i, row);
    }
  }

  /**
   * What the job of a swept holding says: it is the last dead job of the mint, tried once more, or a
   * new one under the drawn id; for the amount now held, due at once, with a full time to live.
   */
  lemma SweptRowSays(input: Input, jobs: seq<Row>, i: nat, row: Row)
    requires |input.ids| == |input.holdings| && MintsDiffer(input.holdings) && i < |input.holdings|
    requires row in Sweep(input, jobs) && row.tokenMint == input.holdings[i].mint
    ensures row.amountAtomic == input.holdings[i].amountAtomic && row.status.Pending?
    ensures row.nextRetryAt == Some(input.now) && row.expiresAt == input.now + input.maxPendingMs
    ensures row.txSignature.None? && row.confirmedOutputAtomic.None? && row.error.None? && row.updatedAt == input.now
    ensures forall k: nat :: LastDead(jobs, row.tokenMint, k) ==>
              && row.id == jobs[k].id && row.positionId == jobs[k].positionId && row.attempts == jobs[k].attempts + 1
              && row.createdAt == jobs[k].createdAt && row.finalizedAt == jobs[k].finalizedAt
    ensures !SomeDead(jobs, row.tokenMint) ==>
              && row.id == input.ids[i] && row.positionId == "orphan:" + input.ids[i] && row.attempts == 0
              && row.outputUsd.None? && row.executionCostUsd.None? && row.finalizedAt.None?
              && row.realizedPnlUsd.None? && row.createdAt == input.now
  {
    SweptOfMint(input, jobs, i, row);
    LastDeadIsUsed(jobs, row.tokenMint);
  }

  lemma SweptGrows(input: Input, jobs: seq<Row>, k: nat)
    requires 0 < k <= |input.holdings| == |input.ids|
    ensures var before, swept := Swept(input, jobs, k - 1), Swept(input, jobs, k);
      && before <= swept && |swept| <= |before| + 1
      && (|swept| > |before| ==> swept[|before|].tokenMint == input.holdings[k - 1].mint)
  {
    LastDeadIsUsed(jobs, input.holdings[k - 1].mint);
  }

  /** One job at most for each holding, and none for anything else. */
  lemma {:induction false} SweptMintsAreHeld(input: Input, jobs: seq<Row>, k: nat)
    requires k <= |input.holdings| == |input.ids| && MintsDiffer(input.holdings)
    ensures var swept := Swept(input, jobs, k);
      && (forall a :: 0 <= a < |swept| ==> exists i :: 0 <= i < k && input.holdings[i].mint == swept[a].tokenMint)
      && (forall a, b :: 0 <= a < b < |swept| ==> swept[a].tokenMint != swept[b].tokenMint)
  {
    if k == 0 {
    } else {
      SweptMintsAreHeld(input, jobs, k - 1);
      SweptGrows(input, jobs, k);
      var before, swept := Swept(input, jobs, k - 1), Swept(input, jobs, k);
      assert forall a :: 0 <= a < |before| ==> swept[a] == before[a];
    }
  }
}
