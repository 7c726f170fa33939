/** The processor as it runs: rows saved one by one in a table that its methods update. */
module SettlementStore {
  import opened Prelude
  import opened SettlementJobs

  datatype Mode = Off | Shadow | Canary | Live

  type Rows = map<string, Row>

  /** Upserts in order. */
  function ApplyWrites(rows: Rows, writes: seq<Row>): Rows {
    if writes == [] then rows
    else var last := writes[|writes| - 1]; ApplyWrites(rows, writes[..|writes| - 1])[last.id := last]
  }

  lemma {:induction false} ApplyConcat(rows: Rows, xs: seq<Row>, ys: seq<Row>)
    ensures ApplyWrites(rows, xs + ys) == ApplyWrites(ApplyWrites(rows, xs), ys)
  {
    if ys == [] {
      assert xs + ys == xs;
    } else {
      assert (xs + ys)[..|xs + ys| - 1] == xs + ys[..|ys| - 1];
      ApplyConcat(rows, xs, ys[..|ys| - 1]);
    }
  }

  /** A sold row and what was sold for it. */
  datatype Sold = Sold(jobId: string, mint: string, sale: Sale)

  /** The state after a prefix of a pass: the table, the returned rows, the sales. */
  datatype Pass = Pass(rows: Rows, processed: seq<Row>, sold: seq<Sold>)

  function Listed(job: Row, sale: Option<Sale>): seq<Sold> {
    match sale
    case None => []
    case Some(s) => [Sold(job.id, job.tokenMint, s)]
  }

  function OptionSeq<T>(o: Option<T>): seq<T> {
    match o
    case None => []
    case Some(v) => [v]
  }

  function Extend(pass: Pass, job: Row, o: Outcome): Pass {
    Pass(ApplyWrites(pass.rows, o.writes), pass.processed + OptionSeq(o.returned), pass.sold + Listed(job, o.sale))
  }

  /** Processing `jobs` in order, each with its own replies. */
  function RunPass(now: int, dustUsd: real, rows: Rows, jobs: seq<Row>, replies: seq<Replies>): Pass
    requires |jobs| == |replies|
  {
    if jobs == [] then Pass(rows, [], [])
    else
      var n := |jobs| - 1;
      Extend(RunPass(now, dustUsd, rows, jobs[..n], replies[..n]), jobs[n], Process(now, dustUsd, replies[n], jobs[n]))
  }

  lemma PassStep(now: int, dustUsd: real, rows: Rows, jobs: seq<Row>, replies: seq<Replies>, i: nat)
    requires i < |jobs| == |replies|
    ensures RunPass(now, dustUsd, rows, jobs[..i + 1], replies[..i + 1])
         == Extend(RunPass(now, dustUsd, rows, jobs[..i], replies[..i]), jobs[i],
                   Process(now, dustUsd, replies[i], jobs[i]))
  {
    assert jobs[..i + 1][..i] == jobs[..i] && replies[..i + 1][..i] == replies[..i];
  }

  lemma ExtendsTo(p: Pass, job: Row, o: Outcome, before: seq<Sold>)
    ensures var t := Extend(p, job, o);
      && t.rows == ApplyWrites(p.rows, o.writes) && t.processed == p.processed + OptionSeq(o.returned)
      && before + t.sold == (before + p.sold) + Listed(job, o.sale)
  {
  }

  class JobTable {
    var rows: Rows
    ghost var sold: seq<Sold>

    constructor ()
      ensures rows == map[] && sold == []
    {
      rows, sold := map[], [];
    }

    method Save(row: Row)
      modifies `rows
      ensures rows == old(rows)[row.id := row]
    {
      rows := rows[row.id := row];
    }

    /** submitSwap: the callback saves the signature before the confirmation is awaited. */
    method SubmitSwap(now: int, r: Replies, job: Row, amount: nat)
        returns (captured: Option<Signature>, outcome: Call<Signature>)
      modifies this
      ensures r.submission.Refused? ==>
                captured.None? && outcome == Failed(r.submission.transient) && rows == old(rows) && sold == old(sold)
      ensures r.submission.Unreported? ==>
                && captured.None? && outcome == Failed(r.submission.transient) && rows == old(rows)
                && sold == old(sold) + [Sold(job.id, job.tokenMint, Sale(r.submission.signature, amount))]
      ensures r.submission.Broadcast? ==>
                && captured == Some(r.submission.signature)
                && sold == old(sold) + [Sold(job.id, job.tokenMint, Sale(r.submission.signature, amount))]
                && rows == (if r.submission.saved
                            then old(rows)[job.id := SubmittedRow(job, now, r.submission.signature)]
                            else old(rows))
                && (outcome.Ok? <==> r.submission.saved && r.submission.confirm.Ok?)
                && (outcome.Ok? ==> outcome.value == r.submission.signature)
    {
      match r.submission
      case Refused(t) => captured, outcome := None, Failed(t);
      case Unreported(signature, t) =>
        sold := sold + [Sold(job.id, job.tokenMint, Sale(signature, amount))];
        captured, outcome := None, Failed(t);
      case Broadcast(signature, saved, confirm) =>
        sold := sold + [Sold(job.id, job.tokenMint, Sale(signature, amount))];
        captured := Some(signature);
        if saved {
          Save(SubmittedRow(job, now, signature));
          outcome := if confirm.Ok? then Ok(signature) else Failed(confirm.transient);
        } else {
          outcome := Failed(false);
        }
    }

    method QuoteAndSubmitSettlement(now: int, r: Replies, job: Row, amount: nat, sol: real, decimals: nat, price: real)
      returns (result: Call<Row>)
      modifies this
      ensures var a := QuoteAndSubmit(now, r, job, amount, sol, decimals, price);
        && result == a.result && rows == ApplyWrites(old(rows), a.writes) && sold == old(sold) + Listed(job, a.sale)
    {
      if !r.hasSwapOps { return Failed(false); }
      if r.quote.Failed? { return Failed(r.quote.transient); }
      if r.prepare.Failed? { return Failed(r.prepare.transient); }
      if r.simulate.Failed? { return Failed(r.simulate.transient); }
      if r.nativeBefore.Failed? { return Failed(r.nativeBefore.transient); }
      var nativeBefore := r.nativeBefore.value;
      if r.savePrepared.Failed? { return Failed(r.savePrepared.transient); }
      Save(PreparedRow(job, now));
      ghost var first := [PreparedRow(job, now)];
      assert first[..0] == [] && rows == ApplyWrites(old(rows), first);
      var captured, outcome := SubmitSwap(now, r, job, amount);
      if captured.None? { return Failed(r.submission.transient); }
      ghost var second := first + [SubmittedRow(job, now, captured.value)];
      assert second[..1] == first && rows == ApplyWrites(old(rows), if r.submission.saved then second else first);
      var unmeasured := ReconciliationJob(job.(txSignature := captured, confirmedOutputAtomic := Some(0)), now);
      if outcome.Failed? || r.nativeAfter.Failed? { return Ok(unmeasured); }
      var output := if r.nativeAfter.value > nativeBefore then r.nativeAfter.value - nativeBefore else 0;
      if output == 0 { return Ok(unmeasured); }
      result := Ok(ConfirmedSale(job, amount, output, sol, decimals, price, outcome.value, now));
    }

    method SettleFresh(now: int, dustUsd: real, r: Replies, job: Row) returns (result: Call<Row>)
      modifies this
      ensures var a := Settle(now, dustUsd, r, job);
        && result == a.result && rows == ApplyWrites(old(rows), a.writes) && sold == old(sold) + Listed(job, a.sale)
    {
      if r.prices.Failed? { return Failed(r.prices.transient); }
      var sol := PriceOf(r.prices.value, SOL_MINT);
      if !(sol > 0.0) { return Failed(false); }
      var amount := ClampToWallet(r, job.amountAtomic);
      var early := EarlyResult(job, amount, sol, now);
      if early.Some? { return Ok(early.value); }
      if r.decimals.Failed? { return Failed(r.decimals.transient); }
      var price := PriceOf(r.prices.value, job.tokenMint);
      var dust := DustRecord(now, dustUsd, job, amount, r.decimals.value, price);
      if dust.Some? { return Ok(dust.value); }
      result := QuoteAndSubmitSettlement(now, r, job, amount, sol, r.decimals.value, price);
    }

    /** None when the result could not be persisted. */
    /** The row a due job leads to: from its broadcast, or from a fresh swap. */
    method AttemptSettlement(now: int, dustUsd: real, r: Replies, job: Row) returns (result: Call<Row>)
      modifies this
      ensures var a := Attempted(now, dustUsd, r, job);
        && result == a.result && rows == ApplyWrites(old(rows), a.writes) && sold == old(sold) + Listed(job, a.sale)
    {
      var broadcast := ResolveBroadcast(now, r, job);
      match broadcast {
        case Failed(t) => result := Failed(t);
        case Ok(Some(row)) => result := Ok(row);
        case Ok(None) =>
          if job.status.Prepared? && job.txSignature.None? {
            result := Failed(false);
          } else {
            result := SettleFresh(now, dustUsd, r, job);
          }
      }
    }

    /** Saves the row a job has become, if it can be saved. */
    method SaveResult(r: Replies, final: Row) returns (returned: Option<Row>)
      modifies `rows
      ensures rows == ApplyWrites(old(rows), if r.saveResult then [final] else [])
      ensures returned == if r.saveResult then Some(final) else None
    {
      returned := None;
      if r.saveResult {
        assert [final][..0] == [];
        Save(final);
        returned := Some(final);
      }
    }

    method ProcessOneSettlementJob(now: int, dustUsd: real, r: Replies, job: Row) returns (returned: Option<Row>)
      modifies this
      ensures var o := Process(now, dustUsd, r, job);
        && returned == o.returned && rows == ApplyWrites(old(rows), o.writes) && sold == old(sold) + Listed(job, o.sale)
    {
      if Skippable(job, now) { return Some(job); }
      var result := AttemptSettlement(now, dustUsd, r, job);
      var final := match result case Ok(row) => row case Failed(t) => RetryableJob(job, now, t);
      ghost var writes := Attempted(now, dustUsd, r, job).writes;
      ApplyConcat(old(rows), writes, if r.saveResult then [final] else []);
      returned := SaveResult(r, final);
    }

    /** The processor loop; nothing happens when the mode is off or shadow. */
    method ProcessJobs(mode: Mode, now: int, dustUsd: real, jobs: seq<Row>, replies: seq<Replies>)
        returns (processed: seq<Row>)
      requires |jobs| == |replies|
      modifies this
      ensures mode.Off? || mode.Shadow? ==> processed == jobs && rows == old(rows) && sold == old(sold)
      ensures mode.Canary? || mode.Live? ==>
                var p := RunPass(now, dustUsd, old(rows), jobs, replies);
                rows == p.rows && processed == p.processed && sold == old(sold) + p.sold
    {
      if mode.Off? || mode.Shadow? { return jobs; }
      processed := [];
      ghost var p := Pass(rows, [], []);
      for i := 0 to |jobs|
        invariant p == RunPass(now, dustUsd, old(rows), jobs[..i], replies[..i])
        invariant rows == p.rows && processed == p.processed && sold == old(sold) + p.sold
      {
        PassStep(now, dustUsd, old(rows), jobs, replies, i);
        ghost var o := Process(now, dustUsd, replies[i], jobs[i]);
        var result := ProcessOneSettlementJob(now, dustUsd, replies[i], jobs[i]);
        ExtendsTo(p, jobs[i], o, old(sold));
        processed := processed + OptionSeq(result);
        p := Extend(p, jobs[i], o);
      }
      assert jobs[..|jobs|] == jobs && replies[..|jobs|] == replies;
    }
  }
}
