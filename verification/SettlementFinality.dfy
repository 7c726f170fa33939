/**
 * A finalised position stays finalised: over any life of cycles, as long as nothing is
 * enqueued for it, no pass finds its group due again.
 */
module SettlementFinality {
  import opened Prelude
  import opened SettlementJobs
  import opened SettlementStore
  import opened SettlementSweep
  import opened SettlementLedger
  import opened SettlementUnsaved
  import opened SettlementCycles
  import G = SettlementGroups

  /** A row that keeps the position's group from being due: another position's, or a stamped one. */
  predicate Closed(row: Row, positionId: string) {
    row.positionId == positionId ==> row.finalizedAt.Some?
  }

  ghost predicate AllClosed(rows: Rows, positionId: string) {
    forall id :: id in rows ==> Closed(rows[id], positionId)
  }

  ghost predicate EachClosed(rows: seq<Row>, positionId: string) {
    forall row :: row in rows ==> Closed(row, positionId)
  }

  lemma NotDue(processed: seq<Row>, positionId: string)
    requires EachClosed(processed, positionId)
    ensures !G.Due(processed, positionId)
  {
  }

  lemma {:induction false} ApplyKeepsClosed(rows: Rows, writes: seq<Row>, positionId: string)
    requires AllClosed(rows, positionId) && EachClosed(writes, positionId)
    ensures AllClosed(ApplyWrites(rows, writes), positionId)
  {
    if writes == [] {
    } else {
      ApplyKeepsClosed(rows, writes[..|writes| - 1], positionId);
    }
  }

  /** Processing leaves a job's position and stamp alone, whatever the world replies. */
  lemma ProcessKeepsClosed(now: int, dustUsd: real, r: Replies, job: Row, positionId: string)
    requires Closed(job, positionId)
    ensures var o := Process(now, dustUsd, r, job);
      EachClosed(o.writes, positionId) && EachClosed(OptionSeq(o.returned), positionId)
  {
    var o := Process(now, dustUsd, r, job);
    ProcessKeepsJob(now, dustUsd, r, job);
    assert o.returned.Some? && o.returned != Some(job) ==> o.returned.value == o.writes[|o.writes| - 1];
  }

  lemma ExtendKeepsClosed(p: Pass, job: Row, o: Outcome, positionId: string)
    requires AllClosed(p.rows, positionId) && EachClosed(p.processed, positionId)
    requires EachClosed(o.writes, positionId) && EachClosed(OptionSeq(o.returned), positionId)
    ensures AllClosed(Extend(p, job, o).rows, positionId) && EachClosed(Extend(p, job, o).processed, positionId)
  {
    ApplyKeepsClosed(p.rows, o.writes, positionId);
  }

  lemma {:induction false} PassKeepsClosed(
      now: int, dustUsd: real, rows: Rows, jobs: seq<Row>, replies: seq<Replies>, positionId: string)
    requires |jobs| == |replies| && AllClosed(rows, positionId) && EachClosed(jobs, positionId)
    ensures var p := RunPass(now, dustUsd, rows, jobs, replies);
      AllClosed(p.rows, positionId) && EachClosed(p.processed, positionId)
    decreases |jobs|
  {
    if jobs == [] {
    } else {
      var n := |jobs| - 1;
      var o := Process(now, dustUsd, replies[n], jobs[n]);
      PassKeepsClosed(now, dustUsd, rows, jobs[..n], replies[..n], positionId);
      ProcessKeepsClosed(now, dustUsd, replies[n], jobs[n], positionId);
      ExtendKeepsClosed(RunPass(now, dustUsd, rows, jobs[..n], replies[..n]), jobs[n], o, positionId);
    }
  }

  predicate OfOrphan(positionId: string) {
    "orphan:" <= positionId
  }

  lemma NextIsClosed(h: Holding, id: string, jobs: seq<Row>, input: Input, positionId: string)
    requires EachClosed(jobs, positionId) && !OfOrphan(positionId)
    ensures EachClosed(OptionSeq(NextOrphanSweepJob(h, id, ActiveMints(jobs), TerminalByMint(jobs), input)), positionId)
  {
    var next := NextOrphanSweepJob(h, id, ActiveMints(jobs), TerminalByMint(jobs), input);
    if next.Some? && h.mint !in TerminalByMint(jobs) {
      assert OfOrphan(next.value.positionId);
    }
  }

  /** A swept row revives one of the listed rows, stamp included, or is of an orphan's position. */
  lemma {:induction false} SweptIsClosed(input: Input, jobs: seq<Row>, k: nat, positionId: string)
    requires k <= |input.holdings| == |input.ids| && EachClosed(jobs, positionId) && !OfOrphan(positionId)
    ensures EachClosed(Swept(input, jobs, k), positionId)
    decreases k
  {
    if k == 0 {
    } else {
      SweptIsClosed(input, jobs, k - 1, positionId);
      NextIsClosed(input.holdings[k - 1], input.ids[k - 1], jobs, input, positionId);
    }
  }

  lemma {:induction false} KeepRowsClosed(rows: seq<Row>, keep: set<string>, positionId: string)
    requires EachClosed(rows, positionId)
    ensures EachClosed(KeepRows(rows, keep), positionId)
  {
    if rows == [] {
    } else {
      KeepRowsClosed(rows[..|rows| - 1], keep, positionId);
    }
  }

  lemma ConcatClosed(a: seq<Row>, b: seq<Row>, positionId: string)
    requires EachClosed(a, positionId) && EachClosed(b, positionId)
    ensures EachClosed(a + b, positionId)
  {
  }

  lemma CycleKeepsClosed(rows: Rows, r: Round, positionId: string)
    requires Shaped(r) && IsListing(rows, r.jobs) && AllClosed(rows, positionId) && !OfOrphan(positionId)
    ensures var p := CyclePass(rows, r);
      AllClosed(p.rows, positionId) && EachClosed(p.processed, positionId)
  {
    var swept := Sweep(r.input, r.jobs);
    SweptIsClosed(r.input, r.jobs, |r.input.holdings|, positionId);
    KeepRowsClosed(swept, r.saved, positionId);
    ConcatClosed(r.jobs, swept, positionId);
    ApplyKeepsClosed(rows, KeepRows(swept, r.saved), positionId);
    PassKeepsClosed(r.input.now, r.dustUsd, ApplyWrites(rows, KeepRows(swept, r.saved)), r.jobs + swept, r.replies,
                    positionId);
  }

  /** No row of the position is enqueued. */
  predicate Spares(moves: seq<Move>, positionId: string) {
    forall m :: m in moves && m.Enqueued? ==> m.row.positionId != positionId
  }

  lemma {:induction false} BetweenKeepsClosed(l: Ledger, moves: seq<Move>, positionId: string)
    requires AllClosed(l.rows, positionId) && Spares(moves, positionId)
    requires forall i :: 0 <= i < |moves| ==> Outside(moves[i])
    ensures AllClosed(Run(l, moves).rows, positionId)
    decreases |moves|
  {
    if moves == [] {
    } else {
      assert moves[0] in moves;
      BetweenKeepsClosed(Next(l, moves[0]), moves[1..], positionId);
    }
  }

  /** In no cycle of this life do the processed rows make the position's group due. */
  ghost predicate NeverDue(rows: Rows, rounds: seq<Round>, positionId: string)
    requires forall i :: 0 <= i < |rounds| ==> Shaped(rounds[i])
    decreases |rounds|
  {
    rounds != [] ==>
      var p := CyclePass(TableBetween(rows, rounds[0].between), rounds[0]);
      !G.Due(p.processed, positionId) && NeverDue(p.rows, rounds[1..], positionId)
  }

  /**
   * Once every row of a position is stamped, no cycle of any life finds its group due, through
   * processings, sweeps, failed saves and the closing of other groups, while none of its rows is enqueued.
   */
  lemma {:induction false} ClosedForGood(rows: Rows, rounds: seq<Round>, positionId: string)
    requires forall i :: 0 <= i < |rounds| ==> Shaped(rounds[i])
    requires AllFit(rows, rounds) && AllClosed(rows, positionId) && !OfOrphan(positionId)
    requires forall r :: r in rounds ==> Spares(r.between, positionId)
    ensures NeverDue(rows, rounds, positionId)
    decreases |rounds|
  {
    if rounds == [] {
    } else {
      var r := rounds[0];
      var t := TableBetween(rows, r.between);
      assert r in rounds;
      BetweenKeepsClosed(Ledger(rows, map[], map[]), r.between, positionId);
      CycleKeepsClosed(t, r, positionId);
      NotDue(CyclePass(t, r).processed, positionId);
      ClosedForGood(CyclePass(t, r).rows, rounds[1..], positionId);
    }
  }

  /** Finalising a group whose rows have all persisted closes it for good. */
  lemma FinalizedForGood(
      b: G.Book, processed: seq<Row>, positionId: string, usable: set<string>, model: G.PnlModel, now: int,
      rounds: seq<Round>)
    requires G.Consistent(b, processed) && G.Closes(b, processed, positionId, usable)
    requires G.GroupPersisted(b, processed, positionId) && !OfOrphan(positionId)
    requires forall i :: 0 <= i < |rounds| ==> Shaped(rounds[i])
    requires AllFit(G.Finalize(b, processed, usable, model, now).rows, rounds)
    requires forall r :: r in rounds ==> Spares(r.between, positionId)
    ensures NeverDue(G.Finalize(b, processed, usable, model, now).rows, rounds, positionId)
  {
    var t := G.Finalize(b, processed, usable, model, now);
    forall id | id in t.rows && t.rows[id].positionId == positionId
      ensures t.rows[id].finalizedAt.Some?
    {
      G.StoredRowIsStamped(b, processed, positionId, usable, model, now, id);
    }
    ClosedForGood(t.rows, rounds, positionId);
  }
}
