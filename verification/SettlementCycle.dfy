/**
 * One engine cycle: list the rows, sweep, save the swept rows, process list and swept
 * rows from that snapshot. It is a run of ledger moves, so what holds of all runs holds
 * of all cycles, although a revived row is listed twice - dead and pending.
 */
module SettlementCycle {
  import opened SettlementJobs
  import opened SettlementStore
  import opened SettlementSweep
  import opened SettlementLedger

  predicate Alive(job: Row) {
    !job.status.Terminal?
  }

  /** Each row that is not terminal is listed once, as the table holds it. */
  ghost predicate Snapshot(rows: Rows, jobs: seq<Row>) {
    && (forall j :: j in jobs && Alive(j) ==> j.id in rows && rows[j.id] == j)
    && (forall i, k :: 0 <= i < k < |jobs| && Alive(jobs[i]) && Alive(jobs[k]) ==> jobs[i].id != jobs[k].id)
  }

  /** The moves of one pass: one per row that is not terminal. */
  function PassMoves(now: int, dustUsd: real, jobs: seq<Row>, replies: seq<Replies>): seq<Move>
    requires |jobs| == |replies|
  {
    if jobs == [] then []
    else
      var n := |jobs| - 1;
      PassMoves(now, dustUsd, jobs[..n], replies[..n]) +
      (if Alive(jobs[n]) then [Handled(jobs[n].id, now, dustUsd, replies[n])] else [])
  }

  function SoldSignatures(sold: seq<Sold>, id: string): seq<Signature> {
    if sold == [] then []
    else
      var last := sold[|sold| - 1];
      SoldSignatures(sold[..|sold| - 1], id) + (if last.jobId == id then [last.sale.signature] else [])
  }

  lemma {:induction false} RunSnoc(l: Ledger, moves: seq<Move>, m: Move)
    ensures Run(l, moves + [m]) == Next(Run(l, moves), m)
    decreases |moves|
  {
    if moves == [] {
      assert [m][1..] == [] && [] + [m] == [m];
      assert Run(l, [m]) == Run(Next(l, m), []);
    } else {
      assert (moves + [m])[0] == moves[0] && (moves + [m])[1..] == moves[1..] + [m];
      RunSnoc(Next(l, moves[0]), moves[1..], m);
    }
  }

  /** The ids a pass may write. */
  function AliveIds(jobs: seq<Row>): set<string> {
    set j | j in jobs && Alive(j) :: j.id
  }

  lemma NotYetVisited(jobs: seq<Row>, rows: Rows)
    requires jobs != [] && Snapshot(rows, jobs) && Alive(jobs[|jobs| - 1])
    ensures jobs[|jobs| - 1].id !in AliveIds(jobs[..|jobs| - 1])
    ensures jobs[|jobs| - 1].id in rows && rows[jobs[|jobs| - 1].id] == jobs[|jobs| - 1]
  {
    assert jobs[|jobs| - 1] in jobs;
  }

  lemma ShorterSnapshot(jobs: seq<Row>, rows: Rows)
    requires jobs != [] && Snapshot(rows, jobs)
    ensures var n := |jobs| - 1;
      Snapshot(rows, jobs[..n]) && (!Alive(jobs[n]) ==> AliveIds(jobs) == AliveIds(jobs[..n]))
  {
    assert forall j :: j in jobs <==> j in jobs[..|jobs| - 1] || j == jobs[|jobs| - 1];
  }

  /** Rows of other ids are as they were. */
  ghost predicate OnlyChanges(a: Rows, b: Rows, ids: set<string>) {
    forall id :: id !in ids ==> (id in b <==> id in a) && (id in a ==> b[id] == a[id])
  }

  lemma HandledChangesOne(rows: Rows, before: Rows, jobs: seq<Row>, now: int, dustUsd: real, r: Replies)
    requires jobs != [] && Snapshot(rows, jobs) && Alive(jobs[|jobs| - 1])
    requires OnlyChanges(rows, before, AliveIds(jobs[..|jobs| - 1]))
    ensures var job := jobs[|jobs| - 1];
      && job.id in before && before[job.id] == job
      && OnlyChanges(rows, ApplyWrites(before, Process(now, dustUsd, r, job).writes), AliveIds(jobs))
  {
    var job := jobs[|jobs| - 1];
    NotYetVisited(jobs, rows);
    HandledRow(now, dustUsd, r, job, before);
    assert AliveIds(jobs) == AliveIds(jobs[..|jobs| - 1]) + {job.id};
  }

  /** A pass over a snapshot leaves the table of the run of its moves, and touches no other row. */
  lemma {:induction false} PassIsRun(l: Ledger, now: int, dustUsd: real, jobs: seq<Row>, replies: seq<Replies>)
    requires KeyedById(l.rows) && Snapshot(l.rows, jobs) && |jobs| == |replies|
    ensures var p := RunPass(now, dustUsd, l.rows, jobs, replies);
      var t := Run(l, PassMoves(now, dustUsd, jobs, replies));
      p.rows == t.rows && OnlyChanges(l.rows, t.rows, AliveIds(jobs))
    decreases |jobs|
  {
    if jobs == [] {
    } else {
      var n := |jobs| - 1;
      var job := jobs[n];
      var before := PassMoves(now, dustUsd, jobs[..n], replies[..n]);
      ShorterSnapshot(jobs, l.rows);
      PassIsRun(l, now, dustUsd, jobs[..n], replies[..n]);
      if Alive(job) {
        RunSnoc(l, before, Handled(job.id, now, dustUsd, replies[n]));
        HandledChangesOne(l.rows, Run(l, before).rows, jobs, now, dustUsd, replies[n]);
      } else {
        FinalRowsAreFixedPoints(now, dustUsd, replies[n], job);
        assert before + [] == before;
      }
    }
  }

  /** The signatures one processing adds for a job. */
  function NewSignatures(job: string, o: Outcome, id: string): seq<Signature> {
    if o.sale.Some? && job == id then [o.sale.value.signature] else []
  }

  lemma SentGrows(t: Ledger, job: string, o: Outcome, id: string)
    ensures SentOf(AfterHandled(t, job, o), id) == SentOf(t, id) + NewSignatures(job, o, id)
  {
  }

  lemma SoldAppend(sold: seq<Sold>, s: Sold, id: string)
    ensures SoldSignatures(sold + [s], id) ==
            SoldSignatures(sold, id) + if s.jobId == id then [s.sale.signature] else []
  {
    assert (sold + [s])[..|sold + [s]| - 1] == sold;
  }

  lemma SoldGrows(p: Pass, job: Row, o: Outcome, id: string)
    ensures SoldSignatures(Extend(p, job, o).sold, id) == SoldSignatures(p.sold, id) + NewSignatures(job.id, o, id)
  {
    var sold := Extend(p, job, o).sold;
    if o.sale.None? {
      assert sold == p.sold;
    } else {
      assert sold == p.sold + [sold[|sold| - 1]];
      SoldAppend(p.sold, sold[|sold| - 1], id);
    }
  }

  lemma PassStepSales(l: Ledger, t: Ledger, p: Pass, job: Row, o: Outcome)
    requires forall id :: SentOf(t, id) == SentOf(l, id) + SoldSignatures(p.sold, id)
    ensures forall id :: SentOf(AfterHandled(t, job.id, o), id)
                      == SentOf(l, id) + SoldSignatures(Extend(p, job, o).sold, id)
  {
    forall id
      ensures SentOf(AfterHandled(t, job.id, o), id) == SentOf(l, id) + SoldSignatures(Extend(p, job, o).sold, id)
    {
      SentGrows(t, job.id, o, id);
      SoldGrows(p, job, o, id);
    }
  }

  /** The sales of a pass are the broadcasts of the run, job by job and in order. */
  lemma {:induction false} PassSalesAreRun(l: Ledger, now: int, dustUsd: real, jobs: seq<Row>, replies: seq<Replies>)
    requires KeyedById(l.rows) && Snapshot(l.rows, jobs) && |jobs| == |replies|
    ensures var p := RunPass(now, dustUsd, l.rows, jobs, replies);
      var t := Run(l, PassMoves(now, dustUsd, jobs, replies));
      forall id :: SentOf(t, id) == SentOf(l, id) + SoldSignatures(p.sold, id)
    decreases |jobs|
  {
    if jobs == [] {
    } else {
      var n := |jobs| - 1;
      var job := jobs[n];
      assert forall j :: j in jobs[..n] ==> j in jobs;
      PassSalesAreRun(l, now, dustUsd, jobs[..n], replies[..n]);
      PassIsRun(l, now, dustUsd, jobs[..n], replies[..n]);
      var p := RunPass(now, dustUsd, l.rows, jobs[..n], replies[..n]);
      var t := Run(l, PassMoves(now, dustUsd, jobs[..n], replies[..n]));
      if Alive(job) {
        RunSnoc(l, PassMoves(now, dustUsd, jobs[..n], replies[..n]), Handled(job.id, now, dustUsd, replies[n]));
        NotYetVisited(jobs, l.rows);
        PassStepSales(l, t, p, job, Process(now, dustUsd, replies[n], job));
      } else {
        FinalRowsAreFixedPoints(now, dustUsd, replies[n], job);
        assert p.sold + [] == p.sold;
        var before := PassMoves(now, dustUsd, jobs[..n], replies[..n]);
        assert before + [] == before;
      }
    }
  }

  /** Listing, sweeping and saving yields a snapshot: a revived row's dead copy does not count. */
  lemma CycleSnapshot(rows: Rows, jobs: seq<Row>, input: Input)
    requires KeyedById(rows) && IsListing(rows, jobs) && WellFormed(input, rows)
    requires forall i, k :: 0 <= i < k < |jobs| ==> jobs[i].id != jobs[k].id
    ensures KeyedById(AfterSweep(input, jobs, rows))
    ensures Snapshot(AfterSweep(input, jobs, rows), jobs + Sweep(input, jobs))
  {
    var swept := Sweep(input, jobs);
    var after := AfterSweep(input, jobs, rows);
    var all := jobs + swept;
    SweepEffect(input, jobs, rows);
    SweptDistinct(input, jobs, rows, |input.holdings|);
    forall j | j in jobs && Alive(j)
      ensures j.id in after && after[j.id] == j
    {
      if after[j.id] != j {
        var i: nat :| SweptFrom(input, jobs, after[j.id], i);
        SweptRowIsFresh(input, jobs, rows, after[j.id], i);
      }
    }
    forall j | j in swept
      ensures j.id in after && after[j.id] == j && (j.id in rows ==> !Alive(rows[j.id]))
    {
      SweptOrigin(input, jobs, |input.holdings|, j);
      var i: nat :| SweptFrom(input, jobs, j, i);
      SweptRowIsFresh(input, jobs, rows, j, i);
    }
    forall i, k | 0 <= i < k < |all| && Alive(all[i]) && Alive(all[k])
      ensures all[i].id != all[k].id
    {
      if i < |jobs| && k >= |jobs| { assert all[k] in swept && all[i] in jobs; }
    }
  }

  /** The moves of a whole cycle. */
  function CycleMoves(jobs: seq<Row>, input: Input, dustUsd: real, replies: seq<Replies>): seq<Move>
    requires |input.ids| == |input.holdings| && |replies| == |jobs| + |Sweep(input, jobs)|
  {
    [Orphans(input, jobs)] + PassMoves(input.now, dustUsd, jobs + Sweep(input, jobs), replies)
  }

  /** A cycle is the run of its moves. */
  lemma CycleIsRun(l: Ledger, jobs: seq<Row>, input: Input, dustUsd: real, replies: seq<Replies>)
    requires KeyedById(l.rows) && IsListing(l.rows, jobs) && WellFormed(input, l.rows)
    requires forall i, k :: 0 <= i < k < |jobs| ==> jobs[i].id != jobs[k].id
    requires |replies| == |jobs| + |Sweep(input, jobs)|
    ensures var p := RunPass(input.now, dustUsd, AfterSweep(input, jobs, l.rows), jobs + Sweep(input, jobs), replies);
      var t := Run(l, CycleMoves(jobs, input, dustUsd, replies));
      p.rows == t.rows && forall id :: SentOf(t, id) == SentOf(l, id) + SoldSignatures(p.sold, id)
  {
    CycleSnapshot(l.rows, jobs, input);
    var swept := Next(l, Orphans(input, jobs));
    PassIsRun(swept, input.now, dustUsd, jobs + Sweep(input, jobs), replies);
    PassSalesAreRun(swept, input.now, dustUsd, jobs + Sweep(input, jobs), replies);
    var moves := CycleMoves(jobs, input, dustUsd, replies);
    assert moves[0] == Orphans(input, jobs);
    assert moves[1..] == PassMoves(input.now, dustUsd, jobs + Sweep(input, jobs), replies);
  }
}
