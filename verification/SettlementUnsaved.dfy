/**
 * Cycles in which saving some swept rows fails. The failure is swallowed and the row is
 * processed all the same; the cycle is then a run of a sweep over fewer holdings: those whose
 * row was saved after all, by the sweep or by its processing.
 */
module SettlementUnsaved {
  import opened Prelude
  import opened SettlementJobs
  import opened SettlementStore
  import opened SettlementSweep
  import opened SettlementLedger
  import opened SettlementCycle

  // ---- A sweep over some of the holdings ----

  function KeepHoldings(hs: seq<Holding>, keep: set<string>): seq<Holding> {
    if hs == [] then []
    else
      var init, last := KeepHoldings(hs[..|hs| - 1], keep), hs[|hs| - 1];
      if last.mint in keep then init + [last] else init
  }

  function KeepIds(hs: seq<Holding>, ids: seq<string>, keep: set<string>): (r: seq<string>)
    requires |hs| == |ids|
    ensures |r| == |KeepHoldings(hs, keep)|
  {
    if hs == [] then []
    else
      var init := KeepIds(hs[..|hs| - 1], ids[..|ids| - 1], keep);
      if hs[|hs| - 1].mint in keep then init + [ids[|ids| - 1]] else init
  }

  function KeepRows(rows: seq<Row>, keep: set<string>): seq<Row> {
    if rows == [] then []
    else
      var init, last := KeepRows(rows[..|rows| - 1], keep), rows[|rows| - 1];
      if last.tokenMint in keep then init + [last] else init
  }

  function KeepReplies(rows: seq<Row>, replies: seq<Replies>, keep: set<string>): (r: seq<Replies>)
    requires |rows| == |replies|
    ensures |r| == |KeepRows(rows, keep)|
  {
    if rows == [] then []
    else
      var init := KeepReplies(rows[..|rows| - 1], replies[..|rows| - 1], keep);
      if rows[|rows| - 1].tokenMint in keep then init + [replies[|rows| - 1]] else init
  }

  /** The same sweep over the first k holdings, only those of the mints to keep. */
  function Restrict(input: Input, keep: set<string>, k: nat): (r: Input)
    requires k <= |input.holdings| == |input.ids|
    ensures |r.holdings| == |r.ids|
  {
    input.(holdings := KeepHoldings(input.holdings[..k], keep),
           ids := KeepIds(input.holdings[..k], input.ids[..k], keep))
  }

  /** What a sweep adds for its k-th holding. */
  lemma SweptStep(input: Input, jobs: seq<Row>, k: nat) returns (next: Option<Row>)
    requires 0 < k <= |input.holdings| == |input.ids|
    ensures Swept(input, jobs, k) == Swept(input, jobs, k - 1) + OptionSeq(next)
    ensures next.Some? ==> next.value.tokenMint == input.holdings[k - 1].mint
  {
    next := NextOrphanSweepJob(input.holdings[k - 1], input.ids[k - 1], ActiveMints(jobs), TerminalByMint(jobs), input);
  }

  lemma NextIgnoresRest(
      h: Holding, id: string, active: set<string>, terminals: map<string, Row>, a: Input, b: Input)
    requires a.(holdings := b.holdings, ids := b.ids) == b
    requires h.mint in terminals ==> terminals[h.mint].tokenMint == h.mint
    ensures NextOrphanSweepJob(h, id, active, terminals, a) == NextOrphanSweepJob(h, id, active, terminals, b)
    ensures var next := NextOrphanSweepJob(h, id, active, terminals, a);
      next.Some? ==> next.value.tokenMint == h.mint
  {
  }

  /** A sweep looks at its holdings one by one. */
  lemma {:induction false} SweptPrefix(a: Input, b: Input, jobs: seq<Row>, k: nat)
    requires k <= |a.holdings| == |a.ids| && k <= |b.holdings| == |b.ids|
    requires a.(holdings := b.holdings, ids := b.ids) == b
    requires forall i :: 0 <= i < k ==> a.holdings[i] == b.holdings[i] && a.ids[i] == b.ids[i]
    ensures Swept(a, jobs, k) == Swept(b, jobs, k)
    decreases k
  {
    if k == 0 {
    } else {
      SweptPrefix(a, b, jobs, k - 1);
      NextIgnoresRest(a.holdings[k - 1], a.ids[k - 1], ActiveMints(jobs), TerminalByMint(jobs), a, b);
    }
  }

  /** Sweeping one more holding. */
  lemma SweepOneMore(r: Input, s: Input, jobs: seq<Row>, h: Holding, id: string)
    requires |s.ids| == |s.holdings| && r == s.(holdings := s.holdings + [h], ids := s.ids + [id])
    ensures Sweep(r, jobs)
         == Sweep(s, jobs) + OptionSeq(NextOrphanSweepJob(h, id, ActiveMints(jobs), TerminalByMint(jobs), s))
  {
    SweptPrefix(r, s, jobs, |s.holdings|);
    NextIgnoresRest(h, id, ActiveMints(jobs), TerminalByMint(jobs), r, s);
  }

  /** Keeping is step by step. */
  lemma KeepOneMore(
      before: seq<Row>, after: seq<Row>, s: seq<Row>, r: seq<Row>, next: Option<Row>, mint: string, keep: set<string>)
    requires after == before + OptionSeq(next) && (next.Some? ==> next.value.tokenMint == mint)
    requires s == KeepRows(before, keep) && r == if mint in keep then s + OptionSeq(next) else s
    ensures r == KeepRows(after, keep)
  {
    if next.Some? {
      assert after[..|after| - 1] == before;
    } else {
      assert after == before && s + OptionSeq(next) == s;
    }
  }

  lemma RestrictMore(input: Input, keep: set<string>, k: nat)
    requires 0 < k <= |input.holdings| == |input.ids|
    ensures var h, id := input.holdings[k - 1], input.ids[k - 1];
      var s := Restrict(input, keep, k - 1);
      Restrict(input, keep, k)
      == if h.mint in keep then s.(holdings := s.holdings + [h], ids := s.ids + [id]) else s
  {
    assert input.holdings[..k][..k - 1] == input.holdings[..k - 1];
    assert input.ids[..k][..k - 1] == input.ids[..k - 1];
  }

  /** Sweeping one more holding adds the same row, or none. */
  lemma RestrictedStep(input: Input, jobs: seq<Row>, keep: set<string>, k: nat) returns (next: Option<Row>)
    requires 0 < k <= |input.holdings| == |input.ids|
    ensures Swept(input, jobs, k) == Swept(input, jobs, k - 1) + OptionSeq(next)
    ensures next.Some? ==> next.value.tokenMint == input.holdings[k - 1].mint
    ensures var s := Sweep(Restrict(input, keep, k - 1), jobs);
      Sweep(Restrict(input, keep, k), jobs) == if input.holdings[k - 1].mint in keep then s + OptionSeq(next) else s
  {
    var h, id := input.holdings[k - 1], input.ids[k - 1];
    var s := Restrict(input, keep, k - 1);
    next := NextOrphanSweepJob(h, id, ActiveMints(jobs), TerminalByMint(jobs), input);
    NextIgnoresRest(h, id, ActiveMints(jobs), TerminalByMint(jobs), input, s);
    RestrictMore(input, keep, k);
    if h.mint in keep {
      SweepOneMore(Restrict(input, keep, k), s, jobs, h, id);
    }
  }

  /** Sweeping those of the first k holdings that are to keep yields the rows to keep. */
  predicate SweepsKept(input: Input, jobs: seq<Row>, keep: set<string>, k: nat)
    requires k <= |input.holdings| == |input.ids|
  {
    Sweep(Restrict(input, keep, k), jobs) == KeepRows(Swept(input, jobs, k), keep)
  }

  lemma NothingSwept(input: Input, jobs: seq<Row>, keep: set<string>)
    requires |input.holdings| == |input.ids|
    ensures SweepsKept(input, jobs, keep, 0)
  {
    assert Sweep(Restrict(input, keep, 0), jobs) == [] == KeepRows(Swept(input, jobs, 0), keep);
  }

  lemma SweepsOneMore(input: Input, jobs: seq<Row>, keep: set<string>, k: nat)
    requires 0 < k <= |input.holdings| == |input.ids| && SweepsKept(input, jobs, keep, k - 1)
    ensures SweepsKept(input, jobs, keep, k)
  {
    var s, r := Sweep(Restrict(input, keep, k - 1), jobs), Sweep(Restrict(input, keep, k), jobs);
    var next := RestrictedStep(input, jobs, keep, k);
    KeepOneMore(Swept(input, jobs, k - 1), Swept(input, jobs, k), s, r, next, input.holdings[k - 1].mint, keep);
  }

  lemma {:induction false} SweepsAllKept(input: Input, jobs: seq<Row>, keep: set<string>, k: nat)
    requires k <= |input.holdings| == |input.ids|
    ensures SweepsKept(input, jobs, keep, k)
    decreases k
  {
    if k == 0 {
      NothingSwept(input, jobs, keep);
    } else {
      SweepsAllKept(input, jobs, keep, k - 1);
      SweepsOneMore(input, jobs, keep, k);
    }
  }

  /** Sweeping fewer holdings yields their rows and no others. */
  lemma RestrictedSweep(input: Input, jobs: seq<Row>, keep: set<string>, k: nat)
    requires k <= |input.holdings| == |input.ids|
    ensures Sweep(Restrict(input, keep, k), jobs) == KeepRows(Swept(input, jobs, k), keep)
  {
    SweepsAllKept(input, jobs, keep, k);
  }

  ghost predicate MintsDiffer(hs: seq<Holding>) {
    forall i, j :: 0 <= i < j < |hs| ==> hs[i].mint != hs[j].mint
  }

  ghost predicate AllDiffer(ids: seq<string>) {
    forall i, j :: 0 <= i < j < |ids| ==> ids[i] != ids[j]
  }

  lemma {:induction false} KeptHoldings(hs: seq<Holding>, keep: set<string>)
    requires MintsDiffer(hs)
    ensures MintsDiffer(KeepHoldings(hs, keep)) && forall h :: h in KeepHoldings(hs, keep) ==> h in hs
  {
    if hs == [] {
    } else {
      var n := |hs| - 1;
      var init := KeepHoldings(hs[..n], keep);
      KeptHoldings(hs[..n], keep);
      forall i | 0 <= i < |init|
        ensures init[i] in hs && init[i].mint != hs[n].mint
      {
        assert init[i] in hs[..n];
      }
    }
  }

  lemma AllDifferSnoc(ids: seq<string>, id: string)
    requires AllDiffer(ids) && id !in ids
    ensures AllDiffer(ids + [id])
  {
  }

  lemma {:induction false} KeptIds(hs: seq<Holding>, ids: seq<string>, keep: set<string>)
    requires |hs| == |ids| && AllDiffer(ids)
    ensures AllDiffer(KeepIds(hs, ids, keep)) && forall id :: id in KeepIds(hs, ids, keep) ==> id in ids
  {
    if hs == [] {
    } else {
      var n := |hs| - 1;
      var init := KeepIds(hs[..n], ids[..n], keep);
      KeptIds(hs[..n], ids[..n], keep);
      assert ids[n] !in ids[..n];
      assert forall id :: id in init ==> id in ids[..n];
      AllDifferSnoc(init, ids[n]);
    }
  }

  lemma KeptHoldingsWellFormed(input: Input, keep: set<string>, rows: Rows, k: nat)
    requires WellFormed(input, rows) && k <= |input.holdings|
    ensures WellFormed(Restrict(input, keep, k), rows)
  {
    KeptHoldings(input.holdings[..k], keep);
    KeptIds(input.holdings[..k], input.ids[..k], keep);
    var ids := Restrict(input, keep, k).ids;
    forall i | 0 <= i < |ids|
      ensures ids[i] !in rows
    {
      assert ids[i] in ids && ids[i] in input.ids[..k];
    }
  }

  // ---- Passes ----

  /** Processing this job neither saves nor sells anything. */
  predicate Idle(now: int, dustUsd: real, r: Replies, job: Row) {
    var o := Process(now, dustUsd, r, job);
    o.writes == [] && o.sale.None?
  }

  lemma PassSnoc(
      now: int, dustUsd: real, rows: Rows, jobs: seq<Row>, replies: seq<Replies>, job: Row, r: Replies)
    requires |jobs| == |replies|
    ensures RunPass(now, dustUsd, rows, jobs + [job], replies + [r])
         == Extend(RunPass(now, dustUsd, rows, jobs, replies), job, Process(now, dustUsd, r, job))
  {
    assert (jobs + [job])[..|jobs + [job]| - 1] == jobs;
    assert (replies + [r])[..|replies + [r]| - 1] == replies;
  }

  lemma ExtendBoth(p: Pass, q: Pass, before: seq<Sold>, job: Row, o: Outcome)
    requires p.rows == q.rows && p.sold == before + q.sold
    ensures Extend(p, job, o).rows == Extend(q, job, o).rows
    ensures Extend(p, job, o).sold == before + Extend(q, job, o).sold
  {
  }

  lemma PassConcatSnoc(
      now: int, dustUsd: real, rows: Rows, first: Pass, xs: seq<Row>, rx: seq<Replies>,
      ys: seq<Row>, ry: seq<Replies>, y: Row, r: Replies)
    requires |xs| == |rx| && |ys| == |ry|
    requires var second := RunPass(now, dustUsd, first.rows, ys, ry);
      var all := RunPass(now, dustUsd, rows, xs, rx);
      all.rows == second.rows && all.sold == first.sold + second.sold
    ensures var second := RunPass(now, dustUsd, first.rows, ys + [y], ry + [r]);
      var all := RunPass(now, dustUsd, rows, xs + [y], rx + [r]);
      all.rows == second.rows && all.sold == first.sold + second.sold
  {
    PassSnoc(now, dustUsd, rows, xs, rx, y, r);
    PassSnoc(now, dustUsd, first.rows, ys, ry, y, r);
    ExtendBoth(RunPass(now, dustUsd, rows, xs, rx), RunPass(now, dustUsd, first.rows, ys, ry), first.sold, y,
               Process(now, dustUsd, r, y));
  }

  lemma ConcatSnoc<T>(xs: seq<T>, ys: seq<T>)
    requires ys != []
    ensures var n := |ys| - 1; ys == ys[..n] + [ys[n]] && xs + ys == (xs + ys[..n]) + [ys[n]]
  {
  }

  /** A pass over two lists is a pass over the first and then one over the second. */
  lemma {:induction false} PassConcat(
      now: int, dustUsd: real, rows: Rows, xs: seq<Row>, rx: seq<Replies>, ys: seq<Row>, ry: seq<Replies>)
    requires |xs| == |rx| && |ys| == |ry|
    ensures var first := RunPass(now, dustUsd, rows, xs, rx);
      var second := RunPass(now, dustUsd, first.rows, ys, ry);
      var all := RunPass(now, dustUsd, rows, xs + ys, rx + ry);
      all.rows == second.rows && all.sold == first.sold + second.sold
    decreases |ys|
  {
    if ys == [] {
      assert xs + ys == xs && rx + ry == rx;
    } else {
      var n := |ys| - 1;
      var y, r := ys[n], ry[n];
      PassConcat(now, dustUsd, rows, xs, rx, ys[..n], ry[..n]);
      PassConcatSnoc(now, dustUsd, rows, RunPass(now, dustUsd, rows, xs, rx), xs + ys[..n], rx + ry[..n],
                     ys[..n], ry[..n], y, r);
      ConcatSnoc(xs, ys);
      ConcatSnoc(rx, ry);
    }
  }

  lemma ExtendIdle(now: int, dustUsd: real, p: Pass, job: Row, r: Replies)
    requires Idle(now, dustUsd, r, job)
    ensures Extend(p, job, Process(now, dustUsd, r, job)).rows == p.rows
    ensures Extend(p, job, Process(now, dustUsd, r, job)).sold == p.sold
  {
  }

  /** Leaving idle jobs out of a pass changes nothing. */
  lemma {:induction false} PassWithoutIdle(
      now: int, dustUsd: real, rows: Rows, ys: seq<Row>, ry: seq<Replies>, keep: set<string>)
    requires |ys| == |ry|
    requires forall i :: 0 <= i < |ys| && ys[i].tokenMint !in keep ==> Idle(now, dustUsd, ry[i], ys[i])
    ensures var all := RunPass(now, dustUsd, rows, ys, ry);
      var kept := RunPass(now, dustUsd, rows, KeepRows(ys, keep), KeepReplies(ys, ry, keep));
      all.rows == kept.rows && all.sold == kept.sold
    decreases |ys|
  {
    if ys == [] {
    } else {
      var n := |ys| - 1;
      PassWithoutIdle(now, dustUsd, rows, ys[..n], ry[..n], keep);
      var kept := KeepRows(ys[..n], keep);
      var keptReplies := KeepReplies(ys[..n], ry[..n], keep);
      var p, q := RunPass(now, dustUsd, rows, ys[..n], ry[..n]), RunPass(now, dustUsd, rows, kept, keptReplies);
      if ys[n].tokenMint in keep {
        PassSnoc(now, dustUsd, rows, kept, keptReplies, ys[n], ry[n]);
        ExtendBoth(p, q, [], ys[n], Process(now, dustUsd, ry[n], ys[n]));
      } else {
        ExtendIdle(now, dustUsd, p, ys[n], ry[n]);
      }
    }
  }

  /** The ids of the jobs whose processing saves something. */
  function Written(now: int, dustUsd: real, jobs: seq<Row>, replies: seq<Replies>): set<string>
    requires |jobs| == |replies|
  {
    if jobs == [] then {}
    else
      var n := |jobs| - 1;
      Written(now, dustUsd, jobs[..n], replies[..n])
      + if Process(now, dustUsd, replies[n], jobs[n]).writes != [] then {jobs[n].id} else {}
  }

  predicate SameRow(a: Rows, b: Rows, id: string) {
    (id in a <==> id in b) && (id in a ==> a[id] == b[id])
  }

  /** What a job's processing saves does not depend on what the table held for it. */
  lemma {:induction false} PassOverwrites(
      now: int, dustUsd: real, a: Rows, b: Rows, jobs: seq<Row>, replies: seq<Replies>, id: string)
    requires |jobs| == |replies|
    requires SameRow(a, b, id) || id in Written(now, dustUsd, jobs, replies)
    ensures SameRow(RunPass(now, dustUsd, a, jobs, replies).rows, RunPass(now, dustUsd, b, jobs, replies).rows, id)
    decreases |jobs|
  {
    if jobs == [] {
    } else {
      var n := |jobs| - 1;
      var o := Process(now, dustUsd, replies[n], jobs[n]);
      var p := RunPass(now, dustUsd, a, jobs[..n], replies[..n]);
      var q := RunPass(now, dustUsd, b, jobs[..n], replies[..n]);
      ProcessKeepsJob(now, dustUsd, replies[n], jobs[n]);
      ApplySameId(p.rows, o.writes, jobs[n].id);
      ApplySameId(q.rows, o.writes, jobs[n].id);
      if id != jobs[n].id || o.writes == [] {
        PassOverwrites(now, dustUsd, a, b, jobs[..n], replies[..n], id);
      }
    }
  }

  lemma {:induction false} SalesIgnoreTable(
      now: int, dustUsd: real, a: Rows, b: Rows, jobs: seq<Row>, replies: seq<Replies>)
    requires |jobs| == |replies|
    ensures RunPass(now, dustUsd, a, jobs, replies).sold == RunPass(now, dustUsd, b, jobs, replies).sold
    decreases |jobs|
  {
    if jobs == [] {
    } else {
      SalesIgnoreTable(now, dustUsd, a, b, jobs[..|jobs| - 1], replies[..|jobs| - 1]);
    }
  }

  lemma {:induction false} WrittenHas(now: int, dustUsd: real, jobs: seq<Row>, replies: seq<Replies>, i: nat)
    requires |jobs| == |replies| && i < |jobs| && Process(now, dustUsd, replies[i], jobs[i]).writes != []
    ensures jobs[i].id in Written(now, dustUsd, jobs, replies)
    decreases |jobs|
  {
    if i == |jobs| - 1 {
    } else {
      WrittenHas(now, dustUsd, jobs[..|jobs| - 1], replies[..|jobs| - 1], i);
    }
  }

  /** A broadcast is preceded by a save. */
  lemma SaleIsWritten(now: int, dustUsd: real, r: Replies, job: Row)
    requires !Idle(now, dustUsd, r, job)
    ensures Process(now, dustUsd, r, job).writes != []
  {
    if Process(now, dustUsd, r, job).sale.Some? {
      WriteSignatures(now, dustUsd, r, job);
    }
  }

  // ---- The whole cycle ----

  /** The mints of the swept rows whose processing saves or sells something. */
  function Busy(now: int, dustUsd: real, swept: seq<Row>, replies: seq<Replies>): set<string>
    requires |swept| == |replies|
  {
    set i | 0 <= i < |swept| && !Idle(now, dustUsd, replies[i], swept[i]) :: swept[i].tokenMint
  }

  ghost predicate HasMint(input: Input, k: nat, mint: string)
    requires k <= |input.holdings|
  {
    exists h :: 0 <= h < k && input.holdings[h].mint == mint
  }

  ghost predicate TokensDiffer(rows: seq<Row>) {
    forall i, j :: 0 <= i < j < |rows| ==> rows[i].tokenMint != rows[j].tokenMint
  }

  lemma OneMoreMint(input: Input, k: nat, before: seq<Row>, after: seq<Row>, next: Option<Row>)
    requires 0 < k <= |input.holdings| && MintsDiffer(input.holdings)
    requires TokensDiffer(before) && forall row :: row in before ==> HasMint(input, k - 1, row.tokenMint)
    requires after == before + OptionSeq(next)
    requires next.Some? ==> next.value.tokenMint == input.holdings[k - 1].mint
    ensures TokensDiffer(after) && forall row :: row in after ==> HasMint(input, k, row.tokenMint)
  {
    assert !HasMint(input, k - 1, input.holdings[k - 1].mint) && HasMint(input, k, input.holdings[k - 1].mint);
    forall i | 0 <= i < |before|
      ensures HasMint(input, k, before[i].tokenMint) && before[i].tokenMint != input.holdings[k - 1].mint
    {
      assert HasMint(input, k - 1, before[i].tokenMint);
    }
  }

  lemma {:induction false} SweptMintsDiffer(input: Input, jobs: seq<Row>, rows: Rows, k: nat)
    requires WellFormed(input, rows) && k <= |input.holdings|
    ensures TokensDiffer(Swept(input, jobs, k))
    ensures forall row :: row in Swept(input, jobs, k) ==> HasMint(input, k, row.tokenMint)
    decreases k
  {
    if k == 0 {
    } else {
      SweptMintsDiffer(input, jobs, rows, k - 1);
      var next := SweptStep(input, jobs, k);
      OneMoreMint(input, k, Swept(input, jobs, k - 1), Swept(input, jobs, k), next);
    }
  }

  lemma {:induction false} KeptHasIndex(rows: seq<Row>, replies: seq<Replies>, keep: set<string>, i: nat)
    returns (j: nat)
    requires |rows| == |replies| && i < |rows| && rows[i].tokenMint in keep
    ensures j < |KeepRows(rows, keep)|
    ensures KeepRows(rows, keep)[j] == rows[i] && KeepReplies(rows, replies, keep)[j] == replies[i]
    decreases |rows|
  {
    var n := |rows| - 1;
    if i == n {
      j := |KeepRows(rows[..n], keep)|;
    } else {
      j := KeptHasIndex(rows[..n], replies[..n], keep, i);
    }
  }

  lemma ApplyAppend(rows: Rows, ws: seq<Row>, w: Row)
    ensures ApplyWrites(rows, ws + [w]) == ApplyWrites(rows, ws)[w.id := w]
  {
    assert (ws + [w])[..|ws + [w]| - 1] == ws;
  }

  lemma ApplyLast(rows: Rows, xs: seq<Row>, ys: seq<Row>, w: Row, saved: set<string>, keep: set<string>, id: string)
    requires saved <= keep && SameRow(ApplyWrites(rows, xs), ApplyWrites(rows, ys), id)
    requires w.tokenMint in keep && w.tokenMint !in saved ==> w.id != id
    ensures SameRow(ApplyWrites(rows, if w.tokenMint in saved then xs + [w] else xs),
                    ApplyWrites(rows, if w.tokenMint in keep then ys + [w] else ys), id)
  {
    ApplyAppend(rows, xs, w);
    ApplyAppend(rows, ys, w);
  }

  /** Where saving more of the rows makes a difference. */
  lemma {:induction false} ApplyKept(rows: Rows, ws: seq<Row>, saved: set<string>, keep: set<string>, id: string)
    requires saved <= keep
    requires forall w :: w in ws && w.tokenMint in keep && w.tokenMint !in saved ==> w.id != id
    ensures SameRow(ApplyWrites(rows, KeepRows(ws, saved)), ApplyWrites(rows, KeepRows(ws, keep)), id)
    decreases |ws|
  {
    if ws == [] {
    } else {
      var n := |ws| - 1;
      assert forall w :: w in ws[..n] ==> w in ws;
      ApplyKept(rows, ws[..n], saved, keep, id);
      ApplyLast(rows, KeepRows(ws[..n], saved), KeepRows(ws[..n], keep), ws[n], saved, keep, id);
    }
  }

  /** The pass over all swept rows is the pass over those to keep. */
  lemma PassOverKept(
      now: int, dustUsd: real, rows: Rows, jobs: seq<Row>, rj: seq<Replies>, swept: seq<Row>, rs: seq<Replies>,
      keep: set<string>)
    requires |jobs| == |rj| && |swept| == |rs| && Busy(now, dustUsd, swept, rs) <= keep
    ensures var all := RunPass(now, dustUsd, rows, jobs + swept, rj + rs);
      var kept := RunPass(now, dustUsd, rows, jobs + KeepRows(swept, keep), rj + KeepReplies(swept, rs, keep));
      all.rows == kept.rows && all.sold == kept.sold
  {
    PassConcat(now, dustUsd, rows, jobs, rj, swept, rs);
    PassConcat(now, dustUsd, rows, jobs, rj, KeepRows(swept, keep), KeepReplies(swept, rs, keep));
    PassWithoutIdle(now, dustUsd, RunPass(now, dustUsd, rows, jobs, rj).rows, swept, rs, keep);
  }

  lemma BusyRow(now: int, dustUsd: real, swept: seq<Row>, rs: seq<Replies>, k: nat)
    requires k < |swept| == |rs| && swept[k].tokenMint in Busy(now, dustUsd, swept, rs)
    requires TokensDiffer(swept)
    ensures !Idle(now, dustUsd, rs[k], swept[k])
  {
    var i :| 0 <= i < |swept| && !Idle(now, dustUsd, rs[i], swept[i]) && swept[i].tokenMint == swept[k].tokenMint;
    assert !(i < k) && !(k < i);
  }

  lemma WrittenLater(
      now: int, dustUsd: real, xs: seq<Row>, rx: seq<Replies>, ys: seq<Row>, ry: seq<Replies>, j: nat)
    requires |xs| == |rx| && j < |ys| == |ry| && Process(now, dustUsd, ry[j], ys[j]).writes != []
    ensures ys[j].id in Written(now, dustUsd, xs + ys, rx + ry)
  {
    assert (xs + ys)[|xs| + j] == ys[j] && (rx + ry)[|xs| + j] == ry[j];
    WrittenHas(now, dustUsd, xs + ys, rx + ry, |xs| + j);
  }

  /** A row whose save failed and that is kept all the same is saved by its processing. */
  lemma KeptIsWritten(
      now: int, dustUsd: real, jobs: seq<Row>, rj: seq<Replies>, swept: seq<Row>, rs: seq<Replies>,
      saved: set<string>, k: nat)
    requires |jobs| == |rj| && k < |swept| == |rs| && swept[k].tokenMint !in saved
    requires TokensDiffer(swept)
    requires swept[k].tokenMint in saved + Busy(now, dustUsd, swept, rs)
    ensures var keep := saved + Busy(now, dustUsd, swept, rs);
      swept[k].id in Written(now, dustUsd, jobs + KeepRows(swept, keep), rj + KeepReplies(swept, rs, keep))
  {
    var keep := saved + Busy(now, dustUsd, swept, rs);
    BusyRow(now, dustUsd, swept, rs, k);
    SaleIsWritten(now, dustUsd, rs[k], swept[k]);
    var j := KeptHasIndex(swept, rs, keep, k);
    WrittenLater(now, dustUsd, jobs, rj, KeepRows(swept, keep), KeepReplies(swept, rs, keep), j);
  }

  lemma SameTable(a: Rows, b: Rows)
    requires forall id :: SameRow(a, b, id)
    ensures a == b
  {
    forall id
      ensures id in a <==> id in b
      ensures id in a ==> a[id] == b[id]
    {
      assert SameRow(a, b, id);
    }
  }

  /** The pass does not tell a table with the first saves from one with all rows to keep. */
  lemma PassHealsTable(
      now: int, dustUsd: real, rows: Rows, jobs: seq<Row>, rj: seq<Replies>, swept: seq<Row>, rs: seq<Replies>,
      saved: set<string>)
    requires |jobs| == |rj| && |swept| == |rs|
    requires TokensDiffer(swept)
    ensures var keep := saved + Busy(now, dustUsd, swept, rs);
      var js, r := jobs + KeepRows(swept, keep), rj + KeepReplies(swept, rs, keep);
      var p := RunPass(now, dustUsd, ApplyWrites(rows, KeepRows(swept, saved)), js, r);
      var q := RunPass(now, dustUsd, ApplyWrites(rows, KeepRows(swept, keep)), js, r);
      p.rows == q.rows && p.sold == q.sold
  {
    var keep := saved + Busy(now, dustUsd, swept, rs);
    var js, r := jobs + KeepRows(swept, keep), rj + KeepReplies(swept, rs, keep);
    var a, b := ApplyWrites(rows, KeepRows(swept, saved)), ApplyWrites(rows, KeepRows(swept, keep));
    var p, q := RunPass(now, dustUsd, a, js, r), RunPass(now, dustUsd, b, js, r);
    SalesIgnoreTable(now, dustUsd, a, b, js, r);
    forall id
      ensures SameRow(p.rows, q.rows, id)
    {
      if k :| 0 <= k < |swept| && swept[k].tokenMint in keep && swept[k].tokenMint !in saved && swept[k].id == id {
        KeptIsWritten(now, dustUsd, jobs, rj, swept, rs, saved, k);
      } else {
        ApplyKept(rows, swept, saved, keep, id);
      }
      PassOverwrites(now, dustUsd, a, b, js, r, id);
    }
    SameTable(p.rows, q.rows);
  }

  /** The mints whose swept row reaches the table: it was saved, or its processing saves it. */
  function Reaching(input: Input, jobs: seq<Row>, dustUsd: real, replies: seq<Replies>, saved: set<string>): set<string>
    requires |input.ids| == |input.holdings| && |replies| == |jobs| + |Sweep(input, jobs)|
  {
    saved + Busy(input.now, dustUsd, Sweep(input, jobs), replies[|jobs|..])
  }

  /** The moves of a cycle in which the rows of only the mints in `saved` could be saved. */
  function UnsavedMoves(input: Input, jobs: seq<Row>, dustUsd: real, replies: seq<Replies>, saved: set<string>)
    : seq<Move>
    requires |input.ids| == |input.holdings| && |replies| == |jobs| + |Sweep(input, jobs)|
  {
    var swept := Sweep(input, jobs);
    var keep := Reaching(input, jobs, dustUsd, replies, saved);
    RestrictedSweep(input, jobs, keep, |input.holdings|);
    CycleMoves(jobs, Restrict(input, keep, |input.holdings|), dustUsd,
               replies[..|jobs|] + KeepReplies(swept, replies[|jobs|..], keep))
  }

  /** A cycle that fails to save some swept rows is a run all the same. */
  lemma UnsavedCycleIsRun(
      l: Ledger, jobs: seq<Row>, input: Input, dustUsd: real, replies: seq<Replies>, saved: set<string>)
    requires KeyedById(l.rows) && IsListing(l.rows, jobs) && WellFormed(input, l.rows)
    requires forall i, k :: 0 <= i < k < |jobs| ==> jobs[i].id != jobs[k].id
    requires |replies| == |jobs| + |Sweep(input, jobs)|
    ensures var swept := Sweep(input, jobs);
      var p := RunPass(input.now, dustUsd, ApplyWrites(l.rows, KeepRows(swept, saved)), jobs + swept, replies);
      var t := Run(l, UnsavedMoves(input, jobs, dustUsd, replies, saved));
      p.rows == t.rows && forall id :: SentOf(t, id) == SentOf(l, id) + SoldSignatures(p.sold, id)
  {
    var swept := Sweep(input, jobs);
    var n := |input.holdings|;
    var rj, rs := replies[..|jobs|], replies[|jobs|..];
    assert rj + rs == replies;
    var keep := Reaching(input, jobs, dustUsd, replies, saved);
    var kept := Restrict(input, keep, n);
    assert input.holdings[..n] == input.holdings && input.ids[..n] == input.ids;
    SweptMintsDiffer(input, jobs, l.rows, n);
    RestrictedSweep(input, jobs, keep, n);
    KeptHoldingsWellFormed(input, keep, l.rows, n);
    PassOverKept(input.now, dustUsd, ApplyWrites(l.rows, KeepRows(swept, saved)), jobs, rj, swept, rs, keep);
    PassHealsTable(input.now, dustUsd, l.rows, jobs, rj, swept, rs, saved);
    CycleIsRun(l, jobs, kept, dustUsd, rj + KeepReplies(swept, rs, keep));
  }
}
