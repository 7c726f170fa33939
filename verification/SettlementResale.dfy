/**
 * The converse of never selling twice: a broadcast that is lost - unreported, or its signature
 * never saved - can be followed by a second sale of the same job, whatever the job, unless
 * the row it leaves is dead and can never be revived.
 */
module SettlementResale {
  import opened Prelude
  import opened SettlementJobs
  import opened SettlementStore
  import opened SettlementSweep
  import opened SettlementLedger

  /** A dead row that no sweep revives: it is signed, or has an output on record. */
  predicate Buried(row: Row) {
    row.status.Terminal? && (row.txSignature.Some? || row.confirmedOutputAtomic.Some?)
  }

  // ---- A buried row is never sold again ----

  ghost predicate SentKnown(l: Ledger, id: string) {
    forall i :: 0 <= i < |SentOf(l, id)| ==> SentOf(l, id)[i] in l.chain
  }

  lemma MoveKeepsKeys(l: Ledger, m: Move)
    requires KeyedById(l.rows) && Honest(l, m)
    ensures KeyedById(Next(l, m).rows)
  {
    if m.Handled? {
      HandledRow(m.now, m.dustUsd, m.replies, l.rows[m.id], l.rows);
    } else if m.Orphans? {
      SweepEffect(m.input, m.jobs, l.rows);
    }
  }

  lemma MoveKeepsBuried(l: Ledger, m: Move, id: string)
    requires KeyedById(l.rows) && Honest(l, m) && id in l.rows && Buried(l.rows[id])
    ensures id in Next(l, m).rows && Buried(Next(l, m).rows[id]) && SentOf(Next(l, m), id) == SentOf(l, id)
  {
    if m.Handled? {
      if m.id == id {
        FinalRowsAreFixedPoints(m.now, m.dustUsd, m.replies, l.rows[id]);
      } else {
        HandledRow(m.now, m.dustUsd, m.replies, l.rows[m.id], l.rows);
      }
    } else if m.Orphans? {
      SweepEffect(m.input, m.jobs, l.rows);
      if Next(l, m).rows[id] != l.rows[id] {
        var i: nat :| SweptFrom(m.input, m.jobs, Next(l, m).rows[id], i);
        SweptRowIsFresh(m.input, m.jobs, l.rows, Next(l, m).rows[id], i);
      }
    }
  }

  /** A transaction that is dropped stays so, and no known one is sent anew. */
  lemma MoveKeepsFates(l: Ledger, m: Move, s: Signature)
    requires Honest(l, m) && s in l.chain
    ensures s in Next(l, m).chain && (MayLand(Next(l, m), s) ==> MayLand(l, s))
  {
  }

  lemma {:induction false} BuriedIsNeverSold(l: Ledger, moves: seq<Move>, id: string)
    requires KeyedById(l.rows) && GoodRun(l, moves) && id in l.rows && Buried(l.rows[id])
    requires SentKnown(l, id) && AtMostOneLands(l, id)
    ensures AtMostOneLands(Run(l, moves), id)
    decreases |moves|
  {
    if moves == [] {
    } else {
      var t := Next(l, moves[0]);
      MoveKeepsKeys(l, moves[0]);
      MoveKeepsBuried(l, moves[0], id);
      forall i | 0 <= i < |SentOf(l, id)|
        ensures SentOf(l, id)[i] in t.chain && (MayLand(t, SentOf(l, id)[i]) ==> MayLand(l, SentOf(l, id)[i]))
      {
        MoveKeepsFates(l, moves[0], SentOf(l, id)[i]);
      }
      BuriedIsNeverSold(t, moves[1..], id);
    }
  }

  // ---- Any other row can be sold again ----

  /** Nothing works, and the chain has not seen the transaction. */
  const GIVE_UP := Replies(
    Some(Ok(TxNotFound)), None, Failed(false), Failed(false), None, Failed(false), false,
    Failed(false), Failed(false), Failed(false), Failed(false), Failed(false), Refused(false), Failed(false), true)

  /** The visits and sweeps of these moves happen at t or later. */
  predicate NotBefore(moves: seq<Move>, t: int) {
    forall m :: m in moves ==>
      (m.Handled? ==> m.now >= t) && (m.Orphans? ==> m.input.now >= t)
  }

  /** A time from t on at which the row is due. */
  function DueTime(row: Row, t: int): int {
    Max(t, GetOr(row.nextRetryAt, t))
  }

  /** Some later run, of visits in which everything is reported, saved and readable, sells the job again. */
  ghost predicate CanSellAgain(l: Ledger, id: string, t: int) {
    exists moves :: GoodRun(l, moves) && NotBefore(moves, t) && !AtMostOneLands(Run(l, moves), id)
  }

  /** From t on, when nothing works, an active job dies unsold once it has expired. */
  lemma GivesUp(job: Row, now: int)
    requires Active(job) && now >= job.expiresAt && now >= DueTime(job, now)
    ensures var o := Process(now, 0.0, GIVE_UP, job);
      o.sale.None? && |o.writes| == 1 && o.writes[0].status.Terminal? && SameJob(o.writes[0], job)
  {
  }

  /** An unsigned `prepared` job becomes retryable, or dies when it has expired. */
  lemma UnsignedRetries(job: Row, now: int)
    requires job.status.Prepared? && job.txSignature.None? && now >= DueTime(job, now)
    ensures Process(now, 0.0, GIVE_UP, job)
         == Outcome([RetryableJob(job, now, false)], None, Some(RetryableJob(job, now, false)))
  {
  }

  /** The other active jobs of a mint. */
  function Others(rows: Rows, mint: string, id: string): set<string> {
    set k | k in rows && k != id && Active(rows[k]) && rows[k].tokenMint == mint
  }

  lemma GiveUpMove(l: Ledger, k: string, now: int)
    requires KeyedById(l.rows) && k in l.rows && Process(now, 0.0, GIVE_UP, l.rows[k]).sale.None?
    requires |Process(now, 0.0, GIVE_UP, l.rows[k]).writes| == 1
    ensures var m := Handled(k, now, 0.0, GIVE_UP);
      && Honest(l, m) && Careful(m) && KeyedById(Next(l, m).rows)
      && Next(l, m) == l.(rows := l.rows[k := Process(now, 0.0, GIVE_UP, l.rows[k]).writes[0]])
  {
    var o := Process(now, 0.0, GIVE_UP, l.rows[k]);
    ProcessKeepsJob(now, 0.0, GIVE_UP, l.rows[k]);
    ApplySameId(l.rows, o.writes, k);
  }

  lemma GoodCons(l: Ledger, m: Move, moves: seq<Move>)
    requires Honest(l, m) && Careful(m) && GoodRun(Next(l, m), moves)
    ensures GoodRun(l, [m] + moves) && Run(l, [m] + moves) == Run(Next(l, m), moves)
  {
    assert ([m] + moves)[0] == m && ([m] + moves)[1..] == moves;
  }

  /** The other active jobs of the mint can all be given up, which changes nothing else. */
  lemma {:induction false} RetireOthers(l: Ledger, mint: string, id: string, t: int) returns (moves: seq<Move>)
    requires KeyedById(l.rows) && id in l.rows
    ensures GoodRun(l, moves) && NotBefore(moves, t)
    ensures var u := Run(l, moves);
      && KeyedById(u.rows) && id in u.rows && u.rows[id] == l.rows[id] && Others(u.rows, mint, id) == {}
      && u.sent == l.sent && u.chain == l.chain
    decreases |Others(l.rows, mint, id)|
  {
    moves := [];
    if Others(l.rows, mint, id) == {} {
    } else {
      var k :| k in Others(l.rows, mint, id);
      var now := Max(l.rows[k].expiresAt, DueTime(l.rows[k], t));
      var m := Handled(k, now, 0.0, GIVE_UP);
      GivesUp(l.rows[k], now);
      GiveUpMove(l, k, now);
      assert Others(Next(l, m).rows, mint, id) == Others(l.rows, mint, id) - {k};
      var rest := RetireOthers(Next(l, m), mint, id, t);
      GoodCons(l, m, rest);
      moves := [m] + rest;
    }
  }

  lemma {:induction false} LongerThanAll(keys: set<string>) returns (n: nat)
    ensures forall k :: k in keys ==> |k| < n
  {
    if keys == {} {
      n := 0;
    } else {
      var k :| k in keys;
      var rest := LongerThanAll(keys - {k});
      n := Max(rest, |k| + 1);
    }
  }

  lemma NewString(keys: set<string>) returns (s: string)
    ensures s !in keys && s != ""
  {
    var n := LongerThanAll(keys);
    s := seq(n + 1, _ => 'x');
  }

  lemma {:induction false} ListTable(rows: Rows) returns (jobs: seq<Row>)
    requires KeyedById(rows)
    ensures IsListing(rows, jobs)
    decreases |rows|
  {
    jobs := [];
    if rows == map[] {
    } else {
      var id :| id in rows;
      var rest := ListTable(rows - {id});
      jobs := rest + [rows[id]];
      forall k | k in rows
        ensures rows[k] in jobs
      {
        assert k != id ==> k in rows - {id} && rows[k] in rest;
      }
    }
  }

  lemma LastListedIsRevived(rows: Rows, listed: seq<Row>, row: Row, input: Input)
    requires KeyedById(rows) && IsListing(rows, listed) && row.id in rows && rows[row.id] == row
    requires Revivable(row) && row.tokenMint != SOL_MINT && Others(rows, row.tokenMint, row.id) == {}
    requires |input.ids| == 1 && input.holdings == [Holding(row.tokenMint, 1, 0)]
    requires input.dustUsd == 0.0 && input.backed == {}
    ensures Sweep(input, listed + [row]) == [RevivedRow(row, input.holdings[0], input)]
  {
    var jobs := listed + [row];
    assert jobs[..|jobs| - 1] == listed;
    assert TerminalByMint(jobs)[row.tokenMint] == row;
    forall j | j in jobs && Active(j)
      ensures j.tokenMint != row.tokenMint
    {
      assert j.id in rows && rows[j.id] == j;
      assert j.id !in Others(rows, row.tokenMint, row.id);
    }
    assert row.tokenMint !in ActiveMints(jobs);
    assert Swept(input, jobs, 0) == [];
    assert Swept(input, jobs, 1) == [] + [RevivedRow(row, input.holdings[0], input)];
  }

  lemma SavesOne(rows: Rows, input: Input, jobs: seq<Row>, row: Row)
    requires |input.ids| == |input.holdings| && Sweep(input, jobs) == [row]
    ensures AfterSweep(input, jobs, rows) == rows[row.id := row]
  {
    ApplySameId(rows, [row], row.id);
  }

  /** A sweep that finds one unit of the row's mint in the wallet, and lists the row last. */
  function Revival(row: Row, listed: seq<Row>, unused: string, t: int): Move {
    Orphans(Input([Holding(row.tokenMint, 1, 0)], {}, map[], [unused], 0.0, 0, t), listed + [row])
  }

  lemma RevivalIsHonest(l: Ledger, row: Row, listed: seq<Row>, unused: string, t: int)
    requires row.id in l.rows && l.rows[row.id] == row && IsListing(l.rows, listed) && unused !in l.rows
    ensures Honest(l, Revival(row, listed, unused, t)) && Careful(Revival(row, listed, unused, t))
  {
    var m := Revival(row, listed, unused, t);
    assert IsListing(l.rows, m.jobs);
    assert WellFormed(m.input, l.rows);
  }

  lemma RevivalRevives(l: Ledger, row: Row, listed: seq<Row>, unused: string, t: int)
    requires KeyedById(l.rows) && row.id in l.rows && l.rows[row.id] == row && IsListing(l.rows, listed)
    requires Revivable(row) && row.tokenMint != SOL_MINT && Others(l.rows, row.tokenMint, row.id) == {}
    ensures var m := Revival(row, listed, unused, t);
      Next(l, m) == l.(rows := l.rows[row.id := RevivedRow(row, Holding(row.tokenMint, 1, 0), m.input)])
  {
    var m := Revival(row, listed, unused, t);
    LastListedIsRevived(l.rows, listed, row, m.input);
    SavesOne(l.rows, m.input, m.jobs, RevivedRow(row, Holding(row.tokenMint, 1, 0), m.input));
  }

  /** A dead unsigned row without output can be revived, when no active job has its mint. */
  lemma Revives(l: Ledger, id: string, t: int) returns (m: Move)
    requires KeyedById(l.rows) && id in l.rows && Revivable(l.rows[id]) && l.rows[id].tokenMint != SOL_MINT
    requires Others(l.rows, l.rows[id].tokenMint, id) == {}
    ensures Honest(l, m) && Careful(m) && KeyedById(Next(l, m).rows) && NotBefore([m], t)
    ensures var u := Next(l, m);
      && u.sent == l.sent && u.chain == l.chain && id in u.rows
      && u.rows[id].status.Pending? && u.rows[id].txSignature.None? && u.rows[id].amountAtomic == 1
      && u.rows[id].tokenMint == l.rows[id].tokenMint
  {
    var unused := NewString(l.rows.Keys);
    var listed := ListTable(l.rows);
    m := Revival(l.rows[id], listed, unused, t);
    RevivalIsHonest(l, l.rows[id], listed, unused, t);
    RevivalRevives(l, l.rows[id], listed, unused, t);
  }

  /** The row can be sold by its next due visit, an earlier transaction of its own having been dropped. */
  predicate Sellable(l: Ledger, row: Row) {
    && !row.status.Terminal? && !row.status.Confirmed? && !(row.status.Prepared? && row.txSignature.None?)
    && row.amountAtomic > 0 && row.tokenMint != SOL_MINT
    && (row.txSignature.Some? ==> row.txSignature.value in l.chain && l.chain[row.txSignature.value].Dropped?)
  }

  lemma SellsNow(l: Ledger, id: string, t: int) returns (m: Move)
    requires KeyedById(l.rows) && id in l.rows && Sellable(l, l.rows[id])
    ensures Honest(l, m) && Careful(m) && NotBefore([m], t)
    ensures exists s :: s !in l.chain && SentOf(Next(l, m), id) == SentOf(l, id) + [s]
                        && Next(l, m).chain == l.chain[s := InFlight]
  {
    var s := NewString(l.chain.Keys);
    var now := DueTime(l.rows[id], t);
    m := Handled(id, now, 0.0, Sends(s, Some(Ok(TxFailed)), true, true));
    assert Process(now, 0.0, m.replies, l.rows[id]).sale == Some(Sale(s, l.rows[id].amountAtomic));
  }

  /** The last transaction sent for the job is still in flight. */
  predicate LastInFlight(l: Ledger, id: string) {
    var sent := SentOf(l, id);
    sent != [] && sent[|sent| - 1] in l.chain && l.chain[sent[|sent| - 1]].InFlight?
  }

  lemma SellsAfter(l: Ledger, moves: seq<Move>, id: string, t: int)
    requires GoodRun(l, moves) && NotBefore(moves, t) && CanSellAgain(Run(l, moves), id, t)
    ensures CanSellAgain(l, id, t)
  {
    var u := Run(l, moves);
    var more :| GoodRun(u, more) && NotBefore(more, t) && !AtMostOneLands(Run(u, more), id);
    RunConcat(l, moves, more);
    assert NotBefore(moves + more, t);
  }

  lemma BothMayLand(l: Ledger, u: Ledger, id: string, s: Signature)
    requires LastInFlight(l, id) && s !in l.chain
    requires SentOf(u, id) == SentOf(l, id) + [s] && u.chain == l.chain[s := InFlight]
    ensures !AtMostOneLands(u, id)
  {
    var sent := SentOf(u, id);
    assert MayLand(u, sent[|sent| - 2]) && MayLand(u, sent[|sent| - 1]);
  }

  lemma TwoInFlight(l: Ledger, id: string, t: int)
    requires KeyedById(l.rows) && id in l.rows && Sellable(l, l.rows[id]) && LastInFlight(l, id)
    ensures CanSellAgain(l, id, t)
  {
    var m := SellsNow(l, id, t);
    var u := Next(l, m);
    var s :| s !in l.chain && SentOf(u, id) == SentOf(l, id) + [s] && u.chain == l.chain[s := InFlight];
    BothMayLand(l, u, id, s);
    GoodCons(l, m, []);
    assert [m] + [] == [m];
  }

  /** A dead row that can be revived is revived, once its mint has no active job. */
  lemma DeadRevives(l: Ledger, id: string, t: int) returns (moves: seq<Move>)
    requires KeyedById(l.rows) && id in l.rows && Revivable(l.rows[id]) && l.rows[id].tokenMint != SOL_MINT
    ensures GoodRun(l, moves) && NotBefore(moves, t)
    ensures var v := Run(l, moves);
      && KeyedById(v.rows) && id in v.rows && Sellable(v, v.rows[id]) && v.sent == l.sent && v.chain == l.chain
  {
    var retire := RetireOthers(l, l.rows[id].tokenMint, id, t);
    var u := Run(l, retire);
    var revive := Revives(u, id, t);
    RunConcat(l, retire, [revive]);
    assert [revive][1..] == [] && Run(u, [revive]) == Run(Next(u, revive), []);
    moves := retire + [revive];
  }

  lemma DeadSellsAgain(l: Ledger, id: string, t: int)
    requires KeyedById(l.rows) && id in l.rows && Revivable(l.rows[id]) && l.rows[id].tokenMint != SOL_MINT
    requires LastInFlight(l, id)
    ensures CanSellAgain(l, id, t)
  {
    var revive := DeadRevives(l, id, t);
    var v := Run(l, revive);
    assert SentOf(v, id) == SentOf(l, id);
    TwoInFlight(v, id, t);
    SellsAfter(l, revive, id, t);
  }

  /** What a lost broadcast can leave: not confirmed, and without an output when it is unsigned and `prepared`. */
  predicate Leftover(l: Ledger, row: Row) {
    && !row.status.Confirmed? && row.amountAtomic > 0 && row.tokenMint != SOL_MINT
    && (row.status.Prepared? ==> row.confirmedOutputAtomic.None?)
    && (row.txSignature.Some? ==> row.txSignature.value in l.chain && l.chain[row.txSignature.value].Dropped?)
  }

  /** An unsigned `prepared` row is visited once, after which it is retryable or dead. */
  lemma PreparedSellsAgain(l: Ledger, id: string, t: int)
    requires KeyedById(l.rows) && id in l.rows && Leftover(l, l.rows[id]) && LastInFlight(l, id)
    requires l.rows[id].status.Prepared? && l.rows[id].txSignature.None?
    ensures CanSellAgain(l, id, t)
  {
    var row := l.rows[id];
    var now := DueTime(row, t);
    var m := Handled(id, now, 0.0, GIVE_UP);
    UnsignedRetries(row, now);
    GiveUpMove(l, id, now);
    var u := l.(rows := l.rows[id := RetryableJob(row, now, false)]);
    assert Next(l, m) == u && SentOf(u, id) == SentOf(l, id);
    if now >= row.expiresAt {
      DeadSellsAgain(u, id, t);
    } else {
      TwoInFlight(u, id, t);
    }
    assert [m][1..] == [] && Run(l, [m]) == Run(u, []);
    SellsAfter(l, [m], id, t);
  }

  lemma SellsAgain(l: Ledger, id: string, t: int)
    requires KeyedById(l.rows) && id in l.rows && Leftover(l, l.rows[id]) && !Buried(l.rows[id]) && LastInFlight(l, id)
    ensures CanSellAgain(l, id, t)
  {
    var row := l.rows[id];
    if row.status.Terminal? {
      DeadSellsAgain(l, id, t);
    } else if row.status.Prepared? && row.txSignature.None? {
      PreparedSellsAgain(l, id, t);
    } else {
      TwoInFlight(l, id, t);
    }
  }

  // ---- The exact converse ----

  /** The row a lost broadcast leaves. */
  lemma LostRow(now: int, dustUsd: real, r: Replies, job: Row)
    requires Process(now, dustUsd, r, job).sale.Some? && !SignatureSaved(r)
    ensures var writes := Process(now, dustUsd, r, job).writes;
      && writes != []
      && (|| writes[|writes| - 1] == PreparedRow(job, now)
          || writes[|writes| - 1] == RetryableJob(job, now, r.submission.transient))
    ensures job.amountAtomic > 0 && job.tokenMint != SOL_MINT
  {
  }

  lemma AllDropped(l: Ledger, id: string)
    requires Tracked(l, id) && id in l.rows && MaySend(l, l.rows[id])
    ensures forall i :: 0 <= i < |SentOf(l, id)| ==> SentOf(l, id)[i] in l.chain && l.chain[SentOf(l, id)[i]].Dropped?
  {
    var sent := SentOf(l, id);
    assert sent != [] ==> l.rows[id].txSignature == Some(sent[|sent| - 1]);
  }

  lemma OneMoreSent(l: Ledger, t: Ledger, id: string, s: Signature)
    requires SentOf(t, id) == SentOf(l, id) + [s] && s !in l.chain && t.chain == l.chain[s := InFlight]
    requires forall i :: 0 <= i < |SentOf(l, id)| ==> SentOf(l, id)[i] in l.chain && l.chain[SentOf(l, id)[i]].Dropped?
    ensures LastInFlight(t, id) && SentKnown(t, id) && AtMostOneLands(t, id)
  {
    var before, after := SentOf(l, id), SentOf(t, id);
    forall i | 0 <= i < |after|
      ensures after[i] in t.chain && (MayLand(t, after[i]) ==> i == |before|)
    {
      assert i < |before| ==> after[i] == before[i];
    }
  }

  /** Right after it, only the lost transaction can land. */
  lemma LostBooks(l: Ledger, m: Move)
    requires Inv(l) && m.Handled? && Honest(l, m) && MaySend(l, l.rows[m.id])
    requires Process(m.now, m.dustUsd, m.replies, l.rows[m.id]).sale.Some?
    ensures var t := Next(l, m);
      && LastInFlight(t, m.id) && SentKnown(t, m.id) && AtMostOneLands(t, m.id)
      && (forall s :: s in l.chain ==> s in t.chain && t.chain[s] == l.chain[s])
  {
    assert Tracked(l, m.id);
    AllDropped(l, m.id);
    OneMoreSent(l, Next(l, m), m.id,
                Process(m.now, m.dustUsd, m.replies, l.rows[m.id]).sale.value.signature);
  }

  /**
   * After a broadcast that went unreported, or whose signature neither save kept, a second sale
   * of the job is possible exactly when the row it leaves is not buried.
   */
  lemma LostBroadcastSellsAgainExactly(l: Ledger, m: Move)
    requires Inv(l) && m.Handled? && Honest(l, m) && CanReadStatus(m.replies)
    requires Process(m.now, m.dustUsd, m.replies, l.rows[m.id]).sale.Some? && !SignatureSaved(m.replies)
    ensures m.id in Next(l, m).rows
    ensures CanSellAgain(Next(l, m), m.id, m.now) <==> !Buried(Next(l, m).rows[m.id])
  {
    var job := l.rows[m.id];
    var o := Process(m.now, m.dustUsd, m.replies, job);
    var t := Next(l, m);
    CarefulMaySend(l, m);
    LostRow(m.now, m.dustUsd, m.replies, job);
    ProcessKeepsJob(m.now, m.dustUsd, m.replies, job);
    ApplySameId(l.rows, o.writes, m.id);
    MoveKeepsKeys(l, m);
    LostBooks(l, m);
    if Buried(t.rows[m.id]) {
      forall moves | GoodRun(t, moves)
        ensures AtMostOneLands(Run(t, moves), m.id)
      {
        BuriedIsNeverSold(t, moves, m.id);
      }
    } else {
      SellsAgain(t, m.id, m.now);
    }
  }
}
