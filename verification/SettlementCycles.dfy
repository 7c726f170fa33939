/**
 * An engine's life: cycle after cycle, with jobs enqueued, positions closed and transactions
 * decided in between. Its table and its sales are those of one run of ledger moves, so
 * no job is ever sold twice, whichever swept rows the cycles fail to save.
 */
module SettlementCycles {
  import opened SettlementJobs
  import opened SettlementStore
  import opened SettlementSweep
  import opened SettlementLedger
  import opened SettlementCycle
  import opened SettlementUnsaved

  /** What happens before a cycle, what the cycle reads, and the mints whose swept row is saved. */
  datatype Round = Round(
    between: seq<Move>, jobs: seq<Row>, input: Input, dustUsd: real, replies: seq<Replies>, saved: set<string>)

  datatype History = History(rows: Rows, sold: seq<Sold>)

  predicate Shaped(r: Round) {
    |r.input.ids| == |r.input.holdings| && |r.replies| == |r.jobs| + |Sweep(r.input, r.jobs)|
  }

  predicate Outside(m: Move) {
    !m.Handled? && !m.Orphans?
  }

  function TableBetween(rows: Rows, moves: seq<Move>): Rows {
    Run(Ledger(rows, map[], map[]), moves).rows
  }

  /** The cycle as the engine runs it: sweep, save what can be saved, process list and sweep. */
  function CyclePass(rows: Rows, r: Round): Pass
    requires Shaped(r)
  {
    var swept := Sweep(r.input, r.jobs);
    RunPass(r.input.now, r.dustUsd, ApplyWrites(rows, KeepRows(swept, r.saved)), r.jobs + swept, r.replies)
  }

  function Live(rows: Rows, rounds: seq<Round>): History
    requires forall i :: 0 <= i < |rounds| ==> Shaped(rounds[i])
    decreases |rounds|
  {
    if rounds == [] then History(rows, [])
    else
      var p := CyclePass(TableBetween(rows, rounds[0].between), rounds[0]);
      var rest := Live(p.rows, rounds[1..]);
      History(rest.rows, p.sold + rest.sold)
  }

  /** Each cycle starts from one listing of the table, a wallet map and new random ids. */
  ghost predicate Fits(rows: Rows, r: Round) {
    && IsListing(rows, r.jobs) && WellFormed(r.input, rows)
    && (forall i, k :: 0 <= i < k < |r.jobs| ==> r.jobs[i].id != r.jobs[k].id)
    && (forall i :: 0 <= i < |r.between| ==> Outside(r.between[i]))
  }

  ghost predicate AllFit(rows: Rows, rounds: seq<Round>)
    requires forall i :: 0 <= i < |rounds| ==> Shaped(rounds[i])
    decreases |rounds|
  {
    rounds != [] ==>
      var t := TableBetween(rows, rounds[0].between);
      Fits(t, rounds[0]) && AllFit(CyclePass(t, rounds[0]).rows, rounds[1..])
  }

  function RoundMoves(r: Round): seq<Move>
    requires Shaped(r)
  {
    UnsavedMoves(r.input, r.jobs, r.dustUsd, r.replies, r.saved)
  }

  function AllMoves(rounds: seq<Round>): seq<Move>
    requires forall i :: 0 <= i < |rounds| ==> Shaped(rounds[i])
    decreases |rounds|
  {
    if rounds == [] then [] else rounds[0].between + RoundMoves(rounds[0]) + AllMoves(rounds[1..])
  }

  /** What happens between cycles depends on the table alone, and broadcasts nothing. */
  lemma {:induction false} OutsideRun(l: Ledger, k: Ledger, moves: seq<Move>)
    requires l.rows == k.rows && forall i :: 0 <= i < |moves| ==> Outside(moves[i])
    ensures Run(l, moves).rows == Run(k, moves).rows && Run(l, moves).sent == l.sent
    decreases |moves|
  {
    if moves == [] {
    } else {
      OutsideRun(Next(l, moves[0]), Next(k, moves[0]), moves[1..]);
    }
  }

  lemma {:induction false} SoldConcat(a: seq<Sold>, b: seq<Sold>, id: string)
    ensures SoldSignatures(a + b, id) == SoldSignatures(a, id) + SoldSignatures(b, id)
    decreases |b|
  {
    if b == [] {
      assert a + b == a;
    } else {
      var n := |b| - 1;
      SoldConcat(a, b[..n], id);
      ConcatSnoc(a, b);
      SoldAppend(a + b[..n], b[n], id);
      SoldAppend(b[..n], b[n], id);
    }
  }

  /** The run from l to t leaves the table of h, and broadcast job by job what h sold. */
  ghost predicate Explains(l: Ledger, t: Ledger, h: History) {
    h.rows == t.rows && forall id :: SentOf(t, id) == SentOf(l, id) + SoldSignatures(h.sold, id)
  }

  lemma AppendTwice<T>(a: seq<T>, b: seq<T>, c: seq<T>, x: seq<T>, y: seq<T>)
    requires b == a + x && c == b + y
    ensures c == a + (x + y)
  {
  }

  lemma ExplainsConcat(l: Ledger, t: Ledger, u: Ledger, first: History, rest: History)
    requires Explains(l, t, first) && Explains(t, u, rest)
    ensures Explains(l, u, History(rest.rows, first.sold + rest.sold))
  {
    forall id
      ensures SentOf(u, id) == SentOf(l, id) + SoldSignatures(first.sold + rest.sold, id)
    {
      SoldConcat(first.sold, rest.sold, id);
      AppendTwice(SentOf(l, id), SentOf(t, id), SentOf(u, id), SoldSignatures(first.sold, id),
                  SoldSignatures(rest.sold, id));
    }
  }

  function AfterRound(rows: Rows, r: Round): History
    requires Shaped(r)
  {
    var p := CyclePass(TableBetween(rows, r.between), r);
    History(p.rows, p.sold)
  }

  lemma CycleExplained(l: Ledger, r: Round)
    requires Inv(l) && Shaped(r) && Fits(l.rows, r)
    ensures var p := CyclePass(l.rows, r); Explains(l, Run(l, RoundMoves(r)), History(p.rows, p.sold))
  {
    UnsavedCycleIsRun(l, r.jobs, r.input, r.dustUsd, r.replies, r.saved);
  }

  lemma SameSent(l: Ledger, k: Ledger, t: Ledger, h: History)
    requires l.sent == k.sent && Explains(k, t, h)
    ensures Explains(l, t, h)
  {
    forall id
      ensures SentOf(t, id) == SentOf(l, id) + SoldSignatures(h.sold, id)
    {
      assert SentOf(k, id) == SentOf(l, id);
    }
  }

  /** One round of the engine is a run. */
  lemma RoundIsRun(l: Ledger, r: Round)
    requires Inv(l) && Shaped(r) && GoodRun(l, r.between + RoundMoves(r))
    requires Fits(TableBetween(l.rows, r.between), r)
    ensures Explains(l, Run(l, r.between + RoundMoves(r)), AfterRound(l.rows, r))
    ensures Inv(Run(l, r.between + RoundMoves(r)))
  {
    var between := Run(l, r.between);
    RunConcat(l, r.between, RoundMoves(r));
    OutsideRun(l, Ledger(l.rows, map[], map[]), r.between);
    RunKeepsBooks(l, r.between);
    RunKeepsBooks(between, RoundMoves(r));
    CycleExplained(between, r);
    SameSent(l, between, Run(between, RoundMoves(r)), AfterRound(l.rows, r));
  }

  /** A life of whole cycles is one run: its table, and job by job its broadcasts. */
  lemma {:induction false} LifeIsRun(l: Ledger, rounds: seq<Round>)
    requires forall i :: 0 <= i < |rounds| ==> Shaped(rounds[i])
    requires Inv(l) && GoodRun(l, AllMoves(rounds)) && AllFit(l.rows, rounds)
    ensures Explains(l, Run(l, AllMoves(rounds)), Live(l.rows, rounds))
    decreases |rounds|
  {
    if rounds == [] {
    } else {
      var moves := rounds[0].between + RoundMoves(rounds[0]);
      RunConcat(l, moves, AllMoves(rounds[1..]));
      RoundIsRun(l, rounds[0]);
      LifeIsRun(Run(l, moves), rounds[1..]);
      ExplainsConcat(l, Run(l, moves), Run(l, AllMoves(rounds)), AfterRound(l.rows, rounds[0]),
                     Live(AfterRound(l.rows, rounds[0]).rows, rounds[1..]));
    }
  }

  /** At most one of these transactions has landed or still can. */
  ghost predicate OnlyOneMayLand(l: Ledger, signatures: seq<Signature>) {
    forall i, j :: 0 <= i < j < |signatures| ==> !MayLand(l, signatures[i]) || !MayLand(l, signatures[j])
  }

  lemma SentOnlyOneLands(l: Ledger, signatures: seq<Signature>, id: string)
    requires AtMostOneLands(l, id) && signatures == SentOf(l, id)
    ensures OnlyOneMayLand(l, signatures)
  {
  }

  /**
   * Over a whole life of cycles, at most one of the transactions the engine sold a job by
   * can ever land, and the table is the one the run of its moves ends with.
   */
  lemma CyclesNeverSellTwice(rounds: seq<Round>, id: string)
    requires forall i :: 0 <= i < |rounds| ==> Shaped(rounds[i])
    requires GoodRun(EMPTY, AllMoves(rounds)) && AllFit(map[], rounds)
    ensures OnlyOneMayLand(Run(EMPTY, AllMoves(rounds)), SoldSignatures(Live(map[], rounds).sold, id))
    ensures Live(map[], rounds).rows == Run(EMPTY, AllMoves(rounds)).rows
  {
    var end := Run(EMPTY, AllMoves(rounds));
    LifeIsRun(EMPTY, rounds);
    NeverSoldTwice(AllMoves(rounds), id);
    assert SentOf(EMPTY, id) == [] && SentOf(end, id) == [] + SoldSignatures(Live(map[], rounds).sold, id);
    SentOnlyOneLands(end, SoldSignatures(Live(map[], rounds).sold, id), id);
  }
}
