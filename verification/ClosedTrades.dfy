/**
 * Statistics over closed trades. Money is an exact real; a realised outcome is
 * missing (null), not finite, or a known amount.
 */
module ClosedTrades {
  import opened Prelude

  datatype Pnl = Unpriced | NotFinite | Known(usd: real)

  datatype Closed = Closed(pnl: Pnl, closedAt: Option<int>, paperExitedAt: Option<int>)

  datatype Stats = Stats(
    count: nat, totalRows: nat, missingOutcomes: nat, wins: nat, losses: nat,
    winRatePct: Option<real>, netPnlUsd: Option<real>, expectancyUsd: Option<real>,
    avgWinUsd: Option<real>, avgLossUsd: Option<real>, profitFactor: Option<real>,
    maxDrawdownUsd: Option<real>)

  /** A row whose realised outcome is known, as the statistics see it. */
  datatype Outcome = Outcome(usd: real, exitAt: int)

  function ExitAt(p: Closed): int {
    GetOr(p.closedAt, GetOr(p.paperExitedAt, 0))
  }

  /** The priced rows, in ledger order. */
  function Priced(ps: seq<Closed>): seq<Outcome> {
    if ps == [] then []
    else if ps[0].pnl.Known? then [Outcome(ps[0].pnl.usd, ExitAt(ps[0]))] + Priced(ps[1..])
    else Priced(ps[1..])
  }

  function Sum(os: seq<Outcome>): real {
    if os == [] then 0.0 else os[0].usd + Sum(os[1..])
  }

  function Wins(os: seq<Outcome>): seq<Outcome> {
    if os == [] then []
    else if os[0].usd > 0.0 then [os[0]] + Wins(os[1..])
    else Wins(os[1..])
  }

  function Losses(os: seq<Outcome>): seq<Outcome> {
    if os == [] then []
    else if os[0].usd < 0.0 then [os[0]] + Losses(os[1..])
    else Losses(os[1..])
  }

  // ---- Exit order: a stable sort by exit time ----

  predicate InExitOrder(os: seq<Outcome>) {
    forall i, j :: 0 <= i < j < |os| ==> os[i].exitAt <= os[j].exitAt
  }

  /** The outcomes that exited at one instant, in the order they are listed. */
  function ExitedAt(os: seq<Outcome>, at: int): seq<Outcome> {
    if os == [] then []
    else if os[0].exitAt == at then [os[0]] + ExitedAt(os[1..], at)
    else ExitedAt(os[1..], at)
  }

  /** Places o before everything that exits no earlier. */
  function Insert(o: Outcome, os: seq<Outcome>): seq<Outcome> {
    if os == [] || o.exitAt <= os[0].exitAt then [o] + os else [os[0]] + Insert(o, os[1..])
  }

  function ByExit(os: seq<Outcome>): seq<Outcome> {
    if os == [] then [] else Insert(os[0], ByExit(os[1..]))
  }

  lemma {:induction false} InsertKeeps(o: Outcome, os: seq<Outcome>)
    ensures multiset(Insert(o, os)) == multiset(os) + multiset{o}
    ensures Sum(Insert(o, os)) == o.usd + Sum(os)
    ensures |Insert(o, os)| == |os| + 1
  {
    if os == [] || o.exitAt <= os[0].exitAt {
      assert ([o] + os)[1..] == os;
    } else {
      InsertKeeps(o, os[1..]);
      assert os == [os[0]] + os[1..];
      assert ([os[0]] + Insert(o, os[1..]))[1..] == Insert(o, os[1..]);
    }
  }

  lemma {:induction false} InsertInOrder(o: Outcome, os: seq<Outcome>)
    requires InExitOrder(os)
    ensures InExitOrder(Insert(o, os))
    ensures forall x :: x in Insert(o, os) ==> x == o || x in os
  {
    if os == [] || o.exitAt <= os[0].exitAt {
    } else {
      InsertInOrder(o, os[1..]);
      assert os == [os[0]] + os[1..];
      var rest := Insert(o, os[1..]);
      forall k | 0 <= k < |rest| ensures os[0].exitAt <= rest[k].exitAt {
        assert rest[k] in rest;
      }
    }
  }

  lemma {:induction false} InsertKeepsTies(o: Outcome, os: seq<Outcome>, at: int)
    requires InExitOrder(os)
    ensures ExitedAt(Insert(o, os), at) == (if o.exitAt == at then [o] else []) + ExitedAt(os, at)
  {
    if os == [] || o.exitAt <= os[0].exitAt {
      assert ([o] + os)[1..] == os;
    } else {
      InsertKeepsTies(o, os[1..], at);
      assert ([os[0]] + Insert(o, os[1..]))[1..] == Insert(o, os[1..]);
    }
  }

  lemma {:induction false} ByExitInOrder(os: seq<Outcome>)
    ensures InExitOrder(ByExit(os))
  {
    if os == [] {
    } else {
      ByExitInOrder(os[1..]);
      InsertInOrder(os[0], ByExit(os[1..]));
    }
  }

  lemma {:induction false} ByExitKeepsTies(os: seq<Outcome>, at: int)
    ensures ExitedAt(ByExit(os), at) == ExitedAt(os, at)
  {
    if os == [] {
    } else {
      ByExitKeepsTies(os[1..], at);
      ByExitInOrder(os[1..]);
      InsertKeepsTies(os[0], ByExit(os[1..]), at);
    }
  }

  lemma {:induction false} ByExitKeepsAll(os: seq<Outcome>)
    ensures multiset(ByExit(os)) == multiset(os) && |ByExit(os)| == |os|
  {
    if os == [] {
    } else {
      ByExitKeepsAll(os[1..]);
      assert os == [os[0]] + os[1..];
      InsertKeeps(os[0], ByExit(os[1..]));
    }
  }

  lemma {:induction false} ByExitKeepsSum(os: seq<Outcome>)
    ensures Sum(ByExit(os)) == Sum(os)
  {
    if os == [] {
    } else {
      ByExitKeepsSum(os[1..]);
      InsertKeeps(os[0], ByExit(os[1..]));
    }
  }

  /** The specification of the built-in stable sort: ordered, and ties keep ledger order. */
  lemma ByExitIsStableSort(os: seq<Outcome>)
    ensures InExitOrder(ByExit(os))
    ensures forall at :: ExitedAt(ByExit(os), at) == ExitedAt(os, at)
    ensures multiset(ByExit(os)) == multiset(os)
    ensures Sum(ByExit(os)) == Sum(os)
    ensures |ByExit(os)| == |os|
  {
    ByExitInOrder(os);
    ByExitKeepsAll(os);
    ByExitKeepsSum(os);
    forall at ensures ExitedAt(ByExit(os), at) == ExitedAt(os, at) {
      ByExitKeepsTies(os, at);
    }
  }

  lemma {:induction false} ExitedAtMember(os: seq<Outcome>, o: Outcome, at: int)
    ensures o in ExitedAt(os, at) <==> o in os && o.exitAt == at
  {
    if os == [] {
    } else {
      ExitedAtMember(os[1..], o, at);
      assert os == [os[0]] + os[1..];
    }
  }

  lemma SameHead(xs: seq<Outcome>, ys: seq<Outcome>)
    requires xs != [] && ys != []
    requires InExitOrder(xs) && InExitOrder(ys)
    requires forall at :: ExitedAt(xs, at) == ExitedAt(ys, at)
    ensures xs[0] == ys[0]
  {
    var x, y := xs[0].exitAt, ys[0].exitAt;
    ExitedAtMember(xs, xs[0], x);
    ExitedAtMember(ys, xs[0], x);
    ExitedAtMember(ys, ys[0], y);
    ExitedAtMember(xs, ys[0], y);
    assert x == y;
    assert ExitedAt(xs, x)[0] == xs[0];
    assert ExitedAt(ys, x)[0] == ys[0];
  }

  /** No other order is sorted and keeps ties: any stable sort computes ByExit. */
  lemma {:induction false} StableOrderIsUnique(xs: seq<Outcome>, ys: seq<Outcome>)
    requires InExitOrder(xs) && InExitOrder(ys)
    requires forall at :: ExitedAt(xs, at) == ExitedAt(ys, at)
    ensures xs == ys
  {
    if xs == [] || ys == [] {
      assert xs != [] ==> xs[0] in xs;
      assert ys != [] ==> ys[0] in ys;
      forall o: Outcome ensures o !in xs && o !in ys {
        ExitedAtMember(xs, o, o.exitAt);
        ExitedAtMember(ys, o, o.exitAt);
      }
    } else {
      SameHead(xs, ys);
      forall at ensures ExitedAt(xs[1..], at) == ExitedAt(ys[1..], at) {
        assert ExitedAt(xs, at) == ExitedAt(ys, at);
        assert ([xs[0]] + ExitedAt(xs[1..], at))[1..] == ExitedAt(xs[1..], at);
        assert ([ys[0]] + ExitedAt(ys[1..], at))[1..] == ExitedAt(ys[1..], at);
      }
      StableOrderIsUnique(xs[1..], ys[1..]);
      assert xs == [xs[0]] + xs[1..];
      assert ys == [ys[0]] + ys[1..];
    }
  }

  // ---- Gross and net ----

  lemma {:induction false} NetIsGross(os: seq<Outcome>)
    ensures Sum(os) == Sum(Wins(os)) + Sum(Losses(os))
    ensures Sum(Wins(os)) >= 0.0 && (Sum(Wins(os)) > 0.0 <==> Wins(os) != [])
    ensures Sum(Losses(os)) <= 0.0 && (Sum(Losses(os)) < 0.0 <==> Losses(os) != [])
    ensures |Wins(os)| + |Losses(os)| <= |os|
  {
    if os == [] {
    } else {
      NetIsGross(os[1..]);
      assert ([os[0]] + Wins(os[1..]))[1..] == Wins(os[1..]);
      assert ([os[0]] + Losses(os[1..]))[1..] == Losses(os[1..]);
    }
  }

  /** Rows without a known outcome are left out, never counted as zero. */
  lemma {:induction false} PricedRows(ps: seq<Closed>)
    ensures |Priced(ps)| <= |ps|
    ensures |Priced(ps)| == |ps| <==> forall p :: p in ps ==> p.pnl.Known?
    ensures forall o :: o in Priced(ps) <==>
        exists p :: p in ps && p.pnl.Known? && o == Outcome(p.pnl.usd, ExitAt(p))
  {
    if ps == [] {
    } else {
      PricedRows(ps[1..]);
      assert ps == [ps[0]] + ps[1..];
    }
  }

  // ---- Drawdown ----

  /** S_k: the running result after the first k exits. */
  function After(os: seq<Outcome>, k: nat): real
    requires k <= |os|
  {
    if k == 0 then 0.0 else After(os, k - 1) + os[k - 1].usd
  }

  lemma {:induction false} SumAppend(os: seq<Outcome>, o: Outcome)
    ensures Sum(os + [o]) == Sum(os) + o.usd
  {
    if os == [] {
    } else {
      SumAppend(os[1..], o);
      assert (os + [o])[1..] == os[1..] + [o];
    }
  }

  lemma {:induction false} AfterAll(os: seq<Outcome>, k: nat)
    requires k <= |os|
    ensures After(os, k) == Sum(os[..k])
  {
    if k == 0 {
    } else {
      AfterAll(os, k - 1);
      SumAppend(os[..k - 1], os[k - 1]);
      assert os[..k] == os[..k - 1] + [os[k - 1]];
    }
  }

  /** d is the largest fall from any earlier point of the curve to any later one. */
  ghost predicate LargestFall(os: seq<Outcome>, d: real) {
    && (exists i, j :: 0 <= i <= j <= |os| && After(os, i) - After(os, j) == d)
    && (forall i, j :: 0 <= i <= j <= |os| ==> After(os, i) - After(os, j) <= d)
  }

  lemma {:induction false} SumConcat(xs: seq<Outcome>, ys: seq<Outcome>)
    ensures Sum(xs + ys) == Sum(xs) + Sum(ys)
  {
    if xs == [] {
      assert xs + ys == ys;
    } else {
      SumConcat(xs[1..], ys);
      assert (xs + ys)[1..] == xs[1..] + ys;
    }
  }

  lemma {:induction false} LossesConcat(xs: seq<Outcome>, ys: seq<Outcome>)
    ensures Sum(Losses(xs + ys)) == Sum(Losses(xs)) + Sum(Losses(ys))
  {
    if xs == [] {
      assert xs + ys == ys;
    } else {
      LossesConcat(xs[1..], ys);
      assert (xs + ys)[1..] == xs[1..] + ys;
      assert ([xs[0]] + Losses(xs[1..]))[1..] == Losses(xs[1..]);
      assert ([xs[0]] + Losses(xs[1..] + ys))[1..] == Losses(xs[1..] + ys);
    }
  }

  lemma {:induction false} FallWithinLosses(os: seq<Outcome>, i: nat, j: nat)
    requires i <= j <= |os|
    ensures After(os, i) - After(os, j) <= -Sum(Losses(os))
  {
    AfterAll(os, i);
    AfterAll(os, j);
    assert os[..j] == os[..i] + os[i..j];
    SumConcat(os[..i], os[i..j]);
    NetIsGross(os[i..j]);
    assert os == os[..i] + os[i..j] + os[j..];
    LossesConcat(os[..i] + os[i..j], os[j..]);
    LossesConcat(os[..i], os[i..j]);
    NetIsGross(os[..i]);
    NetIsGross(os[j..]);
  }

  /** The largest fall lies between the net loss and the gross loss. */
  lemma {:induction false} FallBounds(os: seq<Outcome>, d: real)
    requires LargestFall(os, d)
    ensures 0.0 <= d
    ensures -Sum(os) <= d <= -Sum(Losses(os))
  {
    assert After(os, 0) - After(os, 0) <= d;
    AfterAll(os, |os|);
    assert os[..|os|] == os;
    assert After(os, 0) - After(os, |os|) <= d;
    var i, j :| 0 <= i <= j <= |os| && After(os, i) - After(os, j) == d;
    FallWithinLosses(os, i, j);
  }

  /** Reordering does not change the gross loss, so the bounds hold in ledger order too. */
  lemma {:induction false} LossesInsert(o: Outcome, os: seq<Outcome>)
    ensures Sum(Losses(Insert(o, os))) == Sum(Losses([o] + os))
  {
    if os == [] || o.exitAt <= os[0].exitAt {
    } else {
      LossesInsert(o, os[1..]);
      LossesConcat([os[0]], Insert(o, os[1..]));
      LossesConcat([o], os[1..]);
      LossesConcat([o], os);
      assert os == [os[0]] + os[1..];
      LossesConcat([os[0]], os[1..]);
    }
  }

  lemma {:induction false} LossesByExit(os: seq<Outcome>)
    ensures Sum(Losses(ByExit(os))) == Sum(Losses(os))
  {
    if os == [] {
    } else {
      LossesByExit(os[1..]);
      LossesInsert(os[0], ByExit(os[1..]));
      LossesConcat([os[0]], ByExit(os[1..]));
      LossesConcat([os[0]], os[1..]);
      assert os == [os[0]] + os[1..];
    }
  }

  // ---- The summary ----

  function Weighted(average: Option<real>, n: nat): real {
    GetOr(average, 0.0) * (n as real)
  }

  /** The averages, weighted by their counts, make up the net result. */
  predicate AveragesMakeUpNet(s: Stats)
    requires s.netPnlUsd.Some? && s.expectancyUsd.Some? && s.winRatePct.Some?
  {
    && s.netPnlUsd.value == Weighted(s.avgWinUsd, s.wins) + Weighted(s.avgLossUsd, s.losses)
    && s.netPnlUsd.value == Weighted(s.expectancyUsd, s.count)
    && 100.0 * (s.wins as real) == Weighted(s.winRatePct, s.count)
  }

  function Mean(total: real, n: nat): Option<real> {
    if n > 0 then Some(total / (n as real)) else None
  }

  function ProfitFactor(win: real, loss: real): Option<real> {
    if loss < 0.0 then Some(win / -loss) else None
  }

  lemma MeanWeighted(total: real, n: nat)
    requires n == 0 ==> total == 0.0
    ensures Weighted(Mean(total, n), n) == total
    ensures Mean(total, n).Some? <==> n > 0
  {
  }

  lemma ProfitFactorAboveOne(win: real, loss: real)
    ensures ProfitFactor(win, loss).Some? <==> loss < 0.0
    ensures loss < 0.0 ==> (ProfitFactor(win, loss).value > 1.0 <==> win + loss > 0.0)
  {
    if loss < 0.0 {
      var f := win / -loss;
      assert f * -loss == win;
      if f > 1.0 {
        assert (f - 1.0) * -loss > 0.0;
      } else {
        assert (1.0 - f) * -loss >= 0.0;
      }
    }
  }

  /** The peak of the curve so far. */
  ghost predicate IsPeak(os: seq<Outcome>, k: nat, peak: real)
    requires k <= |os|
  {
    && (exists i :: 0 <= i <= k && After(os, i) == peak)
    && (forall i :: 0 <= i <= k ==> After(os, i) <= peak)
  }

  /** d is the largest fall within the first k exits. */
  ghost predicate LargestFallTo(os: seq<Outcome>, k: nat, d: real)
    requires k <= |os|
  {
    && (exists i, j :: 0 <= i <= j <= k && After(os, i) - After(os, j) == d)
    && (forall i, j :: 0 <= i <= j <= k ==> After(os, i) - After(os, j) <= d)
  }

  lemma LargestOfAll(os: seq<Outcome>, d: real)
    requires LargestFallTo(os, |os|, d)
    ensures LargestFall(os, d)
  {
  }

  /** What the loop knows after k exits. */
  ghost predicate Fallen(os: seq<Outcome>, k: nat, running: real, peak: real, d: real)
    requires k <= |os|
  {
    running == After(os, k) && IsPeak(os, k, peak) && LargestFallTo(os, k, d)
  }

  lemma NothingFallen(os: seq<Outcome>)
    ensures Fallen(os, 0, 0.0, 0.0, 0.0)
  {
    assert After(os, 0) - After(os, 0) == 0.0;
  }

  lemma PeakOn(os: seq<Outcome>, k: nat, peak: real)
    requires k < |os| && IsPeak(os, k, peak)
    ensures var running := After(os, k + 1); IsPeak(os, k + 1, if running > peak then running else peak)
  {
    var i :| 0 <= i <= k && After(os, i) == peak;
    assert 0 <= i <= k + 1;
  }

  lemma LargestOn(os: seq<Outcome>, k: nat, peak: real, d: real)
    requires k < |os| && IsPeak(os, k + 1, peak) && LargestFallTo(os, k, d)
    ensures var fall := peak - After(os, k + 1); LargestFallTo(os, k + 1, if fall > d then fall else d)
  {
    var fall := peak - After(os, k + 1);
    forall i, j | 0 <= i <= j <= k + 1
      ensures After(os, i) - After(os, j) <= if fall > d then fall else d
    {
      assert j == k + 1 ==> After(os, i) <= peak;
    }
    if fall > d {
      var top :| 0 <= top <= k + 1 && After(os, top) == peak;
      assert After(os, top) - After(os, k + 1) == fall;
    } else {
      var i, j :| 0 <= i <= j <= k && After(os, i) - After(os, j) == d;
      assert 0 <= i <= j <= k + 1;
    }
  }

  lemma FallsOn(os: seq<Outcome>, k: nat, running: real, peak: real, d: real)
    requires k < |os| && Fallen(os, k, running, peak, d)
    ensures var next := running + os[k].usd;
      var top := if next > peak then next else peak;
      Fallen(os, k + 1, next, top, if top - next > d then top - next else d)
  {
    var next := running + os[k].usd;
    PeakOn(os, k, peak);
    LargestOn(os, k, if next > peak then next else peak, d);
  }

  /** The peak-tracking loop. */
  method MaxDrawdown(ordered: seq<Outcome>) returns (maxDrawdown: real)
    ensures LargestFall(ordered, maxDrawdown)
  {
    var peak, running := 0.0, 0.0;
    maxDrawdown := 0.0;
    var k := 0;
    NothingFallen(ordered);
    while k < |ordered|
      invariant 0 <= k <= |ordered|
      invariant Fallen(ordered, k, running, peak, maxDrawdown)
    {
      FallsOn(ordered, k, running, peak, maxDrawdown);
      running := running + ordered[k].usd;
      k := k + 1;
      peak := if running > peak then running else peak;
      maxDrawdown := if peak - running > maxDrawdown then peak - running else maxDrawdown;
    }
    LargestOfAll(ordered, maxDrawdown);
  }

  lemma DrawdownOfLedger(closes: seq<Outcome>, d: real)
    requires LargestFall(ByExit(closes), d)
    ensures 0.0 <= d && -Sum(closes) <= d <= -Sum(Losses(closes))
  {
    ByExitIsStableSort(closes);
    LossesByExit(closes);
    FallBounds(ByExit(closes), d);
  }

  /** One pass over the priced rows in exit order. */
  method ComputeClosedTradeStats(positions: seq<Closed>) returns (s: Stats)
    ensures s.totalRows == |positions|
    ensures s.count == |Priced(positions)|
    ensures s.missingOutcomes == 0 <==> forall p :: p in positions ==> p.pnl.Known?
    ensures s.count + s.missingOutcomes == s.totalRows
    ensures s.wins == |Wins(Priced(positions))| && s.losses == |Losses(Priced(positions))|
    ensures s.count > 0 <==> s.netPnlUsd.Some?
    ensures s.count > 0 <==> s.maxDrawdownUsd.Some?
    ensures s.count > 0 <==> s.winRatePct.Some?
    ensures s.count > 0 <==> s.expectancyUsd.Some?
    ensures s.wins > 0 <==> s.avgWinUsd.Some?
    ensures s.losses > 0 <==> s.avgLossUsd.Some?
    ensures s.losses > 0 <==> s.profitFactor.Some?
    ensures s.count > 0 ==> s.netPnlUsd.value == Sum(Priced(positions)) && AveragesMakeUpNet(s)
    // Above one exactly when the trades made money overall.
    ensures s.losses > 0 ==> s.count > 0 && (s.profitFactor.value > 1.0 <==> s.netPnlUsd.value > 0.0)
    // The drawdown is the largest fall of the running result in exit order,
    // and lies between the net loss and the gross loss.
    ensures s.count > 0 ==> LargestFall(ByExit(Priced(positions)), s.maxDrawdownUsd.value)
    ensures s.count > 0 ==>
        -s.netPnlUsd.value <= s.maxDrawdownUsd.value <= -Weighted(s.avgLossUsd, s.losses)
  {
    var closes := Priced(positions);
    PricedRows(positions);
    var missing := |positions| - |closes|;
    NetIsGross(closes);
    if |closes| == 0 {
      return Stats(0, |positions|, missing, 0, 0, None, None, None, None, None, None, None);
    }
    var wins, losses := Wins(closes), Losses(closes);
    var grossWin, grossLoss, net := Sum(wins), Sum(losses), Sum(closes);
    var maxDrawdown := MaxDrawdown(ByExit(closes));
    DrawdownOfLedger(closes, maxDrawdown);
    s := Stats(|closes|, |positions|, missing, |wins|, |losses|,
      Mean(100.0 * (|wins| as real), |closes|), Some(net), Mean(net, |closes|),
      Mean(grossWin, |wins|), Mean(grossLoss, |losses|), ProfitFactor(grossWin, grossLoss),
      Some(maxDrawdown));
    MeanWeighted(100.0 * (|wins| as real), |closes|);
    MeanWeighted(net, |closes|);
    MeanWeighted(grossWin, |wins|);
    MeanWeighted(grossLoss, |losses|);
    ProfitFactorAboveOne(grossWin, grossLoss);
  }
}
