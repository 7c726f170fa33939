/** The wallet during one pass: each sale is debited before the next job reads its balance. */
module SettlementWallet {
  import opened Prelude
  import opened SettlementJobs

  type Wallet = map<string, nat>

  function Balance(w: Wallet, mint: string): nat {
    if mint in w then w[mint] else 0
  }

  function SoldBy(now: int, dustUsd: real, r: Replies, job: Row): nat {
    match Process(now, dustUsd, r, job).sale
    case None => 0
    case Some(sale) => sale.amount
  }

  function Debit(now: int, dustUsd: real, r: Replies, job: Row, w: Wallet): Wallet {
    var sold := SoldBy(now, dustUsd, r, job);
    var balance := Balance(w, job.tokenMint);
    w[job.tokenMint := if sold <= balance then balance - sold else 0]
  }

  /** The balance reads of a pass succeed and see every earlier debit. */
  predicate ReadsSeeDebits(now: int, dustUsd: real, jobs: seq<Row>, replies: seq<Replies>, w: Wallet)
    requires |jobs| == |replies|
    decreases |jobs|
  {
    jobs != [] ==>
      && replies[0].balance == Some(Ok(Balance(w, jobs[0].tokenMint)))
      && ReadsSeeDebits(now, dustUsd, jobs[1..], replies[1..], Debit(now, dustUsd, replies[0], jobs[0], w))
  }

  function Closing(now: int, dustUsd: real, jobs: seq<Row>, replies: seq<Replies>, w: Wallet): Wallet
    requires |jobs| == |replies|
    decreases |jobs|
  {
    if jobs == [] then w
    else Closing(now, dustUsd, jobs[1..], replies[1..], Debit(now, dustUsd, replies[0], jobs[0], w))
  }

  /** How much of a mint the whole pass sells. */
  function TotalSold(now: int, dustUsd: real, jobs: seq<Row>, replies: seq<Replies>, mint: string): nat
    requires |jobs| == |replies|
    decreases |jobs|
  {
    if jobs == [] then 0
    else (if jobs[0].tokenMint == mint then SoldBy(now, dustUsd, replies[0], jobs[0]) else 0) +
         TotalSold(now, dustUsd, jobs[1..], replies[1..], mint)
  }

  /** Conservation over a pass, repeated mints included: what is sold and what is left is what there was. */
  lemma {:induction false} PassNeverOverdraws(
      now: int, dustUsd: real, jobs: seq<Row>, replies: seq<Replies>, w: Wallet, mint: string)
    requires |jobs| == |replies| && ReadsSeeDebits(now, dustUsd, jobs, replies, w)
    ensures TotalSold(now, dustUsd, jobs, replies, mint) + Balance(Closing(now, dustUsd, jobs, replies, w), mint)
         == Balance(w, mint)
    decreases |jobs|
  {
    if jobs == [] {
    } else {
      if SoldBy(now, dustUsd, replies[0], jobs[0]) > 0 { SellsWithinBalance(now, dustUsd, replies[0], jobs[0]); }
      PassNeverOverdraws(now, dustUsd, jobs[1..], replies[1..], Debit(now, dustUsd, replies[0], jobs[0], w), mint);
    }
  }

  // ---- Exactly when a pass overdraws ----

  /** No balance was read: the amount is not clamped. */
  predicate Unread(r: Replies) {
    r.balance.None? || r.balance.value.Failed?
  }

  /** No balance was read, or one that is more than there is. */
  predicate Overstated(r: Replies, balance: nat) {
    Unread(r) || r.balance.value.value > balance
  }

  /** The job is sold, asks for more than the wallet holds, and no reading keeps it within that. */
  predicate Oversells(now: int, dustUsd: real, r: Replies, job: Row, balance: nat) {
    Process(now, dustUsd, r, job).sale.Some? && job.amountAtomic > balance && Overstated(r, balance)
  }

  /** What a sale sells: all the job asks for, or the balance read when that is less. */
  lemma SoldIsClamped(now: int, dustUsd: real, r: Replies, job: Row)
    requires Process(now, dustUsd, r, job).sale.Some?
    ensures SoldBy(now, dustUsd, r, job) ==
        if Unread(r) || r.balance.value.value >= job.amountAtomic then job.amountAtomic else r.balance.value.value
  {
  }

  /**
   * Exactly when one job sells more than the wallet holds, whatever its reading: it is sold, asks
   * for more than there is, and no balance was read or one above what there is.
   */
  lemma OverdrawsExactly(now: int, dustUsd: real, r: Replies, job: Row, balance: nat)
    ensures SoldBy(now, dustUsd, r, job) > balance <==> Oversells(now, dustUsd, r, job, balance)
  {
    if Process(now, dustUsd, r, job).sale.Some? {
      SoldIsClamped(now, dustUsd, r, job);
    }
  }

  /** Some job of this mint oversells what was left when its turn came. */
  predicate SomeOversells(now: int, dustUsd: real, jobs: seq<Row>, replies: seq<Replies>, w: Wallet, mint: string)
    requires |jobs| == |replies|
    decreases |jobs|
  {
    && jobs != []
    && (|| (jobs[0].tokenMint == mint && Oversells(now, dustUsd, replies[0], jobs[0], Balance(w, mint)))
        || SomeOversells(now, dustUsd, jobs[1..], replies[1..], Debit(now, dustUsd, replies[0], jobs[0], w), mint))
  }

  lemma DebitedBalance(now: int, dustUsd: real, r: Replies, job: Row, w: Wallet, mint: string)
    ensures var sold := if job.tokenMint == mint then SoldBy(now, dustUsd, r, job) else 0;
      var left := Balance(Debit(now, dustUsd, r, job, w), mint);
      left == if sold <= Balance(w, mint) then Balance(w, mint) - sold else 0
  {
  }

  /**
   * The whole pass, repeated mints and any readings included: more of a mint is sold than the
   * wallet held at the start exactly when some job of that mint oversells what was left.
   */
  lemma {:induction false} PassOverdrawsExactly(
      now: int, dustUsd: real, jobs: seq<Row>, replies: seq<Replies>, w: Wallet, mint: string)
    requires |jobs| == |replies|
    ensures TotalSold(now, dustUsd, jobs, replies, mint) > Balance(w, mint) <==>
            SomeOversells(now, dustUsd, jobs, replies, w, mint)
    decreases |jobs|
  {
    if jobs == [] {
    } else {
      var after := Debit(now, dustUsd, replies[0], jobs[0], w);
      PassOverdrawsExactly(now, dustUsd, jobs[1..], replies[1..], after, mint);
      DebitedBalance(now, dustUsd, replies[0], jobs[0], w, mint);
      if jobs[0].tokenMint == mint {
        OverdrawsExactly(now, dustUsd, replies[0], jobs[0], Balance(w, mint));
      }
    }
  }

  // ---- When every reading is true ----

  /** A balance read that succeeds tells the truth; it may also fail, or there may be no reader. */
  predicate TrueRead(r: Replies, balance: nat) {
    r.balance.Some? && r.balance.value.Ok? ==> r.balance.value.value == balance
  }

  /** One job with a true reading oversells exactly when it is sold unread and asks for more than there is. */
  lemma TrueReadOverdrawsExactly(now: int, dustUsd: real, r: Replies, job: Row, balance: nat)
    requires TrueRead(r, balance)
    ensures SoldBy(now, dustUsd, r, job) > balance <==>
            Process(now, dustUsd, r, job).sale.Some? && Unread(r) && job.amountAtomic > balance
  {
    OverdrawsExactly(now, dustUsd, r, job, balance);
  }

  /** Every read of the pass that succeeds sees the wallet as the earlier sales left it. */
  predicate TrueReads(now: int, dustUsd: real, jobs: seq<Row>, replies: seq<Replies>, w: Wallet)
    requires |jobs| == |replies|
    decreases |jobs|
  {
    jobs != [] ==>
      && TrueRead(replies[0], Balance(w, jobs[0].tokenMint))
      && TrueReads(now, dustUsd, jobs[1..], replies[1..], Debit(now, dustUsd, replies[0], jobs[0], w))
  }

  /** Some job of this mint is sold unread and asks for more than was left when its turn came. */
  predicate SomeUnclamped(now: int, dustUsd: real, jobs: seq<Row>, replies: seq<Replies>, w: Wallet, mint: string)
    requires |jobs| == |replies|
    decreases |jobs|
  {
    && jobs != []
    && (|| (&& jobs[0].tokenMint == mint && Process(now, dustUsd, replies[0], jobs[0]).sale.Some?
            && Unread(replies[0]) && jobs[0].amountAtomic > Balance(w, mint))
        || SomeUnclamped(now, dustUsd, jobs[1..], replies[1..], Debit(now, dustUsd, replies[0], jobs[0], w), mint))
  }

  /** With true readings only an unread job oversells. */
  lemma {:induction false} TrueReadsOverdrawExactly(
      now: int, dustUsd: real, jobs: seq<Row>, replies: seq<Replies>, w: Wallet, mint: string)
    requires |jobs| == |replies| && TrueReads(now, dustUsd, jobs, replies, w)
    ensures SomeOversells(now, dustUsd, jobs, replies, w, mint) <==>
            SomeUnclamped(now, dustUsd, jobs, replies, w, mint)
    ensures TotalSold(now, dustUsd, jobs, replies, mint) > Balance(w, mint) <==>
            SomeUnclamped(now, dustUsd, jobs, replies, w, mint)
    decreases |jobs|
  {
    PassOverdrawsExactly(now, dustUsd, jobs, replies, w, mint);
    if jobs == [] {
    } else {
      TrueReadsOverdrawExactly(
        now, dustUsd, jobs[1..], replies[1..], Debit(now, dustUsd, replies[0], jobs[0], w), mint);
    }
  }

  // ---- The balance cache ----

  /** The sale's confirmation is awaited, so the cached balances are dropped; a failed save comes before that. */
  predicate DropsCache(r: Replies) {
    r.submission.Broadcast? && r.submission.saved
  }

  /** Every reading is fresh or cached, by an earlier reading whose balances were not dropped since. */
  predicate CachedReads(
      now: int, dustUsd: real, jobs: seq<Row>, replies: seq<Replies>, w: Wallet, cache: map<string, nat>)
    requires |jobs| == |replies|
    decreases |jobs|
  {
    jobs != [] ==>
      var mint, sold := jobs[0].tokenMint, Process(now, dustUsd, replies[0], jobs[0]).sale.Some?;
      && replies[0].balance.Some? && replies[0].balance.value.Ok?
      && var read := replies[0].balance.value.value;
         && (read == Balance(w, mint) || (mint in cache && read == cache[mint]))
         && CachedReads(now, dustUsd, jobs[1..], replies[1..], Debit(now, dustUsd, replies[0], jobs[0], w),
                        if sold && DropsCache(replies[0]) then map[] else cache[mint := read])
  }

  predicate AllDropCache(now: int, dustUsd: real, jobs: seq<Row>, replies: seq<Replies>)
    requires |jobs| == |replies|
  {
    forall i :: 0 <= i < |jobs| && Process(now, dustUsd, replies[i], jobs[i]).sale.Some? ==> DropsCache(replies[i])
  }

  /**
   * The cache does no harm while every sale drops it: all readings then see the earlier debits, and
   * nothing is oversold. A sale whose signature could not be saved, or that went unreported, does not drop it.
   */
  lemma {:induction false} CachedReadsSeeDebits(
      now: int, dustUsd: real, jobs: seq<Row>, replies: seq<Replies>, w: Wallet, cache: map<string, nat>)
    requires |jobs| == |replies| && CachedReads(now, dustUsd, jobs, replies, w, cache)
    requires AllDropCache(now, dustUsd, jobs, replies)
    requires forall mint :: mint in cache ==> cache[mint] == Balance(w, mint)
    ensures ReadsSeeDebits(now, dustUsd, jobs, replies, w)
    decreases |jobs|
  {
    if jobs == [] {
    } else {
      var mint, r := jobs[0].tokenMint, replies[0];
      var after := Debit(now, dustUsd, r, jobs[0], w);
      assert AllDropCache(now, dustUsd, jobs[1..], replies[1..]) by {
        assert forall i :: 0 <= i < |jobs[1..]| ==> jobs[1..][i] == jobs[i + 1] && replies[1..][i] == replies[i + 1];
      }
      if Process(now, dustUsd, r, jobs[0]).sale.Some? {
        CachedReadsSeeDebits(now, dustUsd, jobs[1..], replies[1..], after, map[]);
      } else {
        assert forall m :: Balance(after, m) == Balance(w, m);
        CachedReadsSeeDebits(now, dustUsd, jobs[1..], replies[1..], after, cache[mint := r.balance.value.value]);
      }
    }
  }

  // ---- Instances ----

  /** A due job of ten, and a wallet whose swap operations all work. */
  predicate SellsTen(job: Row, r: Replies) {
    && job.status.Pending? && job.nextRetryAt.None? && job.txSignature.None?
    && job.amountAtomic == 10 && job.tokenMint != SOL_MINT
    && r.prices == Ok(map[SOL_MINT := 1.0]) && r.decimals.Ok?
    && r.hasSwapOps && r.quote.Ok? && r.prepare.Ok? && r.simulate.Ok? && r.nativeBefore.Ok? && r.savePrepared.Ok?
    && r.submission.Broadcast?
  }

  /**
   * Both reads succeed and still twice the wallet is sold: the first sale's signature is not saved,
   * so its cached balance is what the second job reads.
   */
  lemma StaleReadOverdraws(now: int, a: Row, b: Row, r: Replies)
    requires SellsTen(a, r) && SellsTen(b, r) && a.tokenMint == b.tokenMint
    requires r.balance == Some(Ok(10)) && !DropsCache(r)
    ensures var w := map[a.tokenMint := 10];
      && CachedReads(now, 0.0, [a, b], [r, r], w, map[])
      && TotalSold(now, 0.0, [a, b], [r, r], a.tokenMint) == 20
  {
    var w: Wallet := map[a.tokenMint := 10];
    assert SoldBy(now, 0.0, r, a) == 10 && SoldBy(now, 0.0, r, b) == 10;
    assert [a, b][1..] == [b] && [r, r][1..] == [r] && [b][1..] == [] && [r][1..] == [];
    var after := Debit(now, 0.0, r, a, w);
    assert CachedReads(now, 0.0, [b], [r], after, map[a.tokenMint := 10]);
    assert TotalSold(now, 0.0, [b], [r], a.tokenMint) == 10 + TotalSold(now, 0.0, [], [], a.tokenMint);
  }

  /** A failed balance read fails open: one job can then sell more than the wallet holds. */
  lemma FailedReadOverdraws(job: Row, r: Replies, now: int)
    requires job.status.Pending? && job.nextRetryAt.None? && job.txSignature.None?
    requires job.amountAtomic == 2 && job.tokenMint != SOL_MINT
    requires r.balance == Some(Failed(true)) && r.prices == Ok(map[SOL_MINT := 1.0]) && r.decimals.Ok?
    requires r.hasSwapOps && r.quote.Ok? && r.prepare.Ok? && r.simulate.Ok? && r.nativeBefore.Ok? && r.savePrepared.Ok?
    requires r.submission.Broadcast?
    ensures TotalSold(now, 0.0, [job], [r], job.tokenMint) > Balance(map[job.tokenMint := 1], job.tokenMint)
  {
    assert SoldBy(now, 0.0, r, job) == 2;
  }
}
