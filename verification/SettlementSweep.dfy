/** The orphan sweep: wallet holdings that nothing accounts for become sell jobs again. */
module SettlementSweep {
  import opened Prelude
  import opened SettlementJobs
  import opened SettlementStore

  datatype Holding = Holding(mint: string, amountAtomic: nat, decimals: nat)

  /** What one sweep reads; `ids[i]` is the random id drawn should holding i need a new row. */
  datatype Input = Input(
    holdings: seq<Holding>,
    backed: set<string>,
    prices: map<string, real>,
    ids: seq<string>,
    dustUsd: real,
    maxPendingMs: int,
    now: int)

  predicate Active(job: Row) {
    !job.status.Terminal? && !job.status.Confirmed?
  }

  predicate Revivable(job: Row) {
    job.status.Terminal? && job.confirmedOutputAtomic.None? && job.txSignature.None?
  }

  function ActiveMints(jobs: seq<Row>): (s: set<string>)
    ensures forall m :: m in s <==> exists j :: j in jobs && Active(j) && j.tokenMint == m
  {
    set j | j in jobs && Active(j) :: j.tokenMint
  }

  /** The latest revivable terminal row of each mint. */
  function TerminalByMint(jobs: seq<Row>): (t: map<string, Row>)
    ensures forall m :: m in t ==> t[m] in jobs && Revivable(t[m]) && t[m].tokenMint == m
    ensures forall j :: j in jobs && Revivable(j) ==> j.tokenMint in t
  {
    if jobs == [] then map[]
    else
      var n := |jobs| - 1;
      var rest := TerminalByMint(jobs[..n]);
      if Revivable(jobs[n]) then rest[jobs[n].tokenMint := jobs[n]] else rest
  }

  predicate OrphanDust(h: Holding, price: real, dustUsd: real) {
    dustUsd > 0.0 && (price <= 0.0 || AtomicUsd(h.amountAtomic, h.decimals, price) < dustUsd)
  }

  function RevivedRow(terminal: Row, h: Holding, input: Input): Row {
    terminal.(status := Pending, attempts := terminal.attempts + 1, amountAtomic := h.amountAtomic,
              nextRetryAt := Some(input.now), expiresAt := input.now + input.maxPendingMs,
              error := None, updatedAt := input.now)
  }

  function NewRow(id: string, h: Holding, input: Input): Row {
    Row(id, "orphan:" + id, h.mint, h.amountAtomic, Pending, 0, Some(input.now), None, None, None, None, None, None,
        input.now + input.maxPendingMs, None, input.now, input.now)
  }

  function NextOrphanSweepJob(
      h: Holding, id: string, active: set<string>, terminals: map<string, Row>, input: Input): Option<Row>
  {
    if h.mint == SOL_MINT || h.amountAtomic == 0 then None
    else if h.mint in active then None
    else if h.mint in input.backed && h.mint !in terminals then None
    else if OrphanDust(h, PriceOf(input.prices, h.mint), input.dustUsd) then None
    else if h.mint in terminals then Some(RevivedRow(terminals[h.mint], h, input))
    else Some(NewRow(id, h, input))
  }

  /** Holdings are a map from mint, and random ids are new. */
  ghost predicate WellFormed(input: Input, rows: Rows) {
    && |input.ids| == |input.holdings|
    && (forall i, j :: 0 <= i < j < |input.holdings| ==> input.holdings[i].mint != input.holdings[j].mint)
    && (forall i, j :: 0 <= i < j < |input.ids| ==> input.ids[i] != input.ids[j])
    && (forall i :: 0 <= i < |input.ids| ==> input.ids[i] !in rows)
  }

  /** The rows swept from the first k holdings. */
  function Swept(input: Input, jobs: seq<Row>, k: nat): seq<Row>
    requires k <= |input.holdings| == |input.ids|
  {
    if k == 0 then []
    else Swept(input, jobs, k - 1) +
         OptionSeq(NextOrphanSweepJob(input.holdings[k - 1], input.ids[k - 1], ActiveMints(jobs),
                                      TerminalByMint(jobs), input))
  }

  function Sweep(input: Input, jobs: seq<Row>): seq<Row>
    requires |input.ids| == |input.holdings|
  {
    Swept(input, jobs, |input.holdings|)
  }

  method SweepOrphanSettlements(input: Input, existingJobs: seq<Row>) returns (jobs: seq<Row>)
    requires |input.ids| == |input.holdings|
    ensures jobs == Sweep(input, existingJobs)
  {
    var active := ActiveMints(existingJobs);
    var terminals := TerminalByMint(existingJobs);
    jobs := [];
    for i := 0 to |input.holdings|
      invariant jobs == Swept(input, existingJobs, i)
    {
      var swept := NextOrphanSweepJob(input.holdings[i], input.ids[i], active, terminals, input);
      if swept.Some? { jobs := jobs + [swept.value]; }
    }
  }

  // ---- What a sweep guarantees about the table ----

  ghost predicate KeyedById(rows: Rows) {
    forall id :: id in rows ==> rows[id].id == id
  }

  /** A successful read of the whole table, in any order. */
  ghost predicate IsListing(rows: Rows, jobs: seq<Row>) {
    && (forall j :: j in jobs ==> j.id in rows && rows[j.id] == j)
    && (forall id :: id in rows ==> rows[id] in jobs)
  }

  /** Each mint has at most one active job. */
  ghost predicate SingleOwner(rows: Rows) {
    forall a, b :: a in rows && b in rows && Active(rows[a]) && Active(rows[b]) ==>
      rows[a].tokenMint == rows[b].tokenMint ==> a == b
  }

  /** Where a swept row comes from: its holding, and either a dead row revived or a new one. */
  ghost predicate SweptFrom(input: Input, jobs: seq<Row>, row: Row, i: nat)
    requires |input.ids| == |input.holdings|
  {
    && i < |input.holdings|
    && NextOrphanSweepJob(input.holdings[i], input.ids[i], ActiveMints(jobs), TerminalByMint(jobs), input) == Some(row)
  }

  lemma SweptAtStep(input: Input, jobs: seq<Row>, k: nat, row: Row)
    requires 0 < k <= |input.holdings| == |input.ids|
    ensures row in Swept(input, jobs, k) <==> row in Swept(input, jobs, k - 1) || SweptFrom(input, jobs, row, k - 1)
  {
  }

  lemma {:induction false} SweptOrigin(input: Input, jobs: seq<Row>, k: nat, row: Row)
    requires k <= |input.holdings| == |input.ids|
    ensures row in Swept(input, jobs, k) <==> exists i :: 0 <= i < k && SweptFrom(input, jobs, row, i)
  {
    if k == 0 {
    } else {
      SweptOrigin(input, jobs, k - 1, row);
      SweptAtStep(input, jobs, k, row);
    }
  }

  /** Two swept rows with one id come from one holding. */
  lemma SweptIdsDiffer(input: Input, jobs: seq<Row>, rows: Rows, a: Row, i: nat, b: Row, j: nat)
    requires KeyedById(rows) && IsListing(rows, jobs) && WellFormed(input, rows)
    requires SweptFrom(input, jobs, a, i) && SweptFrom(input, jobs, b, j)
    ensures a.id == b.id ==> i == j && a == b
  {
    var t := TerminalByMint(jobs);
    var hi, hj := input.holdings[i], input.holdings[j];
    if hi.mint in t && hj.mint in t {
      assert rows[a.id] == t[hi.mint] && rows[b.id] == t[hj.mint];
    }
  }

  /** With one row per id, saving rows in any order leaves exactly them and the rows of other ids. */
  lemma {:induction false} ApplyDistinct(rows: Rows, writes: seq<Row>)
    requires forall i, j :: 0 <= i < j < |writes| ==> writes[i].id != writes[j].id
    ensures forall w :: w in writes ==> w.id in ApplyWrites(rows, writes) && ApplyWrites(rows, writes)[w.id] == w
    ensures forall id :: id in ApplyWrites(rows, writes) ==>
              (exists w :: w in writes && w.id == id) || (id in rows && ApplyWrites(rows, writes)[id] == rows[id])
    ensures forall id :: id in rows ==> id in ApplyWrites(rows, writes)
  {
    if writes == [] {
    } else {
      var n := |writes| - 1;
      ApplyDistinct(rows, writes[..n]);
      var after := ApplyWrites(rows, writes);
      forall w | w in writes
        ensures w.id in after && after[w.id] == w
      {
        if w != writes[n] { assert w in writes[..n]; }
      }
      forall id | id in after
        ensures (exists w :: w in writes && w.id == id) || (id in rows && after[id] == rows[id])
      {
        if id == writes[n].id {
          assert writes[n] in writes;
        } else if w :| w in writes[..n] && w.id == id {
          assert w in writes;
        }
      }
    }
  }

  /** The row of the k-th holding has no id of an earlier one. */
  lemma SweptLast(input: Input, jobs: seq<Row>, rows: Rows, k: nat, row: Row, last: Row)
    requires KeyedById(rows) && IsListing(rows, jobs) && WellFormed(input, rows) && 0 < k <= |input.holdings|
    requires row in Swept(input, jobs, k - 1) && SweptFrom(input, jobs, last, k - 1)
    ensures row.id != last.id
  {
    SweptOrigin(input, jobs, k - 1, row);
    var o :| 0 <= o < k - 1 && SweptFrom(input, jobs, row, o);
    SweptIdsDiffer(input, jobs, rows, row, o, last, k - 1);
  }

  lemma {:induction false} SweptDistinct(input: Input, jobs: seq<Row>, rows: Rows, k: nat)
    requires KeyedById(rows) && IsListing(rows, jobs) && WellFormed(input, rows) && k <= |input.holdings|
    ensures forall i, j :: 0 <= i < j < |Swept(input, jobs, k)| ==>
              Swept(input, jobs, k)[i].id != Swept(input, jobs, k)[j].id
  {
    if k == 0 {
    } else {
      var before, after := Swept(input, jobs, k - 1), Swept(input, jobs, k);
      SweptDistinct(input, jobs, rows, k - 1);
      forall i | 0 <= i < |before| < |after|
        ensures before[i].id != after[|before|].id
      {
        SweptLast(input, jobs, rows, k, before[i], after[|before|]);
      }
    }
  }

  /** The table after the swept rows are saved. */
  function AfterSweep(input: Input, jobs: seq<Row>, rows: Rows): Rows
    requires |input.ids| == |input.holdings|
  {
    ApplyWrites(rows, Sweep(input, jobs))
  }

  /**
   * All that a sweep does to the table: it adds new pending rows and turns dead rows
   * without a signature back into pending ones; every other row stays as it was.
   */
  lemma SweepEffect(input: Input, jobs: seq<Row>, rows: Rows)
    requires KeyedById(rows) && IsListing(rows, jobs) && WellFormed(input, rows)
    ensures KeyedById(AfterSweep(input, jobs, rows))
    ensures forall id :: id in rows ==> id in AfterSweep(input, jobs, rows)
    ensures forall i: nat, row :: SweptFrom(input, jobs, row, i) ==>
              row.id in AfterSweep(input, jobs, rows) && AfterSweep(input, jobs, rows)[row.id] == row
    ensures forall id :: id in AfterSweep(input, jobs, rows) ==>
              || (id in rows && AfterSweep(input, jobs, rows)[id] == rows[id])
              || exists i: nat :: SweptFrom(input, jobs, AfterSweep(input, jobs, rows)[id], i)
  {
    var swept := Sweep(input, jobs);
    var after := AfterSweep(input, jobs, rows);
    SweptDistinct(input, jobs, rows, |input.holdings|);
    ApplyDistinct(rows, swept);
    forall i: nat, row | SweptFrom(input, jobs, row, i)
      ensures row.id in after && after[row.id] == row
    {
      SweptOrigin(input, jobs, |input.holdings|, row);
    }
    forall id | id in after && !(id in rows && after[id] == rows[id])
      ensures after[id].id == id && exists i: nat :: SweptFrom(input, jobs, after[id], i)
    {
      var w :| w in swept && w.id == id;
      SweptOrigin(input, jobs, |input.holdings|, w);
    }
  }

  /** A swept row is pending, unsigned, of its holding's mint, and that mint had no active job. */
  lemma SweptRowIsFresh(input: Input, jobs: seq<Row>, rows: Rows, row: Row, i: nat)
    requires KeyedById(rows) && IsListing(rows, jobs) && WellFormed(input, rows) && SweptFrom(input, jobs, row, i)
    ensures Active(row) && row.txSignature.None? && row.confirmedOutputAtomic.None?
    ensures row.tokenMint == input.holdings[i].mint && row.amountAtomic == input.holdings[i].amountAtomic > 0
    ensures forall id :: id in rows && Active(rows[id]) ==> rows[id].tokenMint != row.tokenMint
    ensures row.id in rows ==> Revivable(rows[row.id]) && rows[row.id].tokenMint == row.tokenMint
    ensures row.id !in rows ==> forall id :: id in rows && Revivable(rows[id]) ==> rows[id].tokenMint != row.tokenMint
  {
  }

  /** If each mint had at most one active job before a sweep, it does afterwards. */
  lemma SweepKeepsSingleOwner(input: Input, jobs: seq<Row>, rows: Rows)
    requires KeyedById(rows) && IsListing(rows, jobs) && WellFormed(input, rows) && SingleOwner(rows)
    ensures SingleOwner(AfterSweep(input, jobs, rows))
  {
    var after := AfterSweep(input, jobs, rows);
    SweepEffect(input, jobs, rows);
    forall a, b | a in after && b in after && Active(after[a]) && Active(after[b])
                  && after[a].tokenMint == after[b].tokenMint
      ensures a == b
    {
      var oldA, oldB := a in rows && after[a] == rows[a], b in rows && after[b] == rows[b];
      if !oldA {
        var i: nat :| SweptFrom(input, jobs, after[a], i);
        SweptRowIsFresh(input, jobs, rows, after[a], i);
        if !oldB {
          var j: nat :| SweptFrom(input, jobs, after[b], j);
          SweptRowIsFresh(input, jobs, rows, after[b], j);
          assert i == j;
        }
      } else if !oldB {
        var j: nat :| SweptFrom(input, jobs, after[b], j);
        SweptRowIsFresh(input, jobs, rows, after[b], j);
      }
    }
  }

  lemma SecondSweepSkips(input: Input, jobs: seq<Row>, rows: Rows, again: seq<Row>, ids: seq<string>, i: nat)
    requires KeyedById(rows) && IsListing(rows, jobs) && WellFormed(input, rows) && i < |input.holdings| == |ids|
    requires IsListing(AfterSweep(input, jobs, rows), again)
    ensures NextOrphanSweepJob(input.holdings[i], ids[i], ActiveMints(again), TerminalByMint(again),
                               input.(ids := ids)).None?
  {
    var after := AfterSweep(input, jobs, rows);
    var mint := input.holdings[i].mint;
    SweepEffect(input, jobs, rows);
    var first := NextOrphanSweepJob(input.holdings[i], input.ids[i], ActiveMints(jobs), TerminalByMint(jobs), input);
    if first.Some? {
      assert SweptFrom(input, jobs, first.value, i);
      SweptRowIsFresh(input, jobs, rows, first.value, i);
      assert after[first.value.id] in again;
    } else if mint in ActiveMints(jobs) {
      var j :| j in jobs && Active(j) && j.tokenMint == mint;
      if after[j.id] != j {
        var k: nat :| SweptFrom(input, jobs, after[j.id], k);
        SweptRowIsFresh(input, jobs, rows, after[j.id], k);
      }
      assert after[j.id] in again;
    } else if mint in input.backed && mint !in TerminalByMint(jobs) && mint in TerminalByMint(again) {
      var t := TerminalByMint(again)[mint];
      if !(t.id in rows && after[t.id] == rows[t.id]) {
        var k: nat :| SweptFrom(input, jobs, after[t.id], k);
        SweptRowIsFresh(input, jobs, rows, after[t.id], k);
      }
    }
  }

  /** A second sweep of the same wallet over the saved table finds nothing to do. */
  lemma SweepIsIdempotent(input: Input, jobs: seq<Row>, rows: Rows, again: seq<Row>, ids: seq<string>)
    requires KeyedById(rows) && IsListing(rows, jobs) && WellFormed(input, rows)
    requires IsListing(AfterSweep(input, jobs, rows), again) && |ids| == |input.holdings|
    ensures Sweep(input.(ids := ids), again) == []
  {
    var second := input.(ids := ids);
    SweepEffect(input, jobs, rows);
    if Sweep(second, again) != [] {
      var row := Sweep(second, again)[0];
      SweptOrigin(second, again, |input.holdings|, row);
      var i :| 0 <= i < |input.holdings| && SweptFrom(second, again, row, i);
      SecondSweepSkips(input, jobs, rows, again, ids, i);
      assert false;
    }
  }

  // ---- How many rows a mint can collect ----

  function IdsOf(rows: Rows, mint: string): set<string> {
    set id | id in rows && rows[id].tokenMint == mint
  }

  predicate ReusableRow(row: Row, mint: string) {
    row.tokenMint == mint && row.txSignature.None? && row.confirmedOutputAtomic.None? && !row.status.Confirmed?
  }

  /** A row the next sweep of the mint would keep or revive instead of adding one. */
  ghost predicate Reusable(rows: Rows, mint: string) {
    exists id :: id in rows && ReusableRow(rows[id], mint)
  }

  /** A processing that neither confirms the job nor leaves it signed or measured: a retry or a death. */
  predicate EndsUnsigned(before: Row, after: Row) {
    && Active(before) && before.txSignature.None? && before.confirmedOutputAtomic.None?
    && after.id == before.id && after.tokenMint == before.tokenMint
    && !after.status.Confirmed? && after.txSignature.None? && after.confirmedOutputAtomic.None?
  }

  /** The processor does exactly this to an unsigned job it neither sells nor confirms. */
  lemma UnsoldEndsUnsigned(now: int, dustUsd: real, r: Replies, job: Row)
    requires Active(job) && job.txSignature.None? && job.confirmedOutputAtomic.None?
    requires Process(now, dustUsd, r, job).sale.None?
    ensures forall w :: w in Process(now, dustUsd, r, job).writes ==> w.status.Confirmed? || EndsUnsigned(job, w)
  {
    ProcessKeepsJob(now, dustUsd, r, job);
  }

  datatype Event = OrphansSwept(input: Input, jobs: seq<Row>) | Processed(row: Row)

  ghost predicate Possible(rows: Rows, e: Event) {
    match e
    case OrphansSwept(input, jobs) => IsListing(rows, jobs) && WellFormed(input, rows)
    case Processed(row) => row.id in rows && EndsUnsigned(rows[row.id], row)
  }

  function Happen(rows: Rows, e: Event): Rows {
    match e
    case OrphansSwept(input, jobs) => if |input.ids| == |input.holdings| then AfterSweep(input, jobs, rows) else rows
    case Processed(row) => rows[row.id := row]
  }

  ghost predicate AllPossible(rows: Rows, events: seq<Event>)
    decreases |events|
  {
    events != [] ==> Possible(rows, events[0]) && AllPossible(Happen(rows, events[0]), events[1..])
  }

  function Outcome(rows: Rows, events: seq<Event>): Rows
    decreases |events|
  {
    if events == [] then rows else Outcome(Happen(rows, events[0]), events[1..])
  }

  lemma SweepKeepsReusable(input: Input, jobs: seq<Row>, rows: Rows, mint: string)
    requires KeyedById(rows) && IsListing(rows, jobs) && WellFormed(input, rows) && Reusable(rows, mint)
    ensures Reusable(AfterSweep(input, jobs, rows), mint)
    ensures forall row, i: nat :: SweptFrom(input, jobs, row, i) && row.tokenMint == mint ==> row.id in rows
  {
    var after := AfterSweep(input, jobs, rows);
    SweepEffect(input, jobs, rows);
    var id :| id in rows && ReusableRow(rows[id], mint);
    if after[id] != rows[id] {
      var i: nat :| SweptFrom(input, jobs, after[id], i);
      SweptRowIsFresh(input, jobs, rows, after[id], i);
    }
    assert ReusableRow(after[id], mint);
    forall row, i: nat | SweptFrom(input, jobs, row, i) && row.tokenMint == mint
      ensures row.id in rows
    {
      SweptRowIsFresh(input, jobs, rows, row, i);
    }
  }

  /** Once a mint gets a new row, every row swept for it is that row, and a revived one is of another mint. */
  lemma SweptAtMostOnce(input: Input, jobs: seq<Row>, rows: Rows, row: Row, i: nat, other: Row, k: nat)
    requires KeyedById(rows) && IsListing(rows, jobs) && WellFormed(input, rows)
    requires SweptFrom(input, jobs, row, i) && row.id !in rows && SweptFrom(input, jobs, other, k)
    ensures other.tokenMint == row.tokenMint ==> other == row
    ensures other.id in rows ==> rows[other.id].tokenMint == other.tokenMint != row.tokenMint
  {
    SweptRowIsFresh(input, jobs, rows, row, i);
    SweptRowIsFresh(input, jobs, rows, other, k);
    if other.tokenMint == row.tokenMint {
      assert i == k;
    }
  }

  lemma SweptIsReusable(input: Input, jobs: seq<Row>, rows: Rows, row: Row, i: nat)
    requires KeyedById(rows) && IsListing(rows, jobs) && WellFormed(input, rows) && SweptFrom(input, jobs, row, i)
    ensures Reusable(AfterSweep(input, jobs, rows), row.tokenMint)
  {
    SweepEffect(input, jobs, rows);
    SweptRowIsFresh(input, jobs, rows, row, i);
    assert ReusableRow(AfterSweep(input, jobs, rows)[row.id], row.tokenMint);
  }

  lemma SweepAddsOnlyIt(input: Input, jobs: seq<Row>, rows: Rows, row: Row, i: nat, id: string)
    requires KeyedById(rows) && IsListing(rows, jobs) && WellFormed(input, rows)
    requires SweptFrom(input, jobs, row, i) && row.id !in rows
    ensures id in IdsOf(AfterSweep(input, jobs, rows), row.tokenMint) <==>
            id in IdsOf(rows, row.tokenMint) || id == row.id
  {
    var after := AfterSweep(input, jobs, rows);
    SweepEffect(input, jobs, rows);
    if id in after && !(id in rows && after[id] == rows[id]) {
      var k: nat :| SweptFrom(input, jobs, after[id], k);
      SweptAtMostOnce(input, jobs, rows, row, i, after[id], k);
    }
  }

  lemma SweepAddsOne(input: Input, jobs: seq<Row>, rows: Rows, row: Row, i: nat)
    requires KeyedById(rows) && IsListing(rows, jobs) && WellFormed(input, rows)
    requires SweptFrom(input, jobs, row, i) && row.id !in rows
    ensures IdsOf(AfterSweep(input, jobs, rows), row.tokenMint) == IdsOf(rows, row.tokenMint) + {row.id}
  {
    forall id
      ensures id in IdsOf(AfterSweep(input, jobs, rows), row.tokenMint) <==>
              id in IdsOf(rows, row.tokenMint) + {row.id}
    {
      SweepAddsOnlyIt(input, jobs, rows, row, i, id);
    }
  }

  lemma SweepAddsNone(input: Input, jobs: seq<Row>, rows: Rows, mint: string)
    requires KeyedById(rows) && IsListing(rows, jobs) && WellFormed(input, rows)
    requires forall row, i: nat :: SweptFrom(input, jobs, row, i) && row.tokenMint == mint ==> row.id in rows
    ensures IdsOf(AfterSweep(input, jobs, rows), mint) == IdsOf(rows, mint)
  {
    var after := AfterSweep(input, jobs, rows);
    SweepEffect(input, jobs, rows);
    forall id | id in after
      ensures id in IdsOf(after, mint) <==> id in IdsOf(rows, mint)
    {
      if !(id in rows && after[id] == rows[id]) {
        var i: nat :| SweptFrom(input, jobs, after[id], i);
        SweptRowIsFresh(input, jobs, rows, after[id], i);
      }
    }
  }

  /** One event adds a row of the mint only when nothing can be reused, and then leaves one that can. */
  lemma EventGrowth(rows: Rows, e: Event, mint: string)
    requires KeyedById(rows) && Possible(rows, e)
    ensures KeyedById(Happen(rows, e))
    ensures Reusable(rows, mint) ==>
              Reusable(Happen(rows, e), mint) && IdsOf(Happen(rows, e), mint) == IdsOf(rows, mint)
    ensures IdsOf(Happen(rows, e), mint) == IdsOf(rows, mint) ||
            (Reusable(Happen(rows, e), mint) && |IdsOf(Happen(rows, e), mint)| == |IdsOf(rows, mint)| + 1)
  {
    var after := Happen(rows, e);
    match e {
      case Processed(row) =>
        if Reusable(rows, mint) {
          var id :| id in rows && ReusableRow(rows[id], mint);
          assert ReusableRow(after[id], mint);
        }
        assert IdsOf(after, mint) == IdsOf(rows, mint);
      case OrphansSwept(input, jobs) =>
        SweepEffect(input, jobs, rows);
        if Reusable(rows, mint) { SweepKeepsReusable(input, jobs, rows, mint); }
        if row, i: nat :| SweptFrom(input, jobs, row, i) && row.tokenMint == mint && row.id !in rows {
          SweepAddsOne(input, jobs, rows, row, i);
          SweptIsReusable(input, jobs, rows, row, i);
        } else {
          SweepAddsNone(input, jobs, rows, mint);
        }
    }
  }

  /** Sweeps and unsigned retries or deaths in any order: a mint collects at most one more row. */
  lemma {:induction false} RowsPerMintBounded(rows: Rows, events: seq<Event>, mint: string)
    requires KeyedById(rows) && AllPossible(rows, events)
    ensures |IdsOf(Outcome(rows, events), mint)| <= |IdsOf(rows, mint)| + 1
    ensures Reusable(rows, mint) ==> IdsOf(Outcome(rows, events), mint) == IdsOf(rows, mint)
    decreases |events|
  {
    if events == [] {
    } else {
      EventGrowth(rows, events[0], mint);
      RowsPerMintBounded(Happen(rows, events[0]), events[1..], mint);
    }
  }
}
