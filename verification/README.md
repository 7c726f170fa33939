# Prism, verified

A Dafny model of the stateful pieces of Prism, the liquidity agent for Solana, with
proofs of what they keep over whole runs. `dafny verify dfyconfig.toml` checks it all.

Every call into the outside world (chain, wallet, swap API, price providers, database,
clock, random draws, file-system faults, other processes) is a parameter, so a statement
for all parameters is a statement about every behaviour of that world.

## How the model is laid out

| Part | Files | Form |
|---|---|---|
| Settlement jobs, orphan sweep, group finalisation | `SettlementJobs`, `SettlementDecisions`, `SettlementStore`, `SettlementSweep`, `SettlementOrphans`, `SettlementLedger`, `SettlementCycle`, `SettlementUnsaved`, `SettlementCycles`, `SettlementResale`, `SettlementRetry`, `SettlementWallet`, `SettlementGroups`, `SettlementFinality` | one job's processing as a function of the replies; classes `JobTable` and `PositionBook` save rows step by step; runs as sequences of moves |
| Safety pause | `SafetyPause` | one cycle as a fold over its pools, on the engine's pause and the stored one; runs of cycles |
| Launcher lock | `LauncherLock`, `LockSafety`, `LockRuns`, `LauncherProgram` | a state machine over atomic file steps with one program counter per process; the launcher's own code as methods that perform those steps |
| Agent transport | `JsText`, `AcpFraming`, `AcpTransport`, `AcpOutcomes` | framing as functions on character sequences; class `Transport` |
| Environment file merge | `EnvLines`, `EnvText`, `EnvMerge`, `EnvSettings` | line level, character level, and the loops as methods |
| Circuit breaker, retry, RPC pool | `CircuitBreaker`, `RetryBackoff`, `RpcPool` | classes `Gate` and `Pool`; overlapping calls as events |
| Latency window | `LatencyWindow` | class `Window`, its validity indexed by the recorded history |
| Price waterfall | `PriceLayers`, `PriceAge`, `PriceService` | one mint's layers as functions; class `Service` with the three caches, tied to them mint by mint |
| Fee claims | `RevenueShare` | the split and the transfers as methods |
| Closed trades | `ClosedTrades`, `TradeUnits` | the drawdown loop and the grouping loop as methods |
| Install replacement | `InstallUpdate` | class `Disk`, where every step may fail |
| Candidate lifecycle | `CandidateLifecycle`, `CandidateBatch` | transitions as functions; histories of events |

`Prelude` holds the shared option type and small list helpers.

## What turned out different from the intent

- **Settlement.** A job is sold at most once only if the adapter can read swap statuses, a send that
  reaches the network is reported, and each reported signature is saved at least once. All three are
  needed: `BlindAdapterSellsTwice`, `UnreportedSendSellsTwice` (the send times out after reaching the
  network) and `LostSignatureSellsTwice` give the runs, and `HandledKeepsBooksExactly` says exactly when one
  processing keeps the books. After a lost broadcast a second sale is possible exactly when the row
  left behind is not a dead one with a signature or an output (`LostBroadcastSellsAgainExactly`).
- **Wallet clamp.** More of a mint is sold than the wallet holds exactly when a job of that mint is sold,
  asks for more than is left, and read no balance or one above what is left (`OverdrawsExactly` for
  a job, `PassOverdrawsExactly` for a pass). Both happen: a failed read does not clamp
  (`FailedReadOverdraws`), and a balance cached before a sale is read again after it when that sale's
  signature could not be saved (`StaleReadOverdraws`). A sale whose confirmation is awaited drops
  the cache (`CachedReadsSeeDebits`).
- **Finalisation.** A row missing from the pass, because its save failed, does not hold its group
  back (`UnsavedRowEscapes`): a position is closed too early exactly when the rows the pass knows
  are due and a stored one it does not know is unsettled (`ClosesTooEarlyExactly`).
- **Launcher lock.** For three or more launchers mutual exclusion fails (`ThirdLauncherBreaksExclusion`).
  It holds exactly when no exclusive create succeeds while a live holder's file sits in a backup
  path *or was given up by a restore that found the path taken*; forbidding only the first is
  not enough (`WindowsAreNotEnough`, five processes).
- **Framing.** A terminated line whose raw length, carriage return included, exceeds the buffer
  cap is truncated for some ways of cutting the stream; chunking is irrelevant exactly when
  every such line fits (`ChunkingIsIrrelevantExactly`).
- **Environment merge.** The values are stable under a second merge, the text is not: each
  merge adds one line feed (`MergeAgainAddsOneLine`).
- **Circuit breaker.** A call admitted before the breaker opened that ends during a trial lets a
  second trial in (`StragglerAdmitsSecondTrial`); `OneTrialExactly` is the exact condition.
- **Price caches.** When a later CoinGecko batch fails, prices cached by an earlier one stay
  cached but are not returned, and a mint nobody else prices is booked as missed as well: the
  price cache and the miss cache overlap (`DisjointExactly`), and callers see 0, then the price for a
  minute, then 0 again (`StrandedQuoteFlickers`).
- **Price age.** A price is not served for one cache lifetime of a minute only. A Helius answer is handed
  out again for five minutes and dated anew each time, and a price remembered with token metadata is
  cached anew when it is used, so an answer seven minutes old can be served (`BoundIsReached`), but
  none older (`ServedPriceIsRecent`). A quote of another provider never outlives the minute
  (`OlderThanALifetimeExactly`).
- **Install update.** When the old install's rename to its persistent name goes through and the
  listing or a removal after it does not, the rollback removes the new install and restores
  nothing; the old one is kept, but only under the persistent name (`UpdateFromBundle`, which
  says so by the steps that fail).
- **Lock release.** The file a release unlinks need not be the one it read. It is never another
  live holder's while there is at most one (`ReleaseUnlinksExactly`).
- **Trade units.** No missing outcome does not make a unit complete (`NothingMissingYetIncomplete`); it
  does exactly when the unit has its one leg, or one of each cohort (`CompleteExactly`).
- **Safety pause.** The settlement phase runs before the ordered thresholds, so an overdue
  settlement is reported ahead of a breached drawdown (`FreshPauseReason`). Drawdown is checked once
  for each pool that passes its entry gates, and a cycle without pools ends before the pause is armed:
  a drawdown pause outlives its cause exactly in a cycle where no pool reaches the check
  (`DrawdownPauseOutlivesExactly`), and a breach can go unanswered (`BreachPauses`). Settlements that cannot
  be saved store a pause over whatever is stored, even a core-data pause (`CorePauseStays`), and
  the engine learns of it only at its next reading; a check or the tail that arms or resolves
  another pause before that erases it (`NoteStandsExactly`, `NoteIsReadExactly`, `NoteIsForgotten`).

## Assumptions

- Settlement runs: the chain reports `failed` only for a transaction that can no longer land,
  new transactions have new signatures, new rows have new ids, and every listing of the rows
  succeeds (the source reads a failed one as an empty table). The results over good runs also take
  every broadcast to be reported and saved, and every status to be readable.
- Settlement cycles: `CycleIsRun` takes every save of a swept row to succeed, `UnsavedCycleIsRun` does
  not. Chain events fall between cycles; within one they change no decision, because each job is
  visited once.
- Lock: every acquisition has its own (pid, timestamp) pair; the lock found at the start
  names a dead process; pids are not reused.
- Transport: one generation of the agent process; a character stands for one UTF-16 unit.
- Prices: calls do not overlap; mints are base58 strings. `ServedPriceIsRecent` also takes token
  metadata with a price to be dated, the memo of Helius answers to keep its five minutes, and one
  request's clock readings to lie within a slack; `OlderThanALifetimeExactly` needs none of these.
- Safety pause: saving the pause row goes through; reading it back may fail.
- Fees: the two tokens of a pool differ; fees are whole atomic amounts; rates are finite.
- Install update: the backup's name, the persistent name and the two install directories differ
  as their construction makes them; a rename onto an existing directory fails.
- Money and prices are exact reals, times and atomic amounts integers.

## Model

| member | source | states |
|---|---|---|
| SettlementJobs.AtomicUsdExact | engine/autonomous-runtime.ts:326-335 | splitting an atomic amount into whole and fractional units loses nothing |
| SettlementJobs.ProcessKeepsJob | engine/autonomous-runtime.ts:789-840 | every row a processing saves is the same job: id, position, mint, amount, expiry and finalisation fields are untouched, whatever the world replies |
| SettlementJobs.SendsOnlyWhenSafe | engine/autonomous-runtime.ts:494-521 | a swap is broadcast only for a due job with no signature, or whose signature the chain reported failed (or when no status reader exists) |
| SettlementJobs.SellsWithinBalance | engine/autonomous-runtime.ts:531-548 | what is sold is positive, at most the job's amount and at most the balance read |
| SettlementJobs.ConfirmedIsComplete | engine/autonomous-runtime.ts:427-492 | every row saved as confirmed carries output, value and cost and no retry time |
| SettlementJobs.FinalRowsAreFixedPoints | engine/autonomous-runtime.ts:628-638 | confirmed and terminal rows come out unchanged with nothing saved or sent |
| SettlementJobs.TerminalExactlyAtExpiry | engine/autonomous-runtime.ts:354-370 | a failed attempt ends in terminal exactly when the failure is not transient and the job is at or past expiry, and otherwise in retryable; nothing was broadcast for it unless the send went unreported |
| SettlementDecisions.SoldExactly | engine/autonomous-runtime.ts:789-840 | a job is sold exactly when it is due, no earlier broadcast of it stands in the way, SOL is priced, something of another mint than SOL is left to sell, it is not dust - worth less than a positive cutoff, or without a price in a group with no real position - and every step up to the broadcast succeeds; what is sold is the job's amount or the balance read, whichever is less |
| SettlementDecisions.DustIsConfirmed | engine/autonomous-runtime.ts:555-604 | dust is confirmed without a sale: output the amount itself, its own value, no cost, and the note that fits |
| SettlementDecisions.SolIsConfirmed | engine/autonomous-runtime.ts:660-673 | a job in SOL is confirmed at its own amount and value without a sale |
| SettlementDecisions.NothingLeftEnds | engine/autonomous-runtime.ts:646-659 | a job of which the wallet holds nothing ends |
| SettlementDecisions.FailedStepIsRetried | engine/autonomous-runtime.ts:706-745 | a failing step before the broadcast saves nothing but a retry, with the first failing step's kind of failure |
| SettlementDecisions.UnvaluedIsRetried | engine/autonomous-runtime.ts:806-826 | failed prices, a SOL price that is not positive and failed decimals each save nothing but a retry |
| SettlementDecisions.MeasuredSaleIsBooked | engine/autonomous-runtime.ts:674-703 | a sale that is saved, confirmed and measured is booked as confirmed: the growth of the SOL balance, its value at the SOL price, and as cost the input's value less the output's, never negative and zero without a price |
| SettlementDecisions.UnmeasuredSaleIsParked | engine/autonomous-runtime.ts:764-787 | a reported sale that cannot be measured waits for an operator under its signature with output zero |
| SettlementDecisions.UnreportedSaleIsRetried | engine/autonomous-runtime.ts:764-787 | a send that went unreported leaves the mark and a retry |
| SettlementDecisions.LandedIsConfirmed | engine/autonomous-runtime.ts:427-458 | a landed transaction with positive evidence is booked at the evidence's output and fee, each valued at the SOL price |
| SettlementDecisions.RecordedIsConfirmed | engine/autonomous-runtime.ts:460-492 | a landed transaction whose figures are on record is confirmed with them |
| SettlementDecisions.LandedIsParked | engine/autonomous-runtime.ts:427-492 | a landed transaction without evidence, or without a SOL price for it, waits for an operator |
| SettlementDecisions.PendingIsWatched | engine/autonomous-runtime.ts:408-424 | a transaction processed, or not seen before expiry, keeps the job submitted with a next look scheduled; not seen at or after expiry ends it; nothing is sent |
| SettlementStore.JobTable.QuoteAndSubmitSettlement | engine/autonomous-runtime.ts:706-787 | the step-by-step code, saving the prepared and submitted rows as it goes, has exactly the effect on the table and the sale that the processing function states |
| SettlementStore.JobTable.ProcessOneSettlementJob | engine/autonomous-runtime.ts:789-840 | one job's visit leaves the table, the returned row and the sale of the processing function |
| SettlementStore.JobTable.ProcessJobs | engine/autonomous-runtime.ts:901-932 | the pass over all jobs is the fold of single visits, each on the table the earlier ones left |
| SettlementSweep.SweepOrphanSettlements | engine/autonomous-runtime.ts:1077-1146 | the loop over holdings returns the rows the per-holding decision gives, in order |
| SettlementOrphans.SweptExactly | engine/autonomous-runtime.ts:983-1075 | the sweep makes a job for a holding exactly when it is not SOL, its amount is positive, no listed job of the mint is under way, no open position backs the mint unless a dead unsigned job of it is listed, and the cutoff is not positive or the holding has a positive price and is worth the cutoff |
| SettlementOrphans.SweptRowSays | engine/autonomous-runtime.ts:1024-1074 | the job is the last dead one of the mint with one more attempt, or a new one under the drawn id with no attempts and the position named after it; for the amount held, due at once, with the full time to live |
| SettlementOrphans.SweptMintsAreHeld | engine/autonomous-runtime.ts:1077-1146 | at most one job for each holding and none for any other mint |
| SettlementSweep.SweepEffect | engine/autonomous-runtime.ts:1000-1075 | saving a sweep adds new pending rows and revives dead unsigned ones; every other row stays as it was |
| SettlementSweep.SweptRowIsFresh | engine/autonomous-runtime.ts:967-981 | a swept row is active, unsigned and of the holding's mint, which had no active job; it reuses a row only if that row is terminal without signature or output |
| SettlementSweep.SweepKeepsSingleOwner | engine/autonomous-runtime.ts:1077-1146 | if each mint had at most one active job before a sweep, it has after |
| SettlementSweep.SweepIsIdempotent | engine/autonomous-runtime.ts:1077-1146 | after saving a sweep, a second one with the same wallet, prices and time returns nothing |
| SettlementSweep.RowsPerMintBounded | engine/autonomous-runtime.ts:967-1075 | over any order of sweeps and unsigned retries or deaths, the rows of a mint grow by at most one |
| SettlementSweep.UnsoldEndsUnsigned | engine/autonomous-runtime.ts:706-840 | a processing of an unsigned job that sells nothing and does not confirm leaves it unsigned, as the row bound assumes |
| SettlementLedger.HandledKeepsBooksExactly | engine/autonomous-runtime.ts:706-840 | a processing keeps "the row carries the last signature and all earlier ones are dropped" if and only if a broadcast is reported, its signature saved, and what was sent before is dropped |
| SettlementLedger.NeverSoldTwice | engine/autonomous-runtime.ts:494-521 | over any interleaving of visits, sweeps, new jobs, finalisations and chain events, with every broadcast reported and saved and every status readable, at most one transaction of a job lands or still can |
| SettlementLedger.SignedTerminalStays | engine/autonomous-runtime.ts:967-981 | a terminal row with a signature stays terminal under that signature, and nothing more is broadcast for it, in any run; a finalisation may stamp it |
| SettlementLedger.BoundariesStayTidy | engine/autonomous-runtime.ts:789-840 | while final saves succeed, no row rests prepared without a signature or confirmed without its figures |
| SettlementLedger.BlindAdapterSellsTwice | engine/autonomous-runtime.ts:494-521 | without a status reader a job whose transaction landed is sold again |
| SettlementLedger.LostSignatureSellsTwice | engine/autonomous-runtime.ts:798-802 | when neither save of a signature succeeds, two visits later the job is sold again |
| SettlementLedger.UnreportedSendSellsTwice | engine/adapter-service.ts:3477-3483 | when a send reaches the network but fails or times out for the caller, the next due visit sells the job again |
| SettlementResale.LostBroadcastSellsAgainExactly | engine/autonomous-runtime.ts:789-840 | after any broadcast that went unreported, or whose signature neither save kept, some later run in which everything is reported, saved and readable sells the job again exactly when the row left behind is not terminal with a signature or an output |
| SettlementResale.BuriedIsNeverSold | engine/autonomous-runtime.ts:967-981 | a terminal row with a signature or a recorded output is never sold again by any such run |
| SettlementCycle.PassIsRun | engine/autonomous-runtime.ts:901-932 | a pass leaves the table of the run of its moves and touches no other row |
| SettlementCycle.PassSalesAreRun | engine/autonomous-runtime.ts:901-932 | the sales of a pass are exactly the broadcasts of that run, job by job in order |
| SettlementCycle.CycleIsRun | engine/program.ts:8383-8420 | a whole cycle whose swept rows are all saved - list, sweep, save, process the listed and the swept rows - is a run of the machine |
| SettlementUnsaved.RestrictedSweep | engine/autonomous-runtime.ts:1077-1146 | sweeping only some of the holdings yields exactly their rows of the whole sweep |
| SettlementUnsaved.UnsavedCycleIsRun | engine/program.ts:8396-8420 | a cycle that fails to save any of its swept rows, and processes them all the same, is the run of a sweep over the holdings whose row was saved by the sweep or by its processing |
| SettlementCycles.LifeIsRun | engine/program.ts:8383-8420 | cycle after cycle, with jobs enqueued, groups finalised and transactions decided in between and any swept rows unsaved: the table is that of one run, and its broadcasts are what the cycles sold, job by job in order |
| SettlementCycles.CyclesNeverSellTwice | engine/autonomous-runtime.ts:494-521 | of all the transactions the cycles of such a life sold a job by, with every broadcast reported and saved and every status readable, at most one lands or still can |
| SettlementRetry.DelayBounds | engine/autonomous-runtime.ts:181-189 | the backoff doubles from one second and is capped at thirty minutes from the twelfth attempt on |
| SettlementRetry.FailureGaps | engine/autonomous-runtime.ts:628-638 | consecutive failed attempts of a job, the one that ends it included, are at least the scheduled delay apart |
| SettlementRetry.RetryBudget | engine/autonomous-runtime.ts:181-189 | over its whole life, the failure that ends it included, a job that only fails does so at most 12 + T/1,800,000 times within any T ms |
| SettlementWallet.PassNeverOverdraws | engine/autonomous-runtime.ts:531-548 | across all jobs of a pass, repeated mints included, what is sold of a mint and what is left add up to its opening balance, when reads succeed and see earlier debits |
| SettlementWallet.OverdrawsExactly | engine/autonomous-runtime.ts:531-548 | whatever was read, a job sells more than the wallet holds exactly when it is sold, asks for more than there is, and read nothing or more than there is |
| SettlementWallet.PassOverdrawsExactly | engine/autonomous-runtime.ts:531-548 | over a pass with any readings, repeated mints included, more of a mint is sold than the opening balance exactly when some job of it is sold, asks for more than is left then, and read nothing or more than that |
| SettlementWallet.TrueReadsOverdrawExactly | engine/autonomous-runtime.ts:531-548 | when every reading that succeeds is true, that is exactly when some job of the mint is sold unread and asks for more than is left |
| SettlementWallet.CachedReadsSeeDebits | engine/adapter-service.ts:2799-2827 | with readings fresh or from the balance cache, every job reads what the earlier sales left, as long as every sale of the pass drops the cache, which one with an unsaved or unreported signature does not |
| SettlementWallet.StaleReadOverdraws | engine/adapter-service.ts:3477-3486 | an instance: two jobs of ten, ten in the wallet, both reads succeed from the cache, twenty are sold |
| SettlementWallet.FailedReadOverdraws | engine/autonomous-runtime.ts:531-548 | an instance: with a failed balance read one job sells more of a mint than the wallet holds |
| SettlementGroups.PositionBook.FinalizeSettlementGroups | engine/autonomous-runtime.ts:842-899 | the loop over groups in first-seen order has exactly the effect of closing each due group once |
| SettlementGroups.FinalizeEffect | engine/autonomous-runtime.ts:842-899 | every row and position of a closed group is stamped with one result, and every other row and position is unchanged |
| SettlementGroups.BookedFromTotals | engine/autonomous-runtime.ts:850-893 | a position is closed exactly when one of its processed rows is open and all are confirmed with their figures; a missing result is the profit model's from the outputs and the costs of all its rows, each counted once |
| SettlementGroups.ClosedExactlyWhenSettled | engine/autonomous-runtime.ts:842-899 | a fully persisted group is closed exactly when every row is confirmed and complete and some row is still open |
| SettlementGroups.BookedPnlIsNeverClobbered | engine/autonomous-runtime.ts:842-899 | a position's realised result that is already set is passed through unchanged |
| SettlementGroups.FinalizedOnce | engine/autonomous-runtime.ts:842-899 | a group whose rows are all stamped is not finalised by a pass over the table as it then is |
| SettlementFinality.ClosedForGood | engine/autonomous-runtime.ts:842-932 | over any life of cycles, failed saves of swept rows included, a position whose rows are all stamped is never due again while none of its rows is enqueued |
| SettlementFinality.FinalizedForGood | engine/autonomous-runtime.ts:842-932 | finalising a fully persisted group closes it for good in that sense |
| SettlementGroups.ClosesTooEarlyExactly | engine/autonomous-runtime.ts:842-899 | a pass closes an open position while a stored row of it is unsettled exactly when the rows it knows are due and an unsettled stored row is not among them |
| SettlementGroups.UnsavedRowEscapes | engine/autonomous-runtime.ts:842-899 | an instance: a row missing from the pass does not keep its group open |
| SafetyPause.OverdueExactly | engine/autonomous-runtime.ts:202-216 | the oldest stuck age exceeds the limit exactly when some unfinished job without a future retry is older than it |
| SafetyPause.OnlyLastCheckDecides | engine/program.ts:15046-15109 | over any pools of a cycle, day rollovers included, the last one that reached the drawdown check alone decides about the engine's drawdown pause, any other pause is untouched, and the failure counter is that of all executions in order |
| SafetyPause.FreshPauseReason | engine/autonomous-runtime.ts:56-74 | the reason a cycle that began unpaused ends with: an overdue settlement, over a stored note of unsaved ones, ahead of the drawdown computed last; nothing more without pools |
| SafetyPause.DrawdownPauseOutlivesExactly | engine/program.ts:15046-15109 | a drawdown pause outlives its cause exactly when it was active, it was neither resumed nor replaced at the reading back, and no pool of the cycle reached the check |
| SafetyPause.DrawdownPauseStaysExactly | engine/program.ts:15046-15109 | a drawdown pause nobody resumes lasts through a run exactly while no cycle's last check is below the limit and no cycle reads a note of unsaved settlements that still stands; cycles in which no pool reaches the check never end it |
| SafetyPause.PauseHasACause | engine/autonomous-runtime.ts:243-257 | exactly which pauses a cycle ends with although the engine sees no cause: a drawdown pause no pool looked at, a core-data pause nobody resumed, an execution pause whose counter was at the limit at the top, and any pause for unsaved settlements |
| SafetyPause.BreachPauses | engine/program.ts:8707-8726 | a breach goes unanswered exactly in a cycle without pools whose top leaves no pause; every other cycle that observes one ends paused |
| SafetyPause.ExecutionPauseClearsExactly | engine/autonomous-runtime.ts:129-146 | an execution pause that is read back is cleared exactly when its limit is off, the mode is shadow, or the counter is below the limit |
| SafetyPause.NoToggle | engine/program.ts:8457-8475 | an execution pause cleared at the top of a cycle returns only if an execution fails in that cycle |
| SafetyPause.QuietCycleClears | engine/autonomous-runtime.ts:98-103 | after a quiet cycle, one without pools included, an execution pause is cleared at the top of the next, and returns only after as many trailing failures as the limit |
| SafetyPause.CorePauseStays | engine/program.ts:8446-8448 | a core-data pause nobody resumes lasts through every run, replaced by the one for unsaved settlements exactly when such a save failed before a cycle that read the stored pause |
| SafetyPause.UnsavedPauseStays | engine/program.ts:3415-3432 | a pause for unsaved settlements lasts through every run until an operator resumes it |
| SafetyPause.NoteStandsExactly | engine/program.ts:2805-2880 | a cycle ends with a note of unsaved settlements stored exactly when one of its own or an earlier one was not overwritten since, by a check that arms or resolves or by the tail |
| SafetyPause.NoteIsReadExactly | engine/program.ts:8426-8449 | a stored note pauses the next cycle exactly when it is read unresolved and the settlement phase, going by the engine's own pause, has not just put another over it |
| SafetyPause.NoteIsForgotten | engine/program.ts:15085-15104 | an instance: an exit cannot save its settlements, a later pool breaches the drawdown limit, and the stored pause for it is gone unread |
| SafetyPause.RunKeepsCoherent | engine/program.ts:8426-8449 | over any run the stored pause is the engine's, resolved, or a note of unsaved settlements |
| LockSafety.StepKeepsExclusion | cli/lockfile.ts:229-286 | from a reachable state, one step keeps at most one live holder if and only if it does not create over a live lock that was moved aside or given up |
| LockSafety.ExclusionCondition | cli/lockfile.ts:137-286 | N contenders: a run never has two live holders exactly when no exclusive create in it succeeds while a live holder's file is in a backup path or was given up |
| LockSafety.TwoContendersExclude | cli/lockfile.ts:137-286 | two contenders, from any reachable state, any interleaving, crashes and releases: never two live holders |
| LockSafety.TwoLaunchersExclude | cli/lockfile.ts:260-286 | the same from any initial stale, unwritten or missing lock |
| LockRuns.AloneTakesOver | cli/lockfile.ts:229-258 | a launcher alone takes over a readable lock of a dead process |
| LockRuns.AloneReleases | cli/lockfile.ts:288-300 | a lone holder that releases leaves the lock path vacant |
| LockRuns.ThirdLauncherBreaksExclusion | cli/lockfile.ts:168-188 | a run in which a third launcher creates inside the restore window and two live processes hold the lock |
| LockRuns.WindowsAreNotEnough | cli/lockfile.ts:168-188 | a run of five processes without any create in a backup window in which two live processes hold the lock |
| LauncherProgram.LockDirectory.ReplaceStaleLock | cli/lockfile.ts:229-258 | rename aside, check the moved copy, create or restore: returns true exactly with the process at its holding point, every step one of the machine's |
| LauncherProgram.LockDirectory.RestoreDisplacedLock | cli/lockfile.ts:168-188 | the hard link puts the moved file back exactly when the path is vacant at that step, and clobbers nothing otherwise; the backup goes, and the launcher gives up |
| LauncherProgram.LockDirectory.TryAtomicCreate | cli/lockfile.ts:137-160 | exclusive create, then the write, with the reread on an existing path |
| LauncherProgram.LockDirectory.AcquireLock | cli/lockfile.ts:260-286 | whatever the others do between its file operations and whichever operation fails, a launcher that returns with the lock is its only live holder, unless some create in the history succeeded over a displaced or lost live lock |
| LauncherProgram.LockDirectory.ReleaseLock | cli/lockfile.ts:288-300 | the path is unlinked exactly when the read named this process, whatever it names by then; in an exclusive run that is never another live holder's file |
| LockSafety.ReleaseUnlinksExactly | cli/lockfile.ts:288-300 | a release's unlink removes its own file unless that was moved aside or given up since the read, and never the file of another live holder while there is at most one |
| AcpFraming.SplitConcat | engine/acp-transport.ts:246-275 | splitting in two steps, carrying the remainder over, is splitting once |
| AcpFraming.SplitFirst | engine/acp-transport.ts:246-251 | each line is the text before a line feed, less a carriage return right before it; text without a line feed is left over whole |
| AcpFraming.FeedAllIsSplit | engine/acp-transport.ts:246-275 | from a buffer holding what came before, chunk by chunk parsing yields the lines and capped remainder of one split, while every terminated line fits |
| AcpFraming.OversizedLineDiffers | engine/acp-transport.ts:246-275 | when some terminated line does not fit, some cut changes the lines handed on |
| AcpFraming.ChunkingIsIrrelevantExactly | engine/acp-transport.ts:246-275 | every way of cutting a stream gives the same lines and buffer if and only if every terminated line, carriage return included, fits the cap |
| AcpTransport.ChunksDoNotMatter | engine/acp-transport.ts:246-343 | however the output is cut, and whatever partial line is left in the buffer before it, the transport ends in one state: the same requests settled in order, the same reply text, the same buffer |
| AcpTransport.ReplyIsCappedConcat | engine/acp-transport.ts:337-343 | over any run of data, requests, timeouts, cancellations, closes and resets the reply text is the first 64 KiB of the reply chunks since the last reset |
| AcpTransport.PromptReply | engine/acp-transport.ts:337-343 | from any state a run can reach, a partial line in the buffer included, and with any other events among the data, a prompt's raw reply is the first 64 KiB of the reply chunks in the lines the data completes, for every chunking |
| AcpTransport.ExactlyOnce | engine/acp-transport.ts:296-411 | over any run an issued request is pending or settled exactly once, and the timers running are exactly those of the pending requests, so none fires for a settled one |
| AcpTransport.CloseSettlesAll | engine/acp-transport.ts:170-181 | after the process closes, every request ever issued has been settled exactly once and none is pending |
| AcpOutcomes.RequestEnds | engine/acp-transport.ts:296-411 | how every request of every run ends, told from the events alone: failed if it could not be written, else by the first of a response in the completed lines (rejected exactly with an error), its timer, its cancellation or a close; still pending if none came |
| AcpOutcomes.LinesDecide | engine/acp-transport.ts:296-317 | over lines, a pending request is settled by the first response that carries its id, and every other request stands as it stood |
| AcpOutcomes.OutcomeHasACause | engine/acp-transport.ts:296-411 | a waiting request resolves only by a response without an error, is rejected only by one with an error or a close, and times out or is cancelled only by its own timer or cancellation |
| AcpOutcomes.SettledForGood | engine/acp-transport.ts:296-411 | a settled request keeps its outcome for the rest of the run |
| AcpOutcomes.RefusedExactly | engine/acp-transport.ts:287-294 | over any run exactly the messages with both a method and an id are refused, each once, in order |
| AcpTransport.Transport.OnData | engine/acp-transport.ts:246-275 | the method on the class's fields has exactly the effect of receiving the chunk |
| AcpTransport.Transport.SendRequest | engine/acp-transport.ts:364-410 | a new id enters the pending table, and leaves it settled when the write fails |
| AcpTransport.Transport.FireTimer | engine/acp-transport.ts:364-410 | the callback, which settles without looking at the table, has exactly the effect of a timeout |
| EnvText.JoinSplit | cli/env-merge.ts:17-27 | joining the lines of a text gives the text back |
| EnvText.SplitJoin | cli/env-merge.ts:17-27 | splitting joined lines gives the lines back when none holds a line feed |
| EnvText.PrintParse | cli/env-merge.ts:17-27 | parsing printed lines gives the same lines, and one empty line more |
| EnvMerge.MergeExistingLines | cli/env-merge.ts:53-70 | the loop over existing lines replaces exactly the managed ones that do not keep the user's value |
| EnvMerge.AppendMissingManagedKeys | cli/env-merge.ts:79-89 | the missing settings follow under the banner, in managed order, and nothing when none is missing |
| EnvMerge.Merge | cli/env-merge.ts:91-96 | the loops together compute the merged text |
| EnvMerge.MergeMeaning | cli/env-merge.ts:28-96 | the values read back from the merged text are, for a managed key, the managed value unless it is empty and the user's is not, and the user's value for every other key |
| EnvMerge.UnmanagedLinesSurvive | cli/env-merge.ts:53-70 | every line of the user's that is not managed is in the merged text verbatim and in place |
| EnvMerge.MergeAgainKeepsValues | cli/env-merge.ts:91-96 | merging the same settings again leaves the value map unchanged |
| EnvMerge.MergeAgainAddsOneLine | cli/env-merge.ts:91-96 | with distinct managed keys, merging again changes the text by exactly one added line feed |
| EnvSettings.ParseLineExactly | cli/env-merge.ts:17-26 | a line parses to a key and a value exactly when they stand on the two sides of its first equals sign with white space around them, and the key does not start a comment |
| EnvSettings.KeylessExactly | cli/env-merge.ts:17-26 | a line sets nothing exactly when its first non-blank character is "#" or it has no equals sign |
| EnvSettings.ManagedLineIs | cli/env-merge.ts:53-70 | a line that sets a managed key is replaced by the wizard's last line for it, verbatim, except that it stays verbatim when the wizard's value is empty and the user's last value is not |
| EnvSettings.OtherLineIs | cli/env-merge.ts:53-70 | a comment, a line without equals sign and a line for an unmanaged key stay verbatim in place |
| EnvSettings.AddedLinesAre | cli/env-merge.ts:79-96 | after the existing lines come the managed lines that set keys the file did not set, in order, under an empty line and the comment, or nothing when there are none, and one empty line |
| CircuitBreaker.BreakerRefinesHistory | engine/adapter-retry.ts:345-417 | over any run of overlapping calls, polls and resets, the counter is the trailing run of counted failures and the breaker is closed exactly while it is below the threshold |
| CircuitBreaker.FreshRefinesHistory | engine/adapter-retry.ts:345-417 | from a new breaker, over any run, the counter is the failures since the last success or reset and the breaker is closed exactly below the threshold |
| CircuitBreaker.OpensExactly | engine/adapter-retry.ts:394-408 | a closed breaker is opened, as of that time, exactly by a counted failure that reaches the threshold |
| CircuitBreaker.OpenRefuses | engine/adapter-retry.ts:345-380 | an open breaker admits no call until the reset timeout after it opened, whatever other calls do short of succeeding |
| CircuitBreaker.OpenAdmitsExactly | engine/adapter-retry.ts:345-380 | an open breaker with no trial under way admits a call exactly from the reset timeout on, as a trial |
| CircuitBreaker.OneTrialExactly | engine/adapter-retry.ts:355-392 | at most one trial is ever in flight exactly when no call reaches the half-open breaker while a trial disturbed by another call's end or a reset is in flight |
| CircuitBreaker.OrderlyRunsOneTrial | engine/adapter-retry.ts:355-392 | with no normal call in flight at half-open and no reset during a trial, at most one trial runs, and alone |
| CircuitBreaker.StragglerAdmitsSecondTrial | engine/adapter-retry.ts:386-390 | a run in which a late call's end admits a second trial |
| CircuitBreaker.Gate.Begin | engine/adapter-retry.ts:355-380 | admission on the fields is the admission of the state, refusing open and busy half-open breakers |
| CircuitBreaker.Gate.Conclude | engine/adapter-retry.ts:380-408 | the end of a call updates the counter, the mode and the opening time as stated, and always lowers the flag |
| RetryBackoff.RetryEndsExactly | engine/adapter-retry.ts:280-315 | a retried call ends exactly at the first attempt that succeeds, fails for good or is the last allowed, with that attempt's outcome and one wait before each retry |
| RetryBackoff.AttemptsAreBounded | engine/adapter-retry.ts:290-300 | at most maxRetries retries, and a reported failure is final or out of retries |
| RetryBackoff.WaitsAreBounded | engine/adapter-retry.ts:294-312 | the i-th wait is at least the base delay of the failure's kind, rate-limited or not, doubled i times up to the cap, and at least the server's retry-after; it is at most half as much again unless it is the retry-after; without a retry-after it is the capped delay and half the drawn part of it, rounded down |
| RetryBackoff.WaitsGrow | engine/adapter-retry.ts:294-312 | for the same failure a later wait is at least twice the earlier floor or the cap, so without a retry-after it is at the cap or longer than the earlier wait by a third, whatever the draws |
| RpcPool.CallVisitsEachOnce | engine/adapter-service.ts:2052-2094 | from any cursor one call visits pairwise different endpoints, at most all of them |
| RpcPool.TurnExactly | engine/adapter-service.ts:2056-2073 | one endpoint's turn: whether it is contacted, by its breaker's mode, opening time and trial flag; and the breaker after a refusal, a success, a network error and any other error |
| RpcPool.FailsOnlyAfterAll | engine/adapter-service.ts:2075-2094 | a call fails with a network error only after every endpoint refused it or failed with one |
| RpcPool.SucceedsExactlyWhenSomeEndpointDoes | engine/adapter-service.ts:2075-2094 | when the endpoints that would be contacted fail only with network errors, the call succeeds exactly when some endpoint's breaker lets it in and its request succeeds |
| RpcPool.OnlyVisitedBreakersMove | engine/adapter-service.ts:2056-2073 | each visited endpoint's breaker took exactly one turn and every other breaker is unchanged |
| RpcPool.StartsTakeTurns | engine/adapter-service.ts:2052-2054 | any n calls in a row start at n different endpoints |
| RpcPool.StartsAreSpaced | engine/adapter-service.ts:2025-2032 | whatever the clock reads, the j-th paced start is at least (j - i) intervals after the i-th |
| RpcPool.StartsAreEarliest | engine/adapter-service.ts:2025-2032 | a paced request starts at once or exactly one interval after the one before |
| RpcPool.Pool.RpcCall | engine/adapter-service.ts:2052-2094 | the method moves the cursor, paces every turn and has the outcome, visits and breakers of the rotation |
| LatencyWindow.EvictKeepsLongestSuffix | engine/agent-service.ts:77-87 | with nondecreasing times eviction keeps the longest suffix that is fresh and within the window |
| LatencyWindow.NearestRank | engine/agent-service.ts:91-111 | the 95th percentile is at or over the threshold exactly when at least floor(n/20) + 1 samples are slow |
| LatencyWindow.SkipByCounts | engine/agent-service.ts:91-111 | skipping is decided by the sample count and the slow count alone |
| LatencyWindow.DefaultGate | engine/agent-service.ts:55-70 | with default sizes a prompt is skipped exactly with five samples and three slow ones |
| LatencyWindow.GateUnlatches | engine/agent-service.ts:77-111 | with no new records skipping ends once the samples have aged out |
| LatencyWindow.Window.ShouldSkip | engine/agent-service.ts:91-111 | the decision over the evicted samples; while the clock does not run backwards, over everything ever recorded, evicted once |
| LatencyWindow.Window.Record | engine/agent-service.ts:72-75 | recording appends and evicts; while the clock does not run backwards the samples stay what one eviction of everything ever recorded leaves |
| PriceLayers.NoFabricatedPrice | engine/adapter-service.ts:2700-2787 | over any history of requests with and without the fallback, a price given without it is zero or was supplied by a provider or token metadata |
| PriceLayers.FallbackLeavesNoTrace | engine/adapter-service.ts:2684-2698 | the caches after any history are those of the same history with every request made without the fallback |
| PriceLayers.FallbackOnlyWhenAllMiss | engine/adapter-service.ts:2684-2698 | with the fallback the only other value is the table's own, and any different value is what a request without it would give |
| PriceLayers.PricedExactly | engine/adapter-service.ts:2614-2787 | without the fallback a mint gets a real price exactly when the fresh cache, fresh metadata, or, no recent miss standing, some provider's surviving quote resolves it |
| PriceAge.OlderThanALifetimeExactly | engine/adapter-service.ts:1528-1547 | over any history, a price served from the cache was given by its provider more than one lifetime before exactly when it was stored from metadata or from the Helius memo and was then too old for the time it has been cached since; so never for another provider's quote |
| PriceAge.SupplyTimeIsKnown | engine/adapter-service.ts:2286-2349 | every cached price was given by its provider at one time, in some step of the history |
| PriceAge.ServedPriceIsRecent | engine/adapter-service.ts:1528-1547 | over any timely history, clocks running backwards included, a price served from the cache was given at most two lifetimes, the memo's five minutes and the slack before, one served from metadata at most one lifetime and the memo's |
| PriceAge.BoundIsReached | engine/adapter-service.ts:1541-1543 | a timely history that serves an answer when it is two lifetimes and the memo's five minutes old |
| PriceLayers.DisjointExactly | engine/adapter-service.ts:2590-2611 | one request keeps the price and miss caches disjoint exactly when it strands no quote cached before a failed CoinGecko batch |
| PriceLayers.DisjointUnlessStranded | engine/adapter-service.ts:2464-2477 | over any history in which no quote is stranded the caches stay disjoint |
| PriceLayers.FirstStrandedBreaks | engine/adapter-service.ts:2590-2611 | the first stranded quote of a history does make them overlap |
| PriceLayers.StrandedQuoteFlickers | engine/adapter-service.ts:2590-2698 | a history in which callers are told 0, then the stranded price for a minute, then 0 again unasked |
| PriceService.Service.FetchTokenPrices | engine/adapter-service.ts:2700-2787 | the stateful request prices exactly the requested mints, each from its own history, and without the fallback only with zero or supplied prices |
| PriceService.JupiterExactly | engine/adapter-service.ts:2527-2552 | the primary host's answer counts when it quotes any mint asked for, the lite host's only when the primary answered without one, neither when the primary cannot be reached |
| PriceService.Service.MissStandsExactly | engine/adapter-service.ts:2614-2655 | a known miss stands for the miss time of its kind, shorter for a major, and is priced by the fallback or as zero |
| PriceService.Service.AskedOnlyIf | engine/adapter-service.ts:2554-2575 | spot prices count only for majors, Helius only with a key |
| PriceService.Service.FetchLayers | engine/adapter-service.ts:2614-2787 | walking the layers over all mints answers and updates each mint as the one-mint waterfall does, asking each provider only for what is still missing |
| PriceService.Service.ResolveCachedPrices | engine/adapter-service.ts:2614-2655 | the cached layers, mint by mint, and the list of what is still missing |
| PriceService.Service.FetchGecko | engine/adapter-service.ts:2575-2611 | a failing batch discards every answer but not what earlier batches cached |
| PriceService.Service.ApplyFallbackForUnresolved | engine/adapter-service.ts:2684-2698 | exactly the unresolved mints are booked as missed and priced from the fallback or as zero |
| PriceService.MergeProviderPrices | engine/adapter-service.ts:2659-2680 | the provider's prices are merged and exactly the mints it did not resolve remain |
| RevenueShare.CalculateRevenueShare | engine/adapter-service.ts:1189-1241 | each leg: the platform fee and the operator part are the rounded-down fractions, net plus platform is the fee, and a transfer is due only to a separate fee wallet |
| RevenueShare.PartsAreWithin | engine/adapter-service.ts:1189-1241 | operator part at most platform fee at most fee, and nothing is negative |
| RevenueShare.BothLegs | engine/adapter-service.ts:4037-4067 | the instructions move each leg's own amount and nothing else, and carried out in order none meets a missing or an existing account |
| RevenueShare.BuildPlatformTransferInstructions | engine/adapter-service.ts:4022-4085 | the loop over the legs yields those instructions, and zero actual fees when nothing is transferred |
| RevenueShare.SettleRevenueShare | engine/adapter-service.ts:4087-4137 | in each case what a leg is charged is what the operator is credited with plus what is transferred, the transfers are the ones due, and nothing is charged unless something is transferred or the operator is the fee wallet |
| RevenueShare.SplitClaim | engine/adapter-service.ts:5360-5396 | in every branch each claimed leg equals net plus operator part plus what is transferred; only a separate fee wallet is paid, never more than the rate |
| ClosedTrades.ByExitIsStableSort | cli/portfolio.ts:403-405 | exit order is sorted, a permutation, and keeps ties in ledger order |
| ClosedTrades.StableOrderIsUnique | cli/portfolio.ts:403-405 | no other order is sorted and keeps ties |
| ClosedTrades.NetIsGross | cli/portfolio.ts:398-402 | net is gross win plus gross loss, each with its sign and zero only without such trades |
| ClosedTrades.MaxDrawdown | cli/portfolio.ts:406-413 | the one-pass loop returns the largest fall between any earlier and later point of the running result |
| ClosedTrades.ComputeClosedTradeStats | cli/portfolio.ts:372-428 | counts and missing outcomes add up, averages times counts make up the net, the profit factor exceeds one exactly when the net is positive, and the drawdown in exit order lies between net loss and gross loss |
| TradeUnits.GroupClosedTradeUnits | cli/portfolio.ts:554-570 | one unit for each key, distinct, non-empty, built from exactly the positions with that key in ledger order |
| TradeUnits.UnitKeyExactly | cli/portfolio.ts:454-460 | a position belongs to the unit its pair id names, and without a pair id to its own |
| TradeUnits.MissingExactly | cli/portfolio.ts:518-546 | the missing outcomes are two, or one for an unjoined unit, less the known ones, never below zero |
| TradeUnits.UnitsPartitionPositions | cli/portfolio.ts:554-570 | for any quantity, the sums over the legs of distinct covering units add up to the sum over all positions |
| TradeUnits.GroupingConserves | cli/portfolio.ts:518-570 | leg counts and deployed capital add up to the ledger, and when every unit is complete the nets add up to the statistics' net |
| TradeUnits.CompleteUnit | cli/portfolio.ts:505-546 | a unit reports a net exactly when complete, and then nothing is missing and the net is the sum of its legs; its expectancy is the net as a percentage of the capital, exactly when some was deployed |
| TradeUnits.CompleteSplit | cli/portfolio.ts:496-503 | a complete pair is one tight and one wide leg |
| TradeUnits.UnpairedUnitIsOneLeg | cli/portfolio.ts:454-471 | with unique position ids, a unit no other position joins is exactly one leg, its own |
| TradeUnits.CompleteExactly | cli/portfolio.ts:496-546 | a unit is complete exactly when nothing is missing and it has one leg, or, joined, one tight and one wide leg |
| TradeUnits.NothingMissingYetIncomplete | cli/portfolio.ts:518-546 | an instance: two priced legs of one cohort, nothing missing, not complete, no net |
| TradeUnits.MaxExposureMeaning | cli/portfolio.ts:473-488 | the exposure is the longest of any leg, and absent exactly when some leg's times are unusable |
| InstallUpdate.Disk.AtomicReplaceInstall | cli/update.ts:225-245 | at every step some directory holds the previous tree; success leaves it aside and the bundle in place; a failure that was undone leaves it in place |
| InstallUpdate.Disk.PersistPreviousInstall | cli/update.ts:262-294 | the previous tree is somewhere at every step, a finished run leaves it under its persistent name with no other backup, and which step fails decides whether it was renamed and whether the run finishes |
| InstallUpdate.ClearedExactly | cli/update.ts:281-287 | what is cleared: every directory beside the install but the persistent backup whose name begins as a backup of it or as a temporary one |
| InstallUpdate.Disk.RollbackBundleInstall | cli/update.ts:615-653 | the previous tree survives every step; going through, it is restored to the directory it came from, unless it was already renamed for keeps |
| InstallUpdate.Disk.ConfirmUpdate | cli/update.ts:679-704 | after the replacement: done, or rolled back, with where the previous tree is in each case; the rollback after the rename happens exactly when that step went through and the listing or a removal did not |
| InstallUpdate.Disk.UpdateFromBundle | cli/update.ts:655-704 | whatever step fails, the previous tree is in some directory after every step; where it ends in each outcome; and each outcome, the one that leaves no install included, exactly by the steps that fail |
| CandidateLifecycle.EligibleExactlyWhenEarned | engine/candidate-policy.ts:150-192 | over any history, a watched candidate is eligible exactly when since its last effective restart there were at least max(1, minHealthyScans) healthy scans and no failing one, and an event that moved its last-seen time came minObservationMs after the first sighting |
| CandidateLifecycle.CountIsTrailingHealthyScans | engine/candidate-policy.ts:160-192 | while watched, the count is exactly the healthy scans since the last failure, effective cooldown end or start |
| CandidateLifecycle.HistoryKeeps | engine/candidate-policy.ts:56-72 | over any history, times out of order included: seen and updated times never decrease, the identity never changes, rejected is absorbing, and each optional field is present in exactly its states |
| CandidateLifecycle.RejectedExactlyByHardFailure | engine/candidate-policy.ts:194-224 | a candidate is rejected exactly when some scan failed hard |
| CandidateLifecycle.RejectionKeepsLastReason | engine/candidate-policy.ts:194-208 | the reason kept is that of the last hard failure |
| CandidateLifecycle.EnteredWasEligible | engine/candidate-policy.ts:226-241 | a candidate is entered or cooling down only since an entry that found it eligible, whose time it records |
| CandidateLifecycle.CooldownIsServed | engine/candidate-policy.ts:242-262 | a candidate cools down since an event that found it entered, and no elapsed event has come at or after the time that event set |
| CandidateLifecycle.HealthExactly | engine/candidate-policy.ts:75-122 | each verdict on a scan: a hard failure exactly when unsafe, otherwise the first of missing market data, a required mint without any price evidence, one without a real price seen within the age limit, no route, a refusal by the screener, and healthy when none holds |
| CandidateLifecycle.ScansExactly | engine/candidate-policy.ts:150-224 | a scan that does not fail hard: a watched candidate counts it or starts over, and is eligible exactly when healthy with both gates met; any other keeps its state and count |
| CandidateLifecycle.DiscoveredExactly | engine/candidate-policy.ts:124-145 | a candidate is discovered when created, and again exactly when its cooldown is over |
| CandidateLifecycle.EntersExactly | engine/candidate-policy.ts:226-241 | a candidate is entered exactly by an entry that finds it eligible, whose time it records, until a cooldown starts or a scan fails hard |
| CandidateLifecycle.CoolsExactly | engine/candidate-policy.ts:242-262 | it cools down exactly from a cooldown of an entered candidate until an elapsed event at or after the set time or a hard failure |
| CandidateLifecycle.HardFailureClears | engine/candidate-policy.ts:200-208 | a hard failure rejects with its reason and clears the count, the eligibility and the cooldown |
| CandidateBatch.BatchAdvancesOnce | engine/candidate-discovery.ts:42-82 | a batch never rejects, counts at most one scan for a candidate, and counts it exactly for a healthy scan of a watched one |
| CandidateBatch.EligiblePoolsExactly | engine/candidate-discovery.ts:83-95 | the eligible list holds each eligible candidate's pool once and nothing else |
| CandidateBatch.HealthyPoolExactly | engine/candidate-discovery.ts:60-80 | a pool is healthy exactly when its liquidity is positive, its volume known and not negative, and each of its tokens has a fresh real price and, unless it is SOL, a route |
| CandidateBatch.CandidateMint | engine/candidate-discovery.ts:28-30 | the candidate of a pool is its token beside SOL, or its first token when neither is SOL |
| CandidateBatch.NewCandidate | engine/candidate-discovery.ts:42-62 | a pool without a stored row gets a new candidate of this wallet and agent under its own id, first seen now |
| CandidateBatch.LastWithIdMeaning | engine/candidate-discovery.ts:46-48 | of several stored rows with one id the last is used |
| CandidateBatch.IdsDoNotCollide | engine/candidate-discovery.ts:32-39 | for colon-free addresses and mints the id determines both |
| CandidateBatch.EligiblePoolsWereScreened | engine/candidate-discovery.ts:42-95 | with rows stored under their own ids, every eligible address is a pool of this scan with liquidity and known volume, both of whose tokens have a fresh real price and can be sold |

## Left out

- Rows: wallet, agent, pool and destination columns of a settlement row; error texts beyond the few the code branches on; the classification of an error as transient, retriable, rate-limited or network is an input.
- Net realised result and live close costs: `engine/pnl.ts` and `engine/fee-capture.ts` are a parameter of the finalisation model.
- A crash between a broadcast and the save of its signature: covered only as the case in which neither save succeeds.
- Swap quotes, routes, SDK calls, HTTP, signing, base58, JSON and SQLite themselves: only their replies appear.
- Floating point: money, rates and percentiles are exact reals, so rounding of sums is not modelled; a value that is not finite is its own case.
- Launcher lock: the pid a failed acquisition reports, pid reuse, and errors other than the ones each step distinguishes.
- Transport: decoding bytes cut inside a UTF-8 character, reconnection across process generations, and the session handshake.
- Environment merge: the wording of the banner is a parameter.
- Price provenance labels, the wait between CoinGecko batches, and overlapping price requests.
- PriceService.Service.FetchLayers: the early returns when nothing is missing are not written out; the later layers then change nothing.
- RpcPool: retries within one endpoint's turn are not paced in the source either; the timeout of one request is part of its reply.
- RpcPool.Pool.RpcCall: one call at a time; overlapping calls on one breaker are in CircuitBreaker.
- Fee claims: building, signing and confirming the claim transaction, and the value of the net claim in USD.
- RevenueShare.SplitClaim: requires the pool's two mints to differ, as they do on chain; creating one account twice would fail otherwise.
- Closed trades: the final sort of units by locale order; exposure is in milliseconds rather than days.
- Install update: moving a versioned directory to its canonical name, user data migration, the wrapper script's text, and replacing an empty directory by a rename.
- Safety pause: the wallet and daily baseline reads that produce its inputs, a pause row whose save fails, and a restart of the engine, which starts from the stored pause with fresh counters.
- Cooldowns, churn guard, discovery policy, liquidity detector, configuration precedence, command-line output, alerts and telemetry: small or I/O, they would only add easy members.
