/** One scan over a list of screened pools, advancing each pool's candidate once. */
module CandidateBatch {
  import opened Prelude
  import opened CandidateLifecycle

  /** tvl and volume are None when the screener's number is not finite. */
  datatype Pool = Pool(
    address: string, tokenX: string, tokenY: string, tvlUsd: Option<real>, volume24hUsd: Option<real>)

  datatype BatchInput = BatchInput(
    walletAddress: string, agentInstanceId: string, pools: seq<Pool>, existing: seq<Candidate>,
    priceEvidence: seq<Evidence>, routeAvailable: set<string>, now: int, policy: Policy,
    maxMarketDataAgeMs: int, solMint: string)

  datatype Advance = Advance(updated: seq<Candidate>, eligiblePools: seq<string>)

  function MintOf(p: Pool, solMint: string): string {
    if p.tokenX == solMint then p.tokenY else p.tokenX
  }

  function CandidateId(wallet: string, agent: string, pool: string, mint: string): string {
    wallet + ":" + agent + ":" + pool + ":" + mint
  }

  function IdOf(i: BatchInput, p: Pool): string {
    CandidateId(i.walletAddress, i.agentInstanceId, p.address, MintOf(p, i.solMint))
  }

  /** A later row with the same id replaces an earlier one. */
  function LastWithId(cs: seq<Candidate>, id: string): Option<Candidate> {
    if cs == [] then None
    else if cs[|cs| - 1].identity.id == id then Some(cs[|cs| - 1])
    else LastWithId(cs[..|cs| - 1], id)
  }

  function Current(i: BatchInput, p: Pool): Candidate {
    GetOr(LastWithId(i.existing, IdOf(i, p)),
      Create(Identity(IdOf(i, p), i.walletAddress, i.agentInstanceId, p.address, MintOf(p, i.solMint)), i.now))
  }

  function PoolHealth(i: BatchInput, p: Pool): Health {
    EvaluateHealth(HealthInput(
      Safe, i.priceEvidence, [p.tokenX, p.tokenY], i.now, i.maxMarketDataAgeMs,
      forall mint :: mint in [p.tokenX, p.tokenY] ==> mint == i.solMint || mint in i.routeAvailable,
      true,
      p.tvlUsd.Some? && p.tvlUsd.value > 0.0 && p.volume24hUsd.Some? && p.volume24hUsd.value >= 0.0))
  }

  function Advanced(i: BatchInput, p: Pool): Candidate {
    Transition(Current(i, p), Scan(i.now, PoolHealth(i, p)), i.policy)
  }

  function EligibleAddresses(cs: seq<Candidate>): seq<string> {
    if cs == [] then []
    else
      var init, last := EligibleAddresses(cs[..|cs| - 1]), cs[|cs| - 1];
      if last.state == State.Eligible then init + [last.identity.poolAddress] else init
  }

  function AdvanceScreened(i: BatchInput): Advance {
    var updated := seq(|i.pools|, k requires 0 <= k < |i.pools| => Advanced(i, i.pools[k]));
    Advance(updated, Once(EligibleAddresses(updated)))
  }

  // ---- The batch ----

  lemma {:induction false} LastWithIdMeaning(cs: seq<Candidate>, id: string)
    ensures LastWithId(cs, id).None? <==> forall c :: c in cs ==> c.identity.id != id
    ensures LastWithId(cs, id).Some? ==>
        exists k :: 0 <= k < |cs| && cs[k] == LastWithId(cs, id).value && cs[k].identity.id == id
                    && forall j :: k < j < |cs| ==> cs[j].identity.id != id
  {
    if cs == [] {
    } else {
      var init, last := cs[..|cs| - 1], cs[|cs| - 1];
      LastWithIdMeaning(init, id);
      assert cs == init + [last];
      if last.identity.id != id && LastWithId(init, id).Some? {
        var k :| 0 <= k < |init| && init[k] == LastWithId(init, id).value && init[k].identity.id == id
                 && forall j :: k < j < |init| ==> init[j].identity.id != id;
        assert cs[k] == init[k];
      } else if last.identity.id == id {
        assert cs[|cs| - 1] == last;
      }
    }
  }

  lemma TransitionKeepsWhenConsistent(c: Candidate, e: Event, policy: Policy)
    ensures Consistent(c) ==> Consistent(Transition(c, e, policy))
  {
    if Consistent(c) {
      TransitionKeepsConsistent(c, e, policy);
    }
  }

  /** The batch never rejects a candidate, and one batch counts at most one scan for each. */
  lemma BatchAdvancesOnce(i: BatchInput, k: nat)
    requires k < |i.pools|
    ensures |AdvanceScreened(i).updated| == |i.pools|
    ensures var before, after := Current(i, i.pools[k]), AdvanceScreened(i).updated[k];
      && (after.state == Rejected <==> before.state == Rejected)
      && after.healthyScanCount <= before.healthyScanCount + 1
      && (after.healthyScanCount == before.healthyScanCount + 1 <==>
            Watched(before.state) && PoolHealth(i, i.pools[k]) == Healthy)
      && after.identity == before.identity
      && (Consistent(before) ==> Consistent(after))
  {
    var p := i.pools[k];
    assert AdvanceScreened(i).updated[k] == Advanced(i, p);
    assert !PoolHealth(i, p).HardFailure?;
    TransitionKeepsWhenConsistent(Current(i, p), Scan(i.now, PoolHealth(i, p)), i.policy);
  }

  lemma {:induction false} EligibleAddressesMeaning(cs: seq<Candidate>)
    ensures forall a :: a in EligibleAddresses(cs) <==>
        exists c :: c in cs && c.state == State.Eligible && c.identity.poolAddress == a
  {
    if cs == [] {
    } else {
      EligibleAddressesMeaning(cs[..|cs| - 1]);
      assert cs == cs[..|cs| - 1] + [cs[|cs| - 1]];
    }
  }

  /** The eligible list holds each eligible pool once and nothing else. */
  lemma EligiblePoolsExactly(i: BatchInput)
    ensures var r := AdvanceScreened(i);
      && (forall a :: a in r.eligiblePools <==>
            exists c :: c in r.updated && c.state == State.Eligible && c.identity.poolAddress == a)
      && (forall x, y :: 0 <= x < y < |r.eligiblePools| ==> r.eligiblePools[x] != r.eligiblePools[y])
  {
    var r := AdvanceScreened(i);
    OnceIsTheSet(EligibleAddresses(r.updated));
    EligibleAddressesMeaning(r.updated);
  }

  // ---- Candidate ids ----

  predicate NoColon(s: string) {
    ':' !in s
  }

  lemma {:induction false} SameTail(a: string, x: string, b: string, y: string)
    requires NoColon(x) && NoColon(y)
    requires a + ":" + x == b + ":" + y
    ensures a == b && x == y
  {
    var s, t := a + ":" + x, b + ":" + y;
    assert s[|a|] == ':' && t[|b|] == ':';
    assert |a| == |b|;
    assert a == s[..|a|] && b == t[..|b|];
    assert x == s[|a| + 1..] && y == t[|b| + 1..];
  }

  /** Addresses and mints hold no colon, so the id determines both. */
  lemma IdsDoNotCollide(w: string, a: string, p: string, m: string, q: string, n: string)
    requires NoColon(p) && NoColon(m) && NoColon(q) && NoColon(n)
    requires CandidateId(w, a, p, m) == CandidateId(w, a, q, n)
    ensures p == q && m == n
  {
    SameTail(w + ":" + a + ":" + p, m, w + ":" + a + ":" + q, n);
    SameTail(w + ":" + a, p, w + ":" + a, q);
  }

  /** A stored row carries the id of its own pool and mint. */
  predicate StoredUnderOwnId(c: Candidate, i: BatchInput) {
    && c.identity.id == CandidateId(i.walletAddress, i.agentInstanceId,
                                    c.identity.poolAddress, c.identity.tokenMint)
    && NoColon(c.identity.poolAddress) && NoColon(c.identity.tokenMint)
  }

  lemma CurrentIsOfPool(i: BatchInput, p: Pool)
    requires forall c :: c in i.existing ==> StoredUnderOwnId(c, i)
    requires NoColon(p.address) && NoColon(MintOf(p, i.solMint))
    ensures Current(i, p).identity.poolAddress == p.address
  {
    LastWithIdMeaning(i.existing, IdOf(i, p));
    var c := Current(i, p);
    if LastWithId(i.existing, IdOf(i, p)).Some? {
      assert c in i.existing;
      IdsDoNotCollide(i.walletAddress, i.agentInstanceId,
        c.identity.poolAddress, c.identity.tokenMint, p.address, MintOf(p, i.solMint));
    }
  }

  lemma EligibleNeedsHealth(c: Candidate, at: int, health: Health, policy: Policy)
    requires Transition(c, Scan(at, health), policy).state == State.Eligible
    ensures health == Healthy
  {
  }

  /** A token of a pool can be priced and sold: fresh evidence that is no fallback, and a route unless it is SOL. */
  ghost predicate Tradable(i: BatchInput, mint: string) {
    && (exists e :: e in i.priceEvidence && Proves(e, mint, i.now, i.maxMarketDataAgeMs))
    && (mint == i.solMint || mint in i.routeAvailable)
  }

  /** A pool is healthy exactly when it has liquidity, known volume, and two tokens that can be traded. */
  lemma HealthyPoolExactly(i: BatchInput, p: Pool)
    ensures PoolHealth(i, p) == Healthy <==>
        && Tradable(i, p.tokenX) && Tradable(i, p.tokenY)
        && GetOr(p.tvlUsd, 0.0) > 0.0 && p.volume24hUsd.Some? && p.volume24hUsd.value >= 0.0
  {
    var mints := [p.tokenX, p.tokenY];
    assert p.tokenX in mints && p.tokenY in mints;
    HealthExactly(HealthInput(
      Safe, i.priceEvidence, mints, i.now, i.maxMarketDataAgeMs,
      forall mint :: mint in mints ==> mint == i.solMint || mint in i.routeAvailable,
      true,
      p.tvlUsd.Some? && p.tvlUsd.value > 0.0 && p.volume24hUsd.Some? && p.volume24hUsd.value >= 0.0));
  }

  /** A pool nobody stored a row for gets a new candidate of this wallet and agent, first seen now. */
  lemma NewCandidate(i: BatchInput, p: Pool)
    requires forall c :: c in i.existing ==>
      c.identity.id != i.walletAddress + ":" + i.agentInstanceId + ":" + p.address + ":" + MintOf(p, i.solMint)
    ensures var c := Current(i, p);
      && c.identity.id == i.walletAddress + ":" + i.agentInstanceId + ":" + p.address + ":" + MintOf(p, i.solMint)
      && c.identity.walletAddress == i.walletAddress && c.identity.agentInstanceId == i.agentInstanceId
      && c.identity.poolAddress == p.address && c.identity.tokenMint == MintOf(p, i.solMint)
      && c.state == Discovered && c.healthyScanCount == 0 && c.firstSeenAt == c.lastSeenAt == i.now
  {
    LastWithIdMeaning(i.existing, IdOf(i, p));
  }

  /** A pool's candidate is its token beside SOL; of two other tokens it is the first. */
  lemma CandidateMint(p: Pool, solMint: string)
    ensures MintOf(p, solMint) in {p.tokenX, p.tokenY}
    ensures MintOf(p, solMint) == solMint <==> p.tokenX == solMint && p.tokenY == solMint
    ensures solMint !in {p.tokenX, p.tokenY} ==> MintOf(p, solMint) == p.tokenX
  {
  }

  /**
   * With rows stored under their own ids, every eligible address is a pool of this scan whose
   * two tokens can both be priced and sold.
   */
  lemma EligiblePoolsWereScreened(i: BatchInput, address: string)
    requires forall c :: c in i.existing ==> StoredUnderOwnId(c, i)
    requires forall p :: p in i.pools ==> NoColon(p.address) && NoColon(MintOf(p, i.solMint))
    requires address in AdvanceScreened(i).eligiblePools
    ensures exists p :: p in i.pools && p.address == address && Tradable(i, p.tokenX) && Tradable(i, p.tokenY)
                        && GetOr(p.tvlUsd, 0.0) > 0.0 && p.volume24hUsd.Some? && p.volume24hUsd.value >= 0.0
  {
    EligiblePoolsExactly(i);
    var r := AdvanceScreened(i);
    var k :| 0 <= k < |r.updated| && r.updated[k].state == State.Eligible
             && r.updated[k].identity.poolAddress == address;
    var p := i.pools[k];
    assert r.updated[k] == Advanced(i, p);
    BatchAdvancesOnce(i, k);
    CurrentIsOfPool(i, p);
    assert p in i.pools && p.address == address;
    EligibleNeedsHealth(Current(i, p), i.now, PoolHealth(i, p), i.policy);
    HealthyPoolExactly(i, p);
  }
}
