/**
 * How old a served price can be: the lifetimes of the price cache, of a price remembered with
 * metadata and of the memo of Helius answers add up, and no more.
 */
module PriceAge {
  import opened Prelude
  import opened PriceLayers

  /** How long an answer of Helius is handed out again. */
  const HELIUS_MEMO_MS := 300_000

  /** A price that came from outside during this step was given by its provider at time t. */
  predicate SuppliesAt(step: Step, usd: real, t: int) {
    match step
    case Ask(w, _) =>
      || (w.jupiter == Some(usd) && t == w.clock.jupiterAt)
      || (w.gecko == Some(usd) && t == w.clock.geckoAt)
      || (w.helius == Some(usd) && t == w.clock.heliusAnsweredAt)
      || (w.spot == Some(usd) && t == w.clock.spotAt)
    case Remember(meta) =>
      meta.Some? && meta.value.priceUsd == Some(usd) && meta.value.answeredAt == t
  }

  ghost predicate SuppliedAt(steps: seq<Step>, usd: real, t: int) {
    exists k :: 0 <= k < |steps| && SuppliesAt(steps[k], usd, t)
  }

  /**
   * A metadata price is noted with a time, at most the memo's lifetime after it was answered, the
   * memo hands out no older answer, and a call stores a price at most `slack` after it checked
   * that price's age.
   */
  predicate Timely(step: Step, slack: nat) {
    match step
    case Ask(w, _) =>
      && w.clock.storeAt - w.clock.metaAt <= slack
      && w.clock.heliusAt - w.clock.heliusAnsweredAt <= HELIUS_MEMO_MS
    case Remember(meta) =>
      meta.Some? && Quotable(meta.value.priceUsd) ==>
        && meta.value.priceFetchedAt.Some?
        && meta.value.priceFetchedAt.value - meta.value.answeredAt <= HELIUS_MEMO_MS
  }

  /** A cached price entered the cache at most a lifetime, the memo's and the slack after it was answered. */
  ghost predicate CacheDated(s: Slot, steps: seq<Step>, slack: nat) {
    s.price.Some? ==> exists t ::
      && SuppliedAt(steps, s.price.value.price, t)
      && s.price.value.fetchedAt - t <= PRICE_TTL_MS + HELIUS_MEMO_MS + slack
  }

  ghost predicate MetaDated(s: Slot, steps: seq<Step>) {
    s.meta.Some? && Quotable(s.meta.value.priceUsd) ==>
      && s.meta.value.priceFetchedAt.Some?
      && s.meta.value.priceFetchedAt.value - s.meta.value.answeredAt <= HELIUS_MEMO_MS
      && SuppliedAt(steps, s.meta.value.priceUsd.value, s.meta.value.answeredAt)
  }

  lemma SuppliedStays(steps: seq<Step>, step: Step, usd: real, t: int)
    ensures SuppliedAt(steps, usd, t) || SuppliesAt(step, usd, t) ==> SuppliedAt(steps + [step], usd, t)
  {
    var more := steps + [step];
    if SuppliedAt(steps, usd, t) {
      var k :| 0 <= k < |steps| && SuppliesAt(steps[k], usd, t);
      assert SuppliesAt(more[k], usd, t);
    }
    assert more[|steps|] == step;
  }

  /** Where the entry a step leaves in the price cache comes from, with its age. */
  lemma CachedAge(s: Slot, w: World, r: Rules)
    ensures var c := Cached(s, w.clock, r);
      && (c.slot.meta == s.meta || c.slot.meta.None?)
      && (c.usd.None? ==> c.slot.price.None?)
      && (c.slot.price.Some? ==>
            || c.slot.price == s.price
            || (s.meta.Some? && Quotable(s.meta.value.priceUsd)
                && c.slot.price == Some(Entry(s.meta.value.priceUsd.value, w.clock.storeAt))
                && (s.meta.value.priceFetchedAt.Some? ==>
                      w.clock.metaAt - s.meta.value.priceFetchedAt.value <= PRICE_TTL_MS)))
  {
  }

  datatype Provider = Jupiter | CoinGecko | Helius | Spot

  /** Whose quote a call that got to the providers leaves in the cache, if any answered. */
  function Quoter(w: World): Provider {
    if Quotable(w.jupiter) then Jupiter
    else if Quotable(w.gecko) && !w.geckoFailed then CoinGecko
    else if Quotable(w.helius) then Helius
    else if Quotable(w.spot) then Spot
    else CoinGecko
  }

  function StoredAt(w: World): int {
    match Quoter(w)
    case Jupiter => w.clock.jupiterAt
    case CoinGecko => w.clock.geckoAt
    case Helius => w.clock.heliusAt
    case Spot => w.clock.spotAt
  }

  /** When that quote was given: when it was stored, unless it came from the memo. */
  function AnsweredAt(w: World): int {
    if Quoter(w).Helius? then w.clock.heliusAnsweredAt else StoredAt(w)
  }

  lemma ProvidersAge(s: Slot, w: World, r: Rules)
    requires s.price.None?
    ensures var p := FromProviders(s, w);
      && p.slot.meta == s.meta
      && (p.slot.price.Some? ==>
            && p.slot.price == Some(Entry(p.slot.price.value.price, StoredAt(w)))
            && SuppliesAt(Ask(w, r), p.slot.price.value.price, AnsweredAt(w)))
  {
  }

  lemma AskKeepsDates(steps: seq<Step>, s: Slot, w: World, r: Rules, slack: nat)
    requires CacheDated(s, steps, slack) && MetaDated(s, steps) && Timely(Ask(w, r), slack)
    ensures CacheDated(After(s, Ask(w, r)), steps + [Ask(w, r)], slack)
  {
    var step := Ask(w, r);
    var t := After(s, step);
    if t.price.Some? {
      var usd := t.price.value.price;
      var c := Cached(s, w.clock, r);
      CachedAge(s, w, r);
      if c.usd.None? {
        ProvidersAge(c.slot, w, r);
        SuppliedStays(steps, step, usd, AnsweredAt(w));
      } else if t.price == s.price {
        var at :| SuppliedAt(steps, usd, at)
                  && t.price.value.fetchedAt - at <= PRICE_TTL_MS + HELIUS_MEMO_MS + slack;
        SuppliedStays(steps, step, usd, at);
      } else {
        SuppliedStays(steps, step, usd, s.meta.value.answeredAt);
      }
    }
  }

  lemma StepKeepsMeta(steps: seq<Step>, s: Slot, step: Step, slack: nat)
    requires MetaDated(s, steps) && Timely(step, slack)
    ensures MetaDated(After(s, step), steps + [step])
  {
    AfterTraced(s, step);
    var t := After(s, step);
    if t.meta.Some? && Quotable(t.meta.value.priceUsd) {
      SuppliedStays(steps, step, t.meta.value.priceUsd.value, t.meta.value.answeredAt);
    }
  }

  /** Over any history, clocks running backwards included, cached prices are dated. */
  lemma {:induction false} HistoryIsDated(steps: seq<Step>, slack: nat)
    requires forall k :: 0 <= k < |steps| ==> Timely(steps[k], slack)
    ensures CacheDated(Run(steps), steps, slack) && MetaDated(Run(steps), steps)
  {
    if steps == [] {
    } else {
      var init, step := steps[..|steps| - 1], steps[|steps| - 1];
      HistoryIsDated(init, slack);
      assert steps == init + [step];
      var s := Run(init);
      StepKeepsMeta(init, s, step, slack);
      match step {
        case Ask(w, r) => AskKeepsDates(init, s, w, r, slack);
        case Remember(meta) =>
          if s.price.Some? {
            var at :| SuppliedAt(init, s.price.value.price, at)
                      && s.price.value.fetchedAt - at <= PRICE_TTL_MS + HELIUS_MEMO_MS + slack;
            SuppliedStays(init, step, s.price.value.price, at);
          }
      }
    }
  }

  /**
   * A price served from the cache was answered at most two lifetimes, the memo's and the slack
   * before the reading that served it; one served from metadata at most one and the memo's.
   */
  lemma ServedPriceIsRecent(steps: seq<Step>, w: World, r: Rules, slack: nat)
    requires forall k :: 0 <= k < |steps| ==> Timely(steps[k], slack)
    ensures var s := Run(steps); var usd := Fetch(s, w, r).usd;
      && (CacheAnswers(s, w.clock) ==> exists t ::
            SuppliedAt(steps, usd, t) && w.clock.cacheAt - t <= 2 * PRICE_TTL_MS + HELIUS_MEMO_MS + slack)
      && (!CacheAnswers(s, w.clock) && MetadataAnswers(s, w.clock) ==> exists t ::
            SuppliedAt(steps, usd, t) && w.clock.metaAt - t <= PRICE_TTL_MS + HELIUS_MEMO_MS)
  {
    HistoryIsDated(steps, slack);
    var s := Run(steps);
    if CacheAnswers(s, w.clock) {
      var t :| SuppliedAt(steps, s.price.value.price, t)
               && s.price.value.fetchedAt - t <= PRICE_TTL_MS + HELIUS_MEMO_MS + slack;
      assert w.clock.cacheAt - t <= 2 * PRICE_TTL_MS + HELIUS_MEMO_MS + slack;
    }
  }

  // ---- Exactly when a served price is older than one lifetime ----

  /** Step k put a price into the cache: nothing usable was cached, and something is afterwards. */
  predicate Stores(steps: seq<Step>, k: nat)
    requires k < |steps|
  {
    && steps[k].Ask?
    && !CacheAnswers(Run(steps[..k]), steps[k].w.clock)
    && After(Run(steps[..k]), steps[k]).price.Some?
  }

  /** The step that put the price into the cache that is there now. */
  ghost predicate LastStore(steps: seq<Step>, k: nat) {
    && k < |steps| && Stores(steps, k)
    && After(Run(steps[..k]), steps[k]).price == Run(steps).price
    && forall j :: k < j < |steps| ==> !Stores(steps, j)
  }

  /** That step took the price from the token's metadata. */
  predicate StoredFromMetadata(steps: seq<Step>, k: nat)
    requires k < |steps| && steps[k].Ask?
  {
    MetadataAnswers(Run(steps[..k]), steps[k].w.clock)
  }

  /** That step took the price from Helius. */
  predicate StoredFromHelius(steps: seq<Step>, k: nat)
    requires k < |steps| && steps[k].Ask?
  {
    !StoredFromMetadata(steps, k) && Quoter(steps[k].w).Helius?
  }

  /** One step either keeps a cached price that answers, or stores one, or leaves none. */
  lemma StoreFrom(s: Slot, w: World, r: Rules)
    requires !CacheAnswers(s, w.clock) && After(s, Ask(w, r)).price.Some?
    ensures var e := After(s, Ask(w, r)).price.value;
      if MetadataAnswers(s, w.clock) then e == Entry(s.meta.value.priceUsd.value, w.clock.storeAt)
      else e.fetchedAt == StoredAt(w) && SuppliesAt(Ask(w, r), e.price, AnsweredAt(w))
  {
    var c := Cached(s, w.clock, r);
    if c.usd.None? {
      CachedAge(s, w, r);
      ProvidersAge(c.slot, w, r);
    }
  }

  /** A cached price was put there by some last step, and what is cached is what that step stored. */
  lemma {:induction false} SomeLastStore(steps: seq<Step>) returns (k: nat)
    requires Run(steps).price.Some?
    ensures LastStore(steps, k)
  {
    if steps == [] {
      assert false;
    } else {
      var n := |steps| - 1;
      var init, step := steps[..n], steps[n];
      if Stores(steps, n) {
        k := n;
      } else {
        assert After(Run(init), step).price == Run(init).price;
        k := SomeLastStore(init);
        assert init[..k] == steps[..k];
        forall j | k < j < |steps| ensures !Stores(steps, j) {
          if j < n {
            assert init[..j] == steps[..j];
            assert !Stores(init, j);
          }
        }
      }
    }
  }

  lemma LastStoreIsUnique(steps: seq<Step>, j: nat, k: nat)
    requires LastStore(steps, j) && LastStore(steps, k)
    ensures j == k
  {
  }

  /** When the price that step k stored was given by its provider. */
  function GivenAt(steps: seq<Step>, k: nat): int
    requires k < |steps| && steps[k].Ask?
  {
    if StoredFromMetadata(steps, k) then Run(steps[..k]).meta.value.answeredAt else AnsweredAt(steps[k].w)
  }

  /** The price now cached was given by its provider at time t. */
  ghost predicate SupplyTime(steps: seq<Step>, t: int) {
    exists k: nat :: LastStore(steps, k) && GivenAt(steps, k) == t
  }

  lemma {:induction false} MetadataWasSupplied(steps: seq<Step>)
    ensures var s := Run(steps);
      s.meta.Some? && Quotable(s.meta.value.priceUsd) ==>
        SuppliedAt(steps, s.meta.value.priceUsd.value, s.meta.value.answeredAt)
  {
    if steps == [] {
    } else {
      var init, step := steps[..|steps| - 1], steps[|steps| - 1];
      MetadataWasSupplied(init);
      AfterTraced(Run(init), step);
      assert steps == init + [step];
      var s := Run(steps);
      if s.meta.Some? && Quotable(s.meta.value.priceUsd) {
        SuppliedStays(init, step, s.meta.value.priceUsd.value, s.meta.value.answeredAt);
      }
    }
  }

  /** Every cached price has one supply time, and a step that supplied it then. */
  lemma SupplyTimeIsKnown(steps: seq<Step>) returns (t: int)
    requires Run(steps).price.Some?
    ensures SupplyTime(steps, t) && SuppliedAt(steps, Run(steps).price.value.price, t)
    ensures forall u :: SupplyTime(steps, u) ==> u == t
  {
    var k := SomeLastStore(steps);
    t := GivenAt(steps, k);
    StoreFrom(Run(steps[..k]), steps[k].w, steps[k].rules);
    if StoredFromMetadata(steps, k) {
      MetadataWasSupplied(steps[..k]);
      var i :| 0 <= i < k && SuppliesAt(steps[..k][i], Run(steps).price.value.price, t);
      assert SuppliesAt(steps[i], Run(steps).price.value.price, t);
    }
    forall u | SupplyTime(steps, u)
      ensures u == t
    {
      var j: nat :| LastStore(steps, j) && GivenAt(steps, j) == u;
      LastStoreIsUnique(steps, j, k);
    }
  }

  /**
   * A quote of Jupiter, CoinGecko or the major-token source is never served from the cache beyond a
   * lifetime after it was given. Another price is served so exactly when it came from metadata or
   * the memo, and was already too old, when it was stored, for the time it has been cached since.
   */
  lemma OlderThanALifetimeExactly(steps: seq<Step>, c: Clock, t: int)
    requires CacheAnswers(Run(steps), c) && SupplyTime(steps, t)
    ensures c.cacheAt - t > PRICE_TTL_MS <==>
            exists k: nat :: LastStore(steps, k) && (StoredFromMetadata(steps, k) || StoredFromHelius(steps, k))
              && Run(steps).price.value.fetchedAt - GivenAt(steps, k)
                 > PRICE_TTL_MS - (c.cacheAt - Run(steps).price.value.fetchedAt)
  {
    var k: nat :| LastStore(steps, k) && GivenAt(steps, k) == t;
    StoreFrom(Run(steps[..k]), steps[k].w, steps[k].rules);
    if j: nat :| LastStore(steps, j) && (StoredFromMetadata(steps, j) || StoredFromHelius(steps, j))
                 && Run(steps).price.value.fetchedAt - GivenAt(steps, j)
                    > PRICE_TTL_MS - (c.cacheAt - Run(steps).price.value.fetchedAt) {
      LastStoreIsUnique(steps, j, k);
    }
  }

  /**
   * The bound is reached: an answer remembered with metadata at the end of the memo's life, and
   * cached at the end of its own, is served for another lifetime.
   */
  lemma BoundIsReached(usd: real, r: Rules)
    requires usd > 0.0
    ensures var steps := [Remember(Some(MetaPrice(Some(usd), Some(HELIUS_MEMO_MS), 0))),
                          Ask(SILENT.(clock := At(HELIUS_MEMO_MS + PRICE_TTL_MS)), r)];
      && (forall k :: 0 <= k < |steps| ==> Timely(steps[k], 0))
      && Fetch(Run(steps), SILENT.(clock := At(HELIUS_MEMO_MS + 2 * PRICE_TTL_MS)), r).usd == usd
      && forall t :: SuppliedAt(steps, usd, t) ==> t == 0
  {
    var meta := Some(MetaPrice(Some(usd), Some(HELIUS_MEMO_MS), 0));
    var remember := Remember(meta);
    var ask := Ask(SILENT.(clock := At(HELIUS_MEMO_MS + PRICE_TTL_MS)), r);
    RunOne(remember);
    RunMore([remember], ask);
    assert [remember] + [ask] == [remember, ask];
    assert Run([remember]) == Slot(None, None, meta);
    assert After(Run([remember]), ask).price == Some(Entry(usd, HELIUS_MEMO_MS + PRICE_TTL_MS));
  }
}
