/**
 * How one mint is priced: the price cache, the price remembered with the token's
 * metadata, the miss cache, four providers in turn, and the fallback table.
 * Mints are priced independently, so the meaning is given one mint at a time.
 */
module PriceLayers {
  import opened Prelude

  const PRICE_TTL_MS := 60_000

  /** An amount as parsed from a reply: None when absent or not finite. */
  type Quote = Option<real>

  predicate Quotable(q: Quote) {
    q.Some? && q.value > 0.0
  }

  datatype Entry = Entry(price: real, fetchedAt: int)

  /**
   * A price remembered with token metadata and the time noted for it. `answeredAt` is when the
   * provider gave the price, which nothing records: the answer may come from a memo.
   */
  datatype MetaPrice = MetaPrice(priceUsd: Quote, priceFetchedAt: Option<int>, answeredAt: int)

  /** What the three caches hold for one mint. */
  datatype Slot = Slot(price: Option<Entry>, miss: Option<int>, meta: Option<MetaPrice>)

  const EMPTY := Slot(None, None, None)

  /**
   * The clock readings one call makes for one mint. A Helius answer may come from a memo:
   * heliusAnsweredAt is when Helius gave it.
   */
  datatype Clock = Clock(
    cacheAt: int, metaAt: int, storeAt: int, missAt: int,
    jupiterAt: int, geckoAt: int, heliusAt: int, spotAt: int, bookAt: int, heliusAnsweredAt: int)

  /**
   * What the providers answer about one mint during one call. A CoinGecko quote
   * counts only from a batch answered before any batch failed; geckoFailed says
   * that some batch did.
   */
  datatype World = World(
    clock: Clock, jupiter: Quote, gecko: Quote, geckoFailed: bool, helius: Quote, spot: Quote)

  datatype Rules = Rules(useFallback: bool, fallback: Option<real>, missTtlMs: int)

  datatype Priced = Priced(slot: Slot, usd: Option<real>)

  function Store(s: Slot, usd: real, at: int): Slot {
    s.(price := Some(Entry(usd, at)), miss := None)
  }

  function FromPriceCache(s: Slot, at: int): Priced {
    if s.price.None? then Priced(s, None)
    else if at - s.price.value.fetchedAt > PRICE_TTL_MS then Priced(s.(price := None), None)
    else Priced(s, Some(s.price.value.price))
  }

  function FromMetadata(s: Slot, metaAt: int, storeAt: int): Priced {
    if s.meta.None? || !Quotable(s.meta.value.priceUsd) then Priced(s, None)
    else
      var fetchedAt := s.meta.value.priceFetchedAt;
      if fetchedAt.Some? && metaAt - fetchedAt.value > PRICE_TTL_MS then Priced(s.(meta := None), None)
      else
        var usd := s.meta.value.priceUsd.value;
        Priced(Store(s, usd, storeAt), Some(usd))
  }

  function Booked(r: Rules): real {
    if r.useFallback then GetOr(r.fallback, 0.0) else 0.0
  }

  function FromMissCache(s: Slot, at: int, r: Rules): Priced {
    if s.miss.None? then Priced(s, None)
    else if at - s.miss.value >= r.missTtlMs then Priced(s.(miss := None), None)
    else Priced(s, Some(Booked(r)))
  }

  function Cached(s: Slot, c: Clock, r: Rules): Priced {
    var p := FromPriceCache(s, c.cacheAt);
    if p.usd.Some? then p
    else
      var m := FromMetadata(p.slot, c.metaAt, c.storeAt);
      if m.usd.Some? then m else FromMissCache(m.slot, c.missAt, r)
  }

  function FromProvider(s: Slot, q: Quote, at: int): Priced {
    if Quotable(q) then Priced(Store(s, q.value, at), q) else Priced(s, None)
  }

  /** A failed later batch discards the answer, but not the price already cached. */
  function FromGecko(s: Slot, w: World): Priced {
    var p := FromProvider(s, w.gecko, w.clock.geckoAt);
    if w.geckoFailed then p.(usd := None) else p
  }

  function FromProviders(s: Slot, w: World): Priced {
    var j := FromProvider(s, w.jupiter, w.clock.jupiterAt);
    if j.usd.Some? then j
    else
      var g := FromGecko(j.slot, w);
      if g.usd.Some? then g
      else
        var h := FromProvider(g.slot, w.helius, w.clock.heliusAt);
        if h.usd.Some? then h else FromProvider(h.slot, w.spot, w.clock.spotAt)
  }

  function Book(s: Slot, at: int): Slot {
    s.(miss := Some(at))
  }

  datatype Answer = Answer(slot: Slot, usd: real)

  /** One call, one mint. */
  function Fetch(s: Slot, w: World, r: Rules): Answer {
    var c := Cached(s, w.clock, r);
    if c.usd.Some? then Answer(c.slot, c.usd.value)
    else
      var p := FromProviders(c.slot, w);
      if p.usd.Some? then Answer(p.slot, p.usd.value) else Answer(Book(p.slot, w.clock.bookAt), Booked(r))
  }

  // ---- The same call, one layer after another ----

  function ThenProvider(p: Priced, q: Quote, at: int): Priced {
    if p.usd.Some? then p else FromProvider(p.slot, q, at)
  }

  function AfterJupiter(s: Slot, w: World, r: Rules): Priced {
    ThenProvider(Cached(s, w.clock, r), w.jupiter, w.clock.jupiterAt)
  }

  function AfterGecko(s: Slot, w: World, r: Rules): Priced {
    var p := AfterJupiter(s, w, r);
    if p.usd.Some? then p else FromGecko(p.slot, w)
  }

  function AfterHelius(s: Slot, w: World, r: Rules): Priced {
    ThenProvider(AfterGecko(s, w, r), w.helius, w.clock.heliusAt)
  }

  function AfterSpot(s: Slot, w: World, r: Rules): Priced {
    ThenProvider(AfterHelius(s, w, r), w.spot, w.clock.spotAt)
  }

  datatype Layer = CacheLayer | JupiterLayer | GeckoLayer | HeliusLayer | SpotLayer

  function AfterLayer(layer: Layer, s: Slot, w: World, r: Rules): Priced {
    match layer
    case CacheLayer => Cached(s, w.clock, r)
    case JupiterLayer => AfterJupiter(s, w, r)
    case GeckoLayer => AfterGecko(s, w, r)
    case HeliusLayer => AfterHelius(s, w, r)
    case SpotLayer => AfterSpot(s, w, r)
  }

  lemma FetchByLayers(s: Slot, w: World, r: Rules)
    ensures var p := AfterSpot(s, w, r);
      Fetch(s, w, r) ==
        if p.usd.Some? then Answer(p.slot, p.usd.value) else Answer(Book(p.slot, w.clock.bookAt), Booked(r))
  {
  }

  // ---- Histories of one mint ----

  /** A price request, or the token's metadata being stored or dropped. */
  datatype Step = Ask(w: World, rules: Rules) | Remember(meta: Option<MetaPrice>)

  function After(s: Slot, step: Step): Slot {
    match step
    case Ask(w, r) => Fetch(s, w, r).slot
    case Remember(meta) => s.(meta := meta)
  }

  function Run(steps: seq<Step>): Slot {
    if steps == [] then EMPTY else After(Run(steps[..|steps| - 1]), steps[|steps| - 1])
  }

  /** The price came from outside during this step: a provider's quote or token metadata. */
  predicate Supplies(step: Step, usd: real) {
    match step
    case Ask(w, _) =>
      && usd > 0.0
      && (w.jupiter == Some(usd) || w.gecko == Some(usd) || w.helius == Some(usd) || w.spot == Some(usd))
    case Remember(meta) => meta.Some? && meta.value.priceUsd == Some(usd) && usd > 0.0
  }

  ghost predicate Supplied(steps: seq<Step>, usd: real) {
    exists k :: 0 <= k < |steps| && Supplies(steps[k], usd)
  }

  lemma SuppliedMore(steps: seq<Step>, step: Step, usd: real)
    ensures Supplied(steps + [step], usd) <==> Supplied(steps, usd) || Supplies(step, usd)
  {
    var more := steps + [step];
    if Supplied(steps, usd) {
      var k :| 0 <= k < |steps| && Supplies(steps[k], usd);
      assert more[k] == steps[k];
    }
    assert more[|steps|] == step;
  }

  /** Where a cached price can come from: it was there, or the metadata had it, or this step supplied it. */
  ghost predicate Traced(s: Slot, t: Slot, step: Step) {
    t.price.Some? ==>
      || (s.price.Some? && t.price.value.price == s.price.value.price)
      || (s.meta.Some? && s.meta.value.priceUsd == Some(t.price.value.price) && t.price.value.price > 0.0)
      || Supplies(step, t.price.value.price)
  }

  lemma CachedTraced(s: Slot, w: World, r: Rules)
    ensures var c := Cached(s, w.clock, r);
      && Traced(s, c.slot, Ask(w, r))
      && (c.slot.meta.None? || c.slot.meta == s.meta)
      && (c.usd.None? ==> c.slot.price.None?)
  {
  }

  lemma ProvidersTraced(s: Slot, w: World, r: Rules)
    requires s.price.None?
    ensures var p := FromProviders(s, w);
      && p.slot.meta == s.meta
      && (p.slot.price.Some? ==> Supplies(Ask(w, r), p.slot.price.value.price))
      && (p.usd.Some? ==> Supplies(Ask(w, r), p.usd.value))
  {
  }

  lemma AfterTraced(s: Slot, step: Step)
    ensures var t := After(s, step);
      && Traced(s, t, step)
      && (t.meta.None? || t.meta == s.meta || step == Remember(t.meta))
  {
    if step.Ask? {
      CachedTraced(s, step.w, step.rules);
      var c := Cached(s, step.w.clock, step.rules);
      if c.usd.None? {
        ProvidersTraced(c.slot, step.w, step.rules);
      }
    }
  }

  /** Everything cached came from outside; the fallback table never enters a cache. */
  lemma {:induction false} CachesHoldSuppliedPrices(steps: seq<Step>)
    ensures Run(steps).price.Some? ==> Supplied(steps, Run(steps).price.value.price)
    ensures Run(steps).meta.Some? && Quotable(Run(steps).meta.value.priceUsd) ==>
        Supplied(steps, Run(steps).meta.value.priceUsd.value)
  {
    if steps == [] {
    } else {
      var init, step := steps[..|steps| - 1], steps[|steps| - 1];
      assert steps == init + [step];
      CachesHoldSuppliedPrices(init);
      AfterTraced(Run(init), step);
      var s := Run(steps);
      if s.price.Some? {
        SuppliedMore(init, step, s.price.value.price);
      }
      if s.meta.Some? && Quotable(s.meta.value.priceUsd) {
        SuppliedMore(init, step, s.meta.value.priceUsd.value);
      }
    }
  }

  lemma {:induction false} CachedPricesArePositive(steps: seq<Step>)
    ensures Run(steps).price.Some? ==> Run(steps).price.value.price > 0.0
  {
    if steps == [] {
    } else {
      CachedPricesArePositive(steps[..|steps| - 1]);
    }
  }

  /**
   * Whatever was asked before, with or without the fallback: a price given without
   * it is zero or was supplied from outside.
   */
  lemma NoFabricatedPrice(steps: seq<Step>, w: World, r: Rules)
    requires !r.useFallback
    ensures var usd := Fetch(Run(steps), w, r).usd;
      usd == 0.0 || (usd > 0.0 && Supplied(steps + [Ask(w, r)], usd))
  {
    var usd := Fetch(Run(steps), w, r).usd;
    CachesHoldSuppliedPrices(steps);
    if usd != 0.0 {
      SuppliedMore(steps, Ask(w, r), usd);
      CachedPricesArePositive(steps);
    }
  }

  /** With the fallback, the only other value is the table's own, and only when every layer missed. */
  lemma FallbackOnlyWhenAllMiss(steps: seq<Step>, w: World, r: Rules)
    requires r.useFallback
    ensures var usd := Fetch(Run(steps), w, r).usd;
      Supplied(steps + [Ask(w, r)], usd) || usd == GetOr(r.fallback, 0.0)
    ensures Fetch(Run(steps), w, r).usd != GetOr(r.fallback, 0.0) ==>
        Fetch(Run(steps), w, r.(useFallback := false)).usd == Fetch(Run(steps), w, r).usd
  {
    var usd := Fetch(Run(steps), w, r).usd;
    CachesHoldSuppliedPrices(steps);
    SuppliedMore(steps, Ask(w, r), usd);
  }

  /** The same history with every request made without the fallback. */
  function Strict(steps: seq<Step>): (r: seq<Step>)
    ensures |r| == |steps|
  {
    seq(|steps|, k requires 0 <= k < |steps| =>
      match steps[k]
      case Ask(w, r) => Ask(w, r.(useFallback := false))
      case Remember(m) => Remember(m))
  }

  /** A caller's use of the fallback never changes what a later caller is told. */
  lemma {:induction false} FallbackLeavesNoTrace(steps: seq<Step>)
    ensures Run(steps) == Run(Strict(steps))
  {
    if steps == [] {
    } else {
      FallbackLeavesNoTrace(steps[..|steps| - 1]);
      assert Strict(steps)[..|steps| - 1] == Strict(steps[..|steps| - 1]);
    }
  }

  // ---- Which layer answers ----

  predicate CacheAnswers(s: Slot, c: Clock) {
    s.price.Some? && c.cacheAt - s.price.value.fetchedAt <= PRICE_TTL_MS
  }

  predicate MetadataAnswers(s: Slot, c: Clock) {
    && s.meta.Some? && Quotable(s.meta.value.priceUsd)
    && (s.meta.value.priceFetchedAt.Some? ==> c.metaAt - s.meta.value.priceFetchedAt.value <= PRICE_TTL_MS)
  }

  predicate MissStands(s: Slot, c: Clock, r: Rules) {
    s.miss.Some? && c.missAt - s.miss.value < r.missTtlMs
  }

  predicate ProviderAnswers(w: World) {
    || Quotable(w.jupiter)
    || (Quotable(w.gecko) && !w.geckoFailed)
    || Quotable(w.helius)
    || Quotable(w.spot)
  }

  /** Without the fallback a mint gets a real price exactly when some layer, in turn, resolves it. */
  lemma PricedExactly(steps: seq<Step>, w: World, r: Rules)
    requires !r.useFallback
    ensures var s := Run(steps);
      Fetch(s, w, r).usd > 0.0 <==>
        || CacheAnswers(s, w.clock)
        || MetadataAnswers(s, w.clock)
        || (!MissStands(s, w.clock, r) && ProviderAnswers(w))
  {
    CachedPricesArePositive(steps);
  }

  // ---- Price cache against miss cache ----

  predicate Disjoint(s: Slot) {
    s.price.None? || s.miss.None?
  }

  /** A CoinGecko quote was cached, then discarded because a later batch failed, and nobody else answered. */
  predicate Stranded(s: Slot, w: World, r: Rules) {
    && Cached(s, w.clock, r).usd.None?
    && Quotable(w.gecko) && w.geckoFailed
    && !Quotable(w.jupiter) && !Quotable(w.helius) && !Quotable(w.spot)
  }

  /** One call keeps the two caches disjoint exactly when it strands no quote. */
  lemma DisjointExactly(s: Slot, w: World, r: Rules)
    requires Disjoint(s)
    ensures Disjoint(Fetch(s, w, r).slot) <==> !Stranded(s, w, r)
  {
  }

  predicate Strands(steps: seq<Step>, k: nat)
    requires k < |steps|
  {
    steps[k].Ask? && Stranded(Run(steps[..k]), steps[k].w, steps[k].rules)
  }

  lemma {:induction false} DisjointUnlessStranded(steps: seq<Step>)
    requires forall k :: 0 <= k < |steps| ==> !Strands(steps, k)
    ensures Disjoint(Run(steps))
  {
    if steps == [] {
    } else {
      var init, step := steps[..|steps| - 1], steps[|steps| - 1];
      forall k | 0 <= k < |init| ensures !Strands(init, k) {
        assert !Strands(steps, k);
        assert init[..k] == steps[..k];
      }
      DisjointUnlessStranded(init);
      assert !Strands(steps, |steps| - 1);
      if step.Ask? {
        DisjointExactly(Run(init), step.w, step.rules);
      }
    }
  }

  /** The first stranded quote does break disjointness, at once. */
  lemma FirstStrandedBreaks(steps: seq<Step>, k: nat)
    requires k < |steps| && Strands(steps, k)
    requires forall j :: 0 <= j < k ==> !Strands(steps, j)
    ensures !Disjoint(Run(steps[..k + 1]))
  {
    var init := steps[..k];
    forall j | 0 <= j < |init| ensures !Strands(init, j) {
      assert !Strands(steps, j);
      assert init[..j] == steps[..j];
    }
    DisjointUnlessStranded(init);
    assert steps[..k + 1][..|steps[..k + 1]| - 1] == init;
    DisjointExactly(Run(init), steps[k].w, steps[k].rules);
  }

  function At(t: int): Clock {
    Clock(t, t, t, t, t, t, t, t, t, t)
  }

  const SILENT := World(At(0), None, None, false, None, None)

  lemma RunMore(steps: seq<Step>, step: Step)
    ensures Run(steps + [step]) == After(Run(steps), step)
  {
    assert (steps + [step])[..|steps + [step]| - 1] == steps;
  }

  lemma RunOne(step: Step)
    ensures Run([step]) == After(EMPTY, step)
  {
    assert [step][..|[step]| - 1] == [];
    assert Run([step][..|[step]| - 1]) == EMPTY;
  }

  /**
   * A stranded quote, seen by callers: told 0 although a quote arrived, then the
   * quote a minute long, then 0 again without any provider being asked.
   */
  lemma StrandedQuoteFlickers()
    ensures exists first: World, r: Rules ::
      var asks := t => Ask(SILENT.(clock := At(t), jupiter := Some(2.0)), r);
      && !r.useFallback && Quotable(first.gecko)
      && Fetch(EMPTY, first, r).usd == 0.0
      && Fetch(Run([Ask(first, r)]), asks(60_000).w, r).usd == first.gecko.value
      && Fetch(Run([Ask(first, r)]), asks(60_001).w, r).usd == 0.0
  {
    var first := SILENT.(gecko := Some(7.0), geckoFailed := true);
    var r := Rules(false, None, 600_000);
    var steps := [Ask(first, r)];
    RunOne(steps[0]);
    var s := Run(steps);
    assert s == Slot(Some(Entry(7.0, 0)), Some(0), None);
    var asks := t => Ask(SILENT.(clock := At(t), jupiter := Some(2.0)), r);
    assert Fetch(s, asks(60_000).w, r).usd == 7.0;
    assert Fetch(s, asks(60_001).w, r).usd == 0.0;
  }
}
