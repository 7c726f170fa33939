/**
 * The price caches as the service keeps them: three maps updated in place while a
 * call walks its mints layer by layer. Every method is tied, mint by mint, to
 * PriceLayers.
 */
module PriceService {
  import opened Prelude
  import opened PriceLayers

  const GECKO_BATCH := 25

  type Quotes = map<string, Quote>

  /** A provider's HTTP exchange: it failed, answered with an error status, or carried quotes. */
  datatype Reply = Threw | NotOk | Body(quotes: Quotes)

  /** Everything outside the service during one call; gecko(k) is the k-th batch's reply. */
  datatype Net = Net(
    clock: string -> Clock, jupiter: Reply, jupiterLite: Reply, gecko: nat -> Reply,
    helius: Quotes, spot: Reply)

  function QuoteIn(quotes: Quotes, mint: string): Quote {
    if mint in quotes then quotes[mint] else None
  }

  predicate AnyQuotable(quotes: Quotes, mints: seq<string>) {
    exists mint :: mint in mints && Quotable(QuoteIn(quotes, mint))
  }

  function BodyOf(reply: Reply): Quotes {
    if reply.Body? then reply.quotes else map[]
  }

  /** The lite host is asked when the primary host answered without one usable quote. */
  function JupiterQuotes(net: Net, mints: seq<string>): Quotes {
    if net.jupiter.Threw? then map[]
    else if AnyQuotable(BodyOf(net.jupiter), mints) then net.jupiter.quotes
    else BodyOf(net.jupiterLite)
  }

  /**
   * A primary host that cannot be reached leaves its mints without a quote; one that quotes any of
   * them is taken at its word for all; otherwise the lite host's answer, if it gave one, is.
   */
  lemma JupiterExactly(net: Net, mints: seq<string>, mint: string)
    ensures var quote := QuoteIn(JupiterQuotes(net, mints), mint);
      var quoted := net.jupiter.Body?
        && exists m :: m in mints && m in net.jupiter.quotes && Quotable(net.jupiter.quotes[m]);
      && (net.jupiter.Threw? ==> quote.None?)
      && (quoted ==> quote == QuoteIn(net.jupiter.quotes, mint))
      && (!net.jupiter.Threw? && !quoted ==>
            quote == if net.jupiterLite.Body? then QuoteIn(net.jupiterLite.quotes, mint) else None)
  {
    if net.jupiter.Body? {
      if m :| m in mints && m in net.jupiter.quotes && Quotable(net.jupiter.quotes[m]) {
        assert Quotable(QuoteIn(net.jupiter.quotes, m));
      }
    }
  }

  function BatchOf(asked: seq<string>): (r: seq<string>)
    ensures r <= asked && |r| <= GECKO_BATCH && (asked != [] ==> r != [])
  {
    if |asked| <= GECKO_BATCH then asked else asked[..GECKO_BATCH]
  }

  /** Some batch, from the k-th on, fails. */
  predicate GeckoFails(asked: seq<string>, gecko: nat -> Reply, k: nat)
    decreases |asked|
  {
    asked != [] && (gecko(k).Threw? || GeckoFails(asked[|BatchOf(asked)|..], gecko, k + 1))
  }

  /** The quote cached for a mint: its batch was reached and answered. */
  function GeckoQuote(asked: seq<string>, gecko: nat -> Reply, k: nat, mint: string): Quote
    decreases |asked|
  {
    if asked == [] || gecko(k).Threw? then None
    else if mint in BatchOf(asked) then QuoteIn(BodyOf(gecko(k)), mint)
    else GeckoQuote(asked[|BatchOf(asked)|..], gecko, k + 1, mint)
  }

  /** The mints still without a price. */
  ghost predicate Missing(missing: seq<string>, mints: seq<string>, prices: map<string, real>) {
    && Distinct(missing)
    && (forall m :: m in missing <==> m in mints && m !in prices)
    && (forall m :: m in prices ==> m in mints)
  }

  function Lookup(prices: map<string, real>, mint: string): Option<real> {
    if mint in prices then Some(prices[mint]) else None
  }

  /** The first batch and the rest share no mint, and the replies to the rest are their own. */
  lemma NextBatch(asked: seq<string>, gecko: nat -> Reply, k: nat, rest: seq<string>)
    requires Distinct(asked) && asked != [] && rest == asked[|BatchOf(asked)|..]
    requires !gecko(k).Threw?
    ensures Distinct(BatchOf(asked)) && Distinct(rest)
    ensures forall m :: m in asked <==> m in BatchOf(asked) || m in rest
    ensures forall m :: m in BatchOf(asked) ==> m !in rest
    ensures GeckoFails(asked, gecko, k) == GeckoFails(rest, gecko, k + 1)
    ensures forall m :: m in BatchOf(asked) ==> GeckoQuote(asked, gecko, k, m) == QuoteIn(BodyOf(gecko(k)), m)
    ensures forall m :: m in rest ==> GeckoQuote(asked, gecko, k, m) == GeckoQuote(rest, gecko, k + 1, m)
  {
    assert asked == BatchOf(asked) + rest;
  }

  /** What one provider resolved goes into the prices; the rest stays missing. */
  method MergeProviderPrices(mints: seq<string>, fetched: map<string, real>, prices: map<string, real>)
      returns (merged: map<string, real>, missing: seq<string>)
    requires Distinct(mints) && forall m :: m in fetched ==> m in mints
    ensures Distinct(missing)
    ensures forall m :: m in missing <==> m in mints && m !in fetched
    ensures forall m ::
        Lookup(merged, m) == if m in fetched then Some(fetched[m]) else Lookup(prices, m)
  {
    merged, missing := prices, [];
    for i := 0 to |mints|
      invariant Distinct(missing)
      invariant forall m :: m in missing <==> m in mints[..i] && m !in fetched
      invariant forall m ::
          Lookup(merged, m) == if m in fetched && m in mints[..i] then Some(fetched[m]) else Lookup(prices, m)
    {
      var mint := mints[i];
      assert mints[..i + 1] == mints[..i] + [mint];
      assert mint !in mints[..i];
      if mint in fetched {
        merged := merged[mint := fetched[mint]];
      } else {
        missing := missing + [mint];
      }
    }
    assert mints[..|mints|] == mints;
  }

  /** The history grew by one request with these rules and clock, and its answer is usd. */
  ghost predicate Asked(before: seq<Step>, after: seq<Step>, r: Rules, c: Clock, usd: real) {
    exists w: World :: w.clock == c && after == before + [Ask(w, r)] && usd == Fetch(Run(before), w, r).usd
  }

  class Service {
    const fallbackPrices: map<string, real>
    const majors: set<string>
    const exoticMissTtlMs: int
    const majorMissTtlMs: int
    const heliusKey: bool

    var priceCache: map<string, Entry>
    var negativeCache: map<string, int>
    var metaCache: map<string, MetaPrice>
    /** Every step each mint has been through. */
    ghost var history: string -> seq<Step>

    constructor (fallbackPrices: map<string, real>, majors: set<string>, exotic: int, major: int, key: bool)
      ensures this.fallbackPrices == fallbackPrices && this.majors == majors && heliusKey == key
      ensures exoticMissTtlMs == exotic && majorMissTtlMs == major
      ensures Valid() && forall m :: history(m) == []
    {
      this.fallbackPrices, this.majors, heliusKey := fallbackPrices, majors, key;
      exoticMissTtlMs, majorMissTtlMs := exotic, major;
      priceCache, negativeCache, metaCache := map[], map[], map[];
      history := m => [];
    }

    function SlotOf(mint: string): Slot
      reads this
    {
      Slot(
        if mint in priceCache then Some(priceCache[mint]) else None,
        if mint in negativeCache then Some(negativeCache[mint]) else None,
        if mint in metaCache then Some(metaCache[mint]) else None)
    }

    ghost predicate Valid()
      reads this
    {
      forall m :: SlotOf(m) == Run(history(m))
    }

    function RulesFor(mint: string, useFallback: bool): Rules {
      Rules(
        useFallback,
        if mint in fallbackPrices then Some(fallbackPrices[mint]) else None,
        if mint in majors then majorMissTtlMs else exoticMissTtlMs)
    }

    /** What one call's providers say about a mint, given the lists they were asked for. */
    function WorldOf(net: Net, mint: string, askedJupiter: seq<string>, askedGecko: seq<string>): World {
      World(
        net.clock(mint),
        QuoteIn(JupiterQuotes(net, askedJupiter), mint),
        GeckoQuote(askedGecko, net.gecko, 0, mint),
        GeckoFails(askedGecko, net.gecko, 0),
        if heliusKey then QuoteIn(net.helius, mint) else None,
        if mint in majors then QuoteIn(BodyOf(net.spot), mint) else None)
    }

    /** A known miss keeps a mint from being asked again, for the shorter time if it is a major. */
    lemma MissStandsExactly(mint: string, s: Slot, at: int, useFallback: bool)
      requires s.miss.Some?
      ensures var standing := at < s.miss.value + if mint in majors then majorMissTtlMs else exoticMissTtlMs;
        var p := FromMissCache(s, at, RulesFor(mint, useFallback));
        && (p.usd.Some? <==> standing) && p.slot == (if standing then s else s.(miss := None))
        && (standing ==> p.usd.value == if useFallback && mint in fallbackPrices then fallbackPrices[mint] else 0.0)
    {
    }

    /** Helius is asked only with a key, and the spot prices only for majors. */
    lemma AskedOnlyIf(net: Net, mint: string, askedJupiter: seq<string>, askedGecko: seq<string>)
      ensures var w := WorldOf(net, mint, askedJupiter, askedGecko);
        && (w.helius.Some? ==> heliusKey && mint in net.helius && w.helius == net.helius[mint])
        && (heliusKey && mint in net.helius ==> w.helius == net.helius[mint])
        && (w.spot.Some? ==> mint in majors && net.spot.Body?)
        && (mint in majors && net.spot.Body? && mint in net.spot.quotes ==> w.spot == net.spot.quotes[mint])
    {
    }

    /** No mint but this one changed. */
    twostate predicate OnlyChanged(mint: string)
      reads this
    {
      forall m :: m != mint ==> SlotOf(m) == old(SlotOf(m))
    }

    twostate predicate OnlyChangedAmong(mints: seq<string>)
      reads this
    {
      forall m :: m !in mints ==> SlotOf(m) == old(SlotOf(m))
    }

    method GetCachedPrice(mint: string, now: int) returns (usd: Option<real>)
      modifies `priceCache, `negativeCache, `metaCache
      ensures Priced(SlotOf(mint), usd) == FromPriceCache(old(SlotOf(mint)), now)
      ensures OnlyChanged(mint)
    {
      if mint !in priceCache {
        return None;
      }
      if now - priceCache[mint].fetchedAt > PRICE_TTL_MS {
        priceCache := priceCache - {mint};
        return None;
      }
      usd := Some(priceCache[mint].price);
    }

    method SetCachedPrice(mint: string, usd: real, now: int)
      modifies `priceCache, `negativeCache, `metaCache
      ensures SlotOf(mint) == Store(old(SlotOf(mint)), usd, now)
      ensures OnlyChanged(mint)
    {
      priceCache := priceCache[mint := Entry(usd, now)];
      negativeCache := negativeCache - {mint};
    }

    method ResolveMetadataLayer(mint: string, metaAt: int, storeAt: int) returns (usd: Option<real>)
      modifies `priceCache, `negativeCache, `metaCache
      ensures Priced(SlotOf(mint), usd) == FromMetadata(old(SlotOf(mint)), metaAt, storeAt)
      ensures OnlyChanged(mint)
    {
      if mint !in metaCache || !Quotable(metaCache[mint].priceUsd) {
        return None;
      }
      var meta := metaCache[mint];
      if meta.priceFetchedAt.Some? && metaAt - meta.priceFetchedAt.value > PRICE_TTL_MS {
        metaCache := metaCache - {mint};
        return None;
      }
      SetCachedPrice(mint, meta.priceUsd.value, storeAt);
      usd := meta.priceUsd;
    }

    method ResolveNegativeLayer(mint: string, now: int, useFallback: bool) returns (usd: Option<real>)
      modifies `priceCache, `negativeCache, `metaCache
      ensures Priced(SlotOf(mint), usd) == FromMissCache(old(SlotOf(mint)), now, RulesFor(mint, useFallback))
      ensures OnlyChanged(mint)
    {
      var rules := RulesFor(mint, useFallback);
      if mint !in negativeCache {
        return None;
      }
      if now - negativeCache[mint] >= rules.missTtlMs {
        negativeCache := negativeCache - {mint};
        return None;
      }
      usd := Some(Booked(rules));
    }

    /** The cached layers for one mint. */
    method ResolveCached(mint: string, clock: Clock, useFallback: bool) returns (usd: Option<real>)
      modifies `priceCache, `negativeCache, `metaCache
      ensures Priced(SlotOf(mint), usd) == Cached(old(SlotOf(mint)), clock, RulesFor(mint, useFallback))
      ensures OnlyChanged(mint)
    {
      usd := GetCachedPrice(mint, clock.cacheAt);
      if usd.None? {
        usd := ResolveMetadataLayer(mint, clock.metaAt, clock.storeAt);
        if usd.None? {
          usd := ResolveNegativeLayer(mint, clock.missAt, useFallback);
        }
      }
    }

    /** The cached layers have answered this for the mint, and left this in the caches. */
    ghost predicate Resolved(was: Slot, mint: string, usd: Option<real>, clock: Clock, useFallback: bool)
      reads this
    {
      Priced(SlotOf(mint), usd) == Cached(was, clock, RulesFor(mint, useFallback))
    }

    method ResolveCachedPrices(mints: seq<string>, clock: string -> Clock, useFallback: bool)
        returns (prices: map<string, real>, missing: seq<string>)
      modifies `priceCache, `negativeCache, `metaCache
      ensures Distinct(missing) && OnlyChangedAmong(mints)
      ensures forall m :: m in missing ==> m in mints
      ensures forall m :: m in prices ==> m in mints
      ensures forall m :: m in mints ==>
          && Priced(SlotOf(m), Lookup(prices, m)) ==
             Cached(old(SlotOf(m)), clock(m), RulesFor(m, useFallback))
          && (m in missing <==> m !in prices)
    {
      prices, missing := map[], [];
      var unique := Once(mints);
      OnceIsTheSet(mints);
      for i := 0 to |unique|
        invariant Distinct(missing)
        invariant forall m :: m in missing || m in prices ==> m in unique[..i]
        invariant forall m :: m !in unique[..i] ==> SlotOf(m) == old(SlotOf(m))
        invariant forall m :: m in unique[..i] ==>
            Resolved(old(SlotOf(m)), m, Lookup(prices, m), clock(m), useFallback)
        invariant forall m :: m in unique[..i] ==> (m in missing <==> m !in prices)
      {
        var mint := unique[i];
        assert unique[..i + 1] == unique[..i] + [mint];
        assert mint !in unique[..i];
        var usd := ResolveCached(mint, clock(mint), useFallback);
        if usd.Some? {
          prices := prices[mint := usd.value];
        } else {
          missing := missing + [mint];
        }
      }
      assert unique[..|unique|] == unique;
    }

    /** Parses one reply, caching every usable quote for a mint that was asked for. */
    method CacheQuotes(mints: seq<string>, quotes: Quotes, at: string -> int)
        returns (result: map<string, real>)
      requires Distinct(mints)
      modifies `priceCache, `negativeCache, `metaCache
      ensures OnlyChangedAmong(mints)
      ensures forall m :: m in result ==> m in mints
      ensures forall m :: m in mints ==>
          Priced(SlotOf(m), Lookup(result, m)) == FromProvider(old(SlotOf(m)), QuoteIn(quotes, m), at(m))
    {
      result := map[];
      for i := 0 to |mints|
        invariant forall m :: m in result ==> m in mints[..i]
        invariant forall m :: m !in mints[..i] ==> SlotOf(m) == old(SlotOf(m))
        invariant forall m :: m in mints[..i] ==>
            Priced(SlotOf(m), Lookup(result, m)) == FromProvider(old(SlotOf(m)), QuoteIn(quotes, m), at(m))
      {
        var mint := mints[i];
        assert mints[..i + 1] == mints[..i] + [mint];
        assert mint !in mints[..i];
        var quote := QuoteIn(quotes, mint);
        if Quotable(quote) {
          result := result[mint := quote.value];
          SetCachedPrice(mint, quote.value, at(mint));
        }
      }
      assert mints[..|mints|] == mints;
    }

    /** The primary host first, then the lite host when nothing usable came back. */
    method FetchJupiter(mints: seq<string>, net: Net) returns (result: map<string, real>)
      requires Distinct(mints)
      modifies `priceCache, `negativeCache, `metaCache
      ensures OnlyChangedAmong(mints)
      ensures forall m :: m in result ==> m in mints
      ensures forall m :: m in mints ==>
          Priced(SlotOf(m), Lookup(result, m)) ==
          FromProvider(old(SlotOf(m)), QuoteIn(JupiterQuotes(net, mints), m), net.clock(m).jupiterAt)
    {
      result := map[];
      if net.jupiter.Threw? {
        return;
      }
      if net.jupiter.Body? && AnyQuotable(net.jupiter.quotes, mints) {
        result := CacheQuotes(mints, net.jupiter.quotes, m => net.clock(m).jupiterAt);
      } else if net.jupiterLite.Body? {
        result := CacheQuotes(mints, net.jupiterLite.quotes, m => net.clock(m).jupiterAt);
      }
    }

    /** One batch's reply: its usable quotes are cached and join the result. */
    method FetchGeckoBatch(batch: seq<string>, reply: Reply, at: string -> int, gathered: map<string, real>)
        returns (result: map<string, real>)
      requires Distinct(batch) && forall m :: m in batch ==> m !in gathered
      modifies `priceCache, `negativeCache, `metaCache
      ensures OnlyChangedAmong(batch)
      ensures forall m :: m in batch ==>
          Priced(SlotOf(m), Lookup(result, m)) == FromProvider(old(SlotOf(m)), QuoteIn(BodyOf(reply), m), at(m))
      ensures forall m :: m !in batch ==> Lookup(result, m) == Lookup(gathered, m)
    {
      var got := CacheQuotes(batch, BodyOf(reply), at);
      result := gathered + got;
    }

    /** The mints no longer to do stand where their batch's reply put them; no other mint changed. */
    ghost predicate Gathered(
        mints: seq<string>, todo: seq<string>, result: map<string, real>,
        quote: string -> Quote, at: string -> int, was: string -> Slot)
      reads this
    {
      forall m ::
        if m in mints && m !in todo then Priced(SlotOf(m), Lookup(result, m)) == FromProvider(was(m), quote(m), at(m))
        else SlotOf(m) == was(m) && m !in result
    }

    /** Batch after batch; a batch that fails discards everything gathered, but not what was cached. */
    method FetchGecko(mints: seq<string>, net: Net) returns (result: map<string, real>)
      requires Distinct(mints)
      modifies `priceCache, `negativeCache, `metaCache
      ensures OnlyChangedAmong(mints)
      ensures forall m :: m in result ==> m in mints
      ensures forall m :: m in mints ==>
          var p := FromProvider(old(SlotOf(m)), GeckoQuote(mints, net.gecko, 0, m), net.clock(m).geckoAt);
          && SlotOf(m) == p.slot
          && Lookup(result, m) == if GeckoFails(mints, net.gecko, 0) then None else p.usd
    {
      result := map[];
      var i, k := 0, 0;
      var at := m => net.clock(m).geckoAt;
      ghost var todo := mints;
      ghost var quote := m => GeckoQuote(mints, net.gecko, 0, m);
      ghost var was := m => old(SlotOf(m));
      while i < |mints|
        invariant 0 <= i <= |mints| && 0 <= k && todo == mints[i..] && Distinct(todo)
        invariant forall m :: m in todo ==> m in mints
        invariant GeckoFails(mints, net.gecko, 0) == GeckoFails(todo, net.gecko, k)
        invariant forall m :: m in todo ==> quote(m) == GeckoQuote(todo, net.gecko, k, m)
        invariant Gathered(mints, todo, result, quote, at, was)
        decreases |mints| - i
      {
        var batch := BatchOf(mints[i..]);
        if net.gecko(k).Threw? {
          return map[];
        }
        ghost var rest := todo[|batch|..];
        NextBatch(todo, net.gecko, k, rest);
        result := FetchGeckoBatch(batch, net.gecko(k), at, result);
        todo := rest;
        i, k := i + |batch|, k + 1;
      }
    }

    /** The keyed provider, asked only when a key is configured. */
    method FetchHelius(mints: seq<string>, net: Net) returns (result: map<string, real>)
      requires Distinct(mints)
      modifies `priceCache, `negativeCache, `metaCache
      ensures OnlyChangedAmong(mints)
      ensures forall m :: m in result ==> m in mints
      ensures forall m :: m in mints ==>
          Priced(SlotOf(m), Lookup(result, m)) ==
          FromProvider(old(SlotOf(m)), if heliusKey then QuoteIn(net.helius, m) else None, net.clock(m).heliusAt)
    {
      result := map[];
      if heliusKey {
        result := CacheQuotes(mints, net.helius, m => net.clock(m).heliusAt);
      }
    }

    function MajorsAmong(mints: seq<string>): (r: seq<string>)
      requires Distinct(mints)
      ensures Distinct(r) && forall m :: m in r <==> m in mints && m in majors
    {
      if mints == [] then []
      else
        var init, last := mints[..|mints| - 1], mints[|mints| - 1];
        assert mints == init + [last];
        if last in majors then MajorsAmong(init) + [last] else MajorsAmong(init)
    }

    method FetchMajorSpot(mints: seq<string>, net: Net) returns (result: map<string, real>)
      requires Distinct(mints)
      modifies `priceCache, `negativeCache, `metaCache
      ensures OnlyChangedAmong(mints)
      ensures forall m :: m in result ==> m in mints
      ensures forall m :: m in mints ==>
          Priced(SlotOf(m), Lookup(result, m)) ==
          FromProvider(old(SlotOf(m)),
            if m in majors then QuoteIn(BodyOf(net.spot), m) else None, net.clock(m).spotAt)
    {
      result := map[];
      var asked := MajorsAmong(mints);
      if asked != [] && net.spot.Body? {
        result := CacheQuotes(asked, net.spot.quotes, m => net.clock(m).spotAt);
      }
    }

    /** Unresolved mints are booked as missed and priced from the fallback, or as zero. */
    method ApplyFallbackForUnresolved(
        mints: seq<string>, prices: map<string, real>, useFallback: bool, clock: string -> Clock)
        returns (merged: map<string, real>)
      requires Distinct(mints)
      modifies `negativeCache
      ensures OnlyChangedAmong(mints)
      ensures forall m :: m in mints ==>
          && SlotOf(m) == Book(old(SlotOf(m)), clock(m).bookAt)
          && Lookup(merged, m) == Some(Booked(RulesFor(m, useFallback)))
      ensures forall m :: m !in mints ==> Lookup(merged, m) == Lookup(prices, m)
    {
      merged := prices;
      for i := 0 to |mints|
        invariant forall m :: m !in mints[..i] ==> SlotOf(m) == old(SlotOf(m)) && Lookup(merged, m) == Lookup(prices, m)
        invariant forall m :: m in mints[..i] ==>
            && SlotOf(m) == Book(old(SlotOf(m)), clock(m).bookAt)
            && Lookup(merged, m) == Some(Booked(RulesFor(m, useFallback)))
      {
        var mint := mints[i];
        assert mints[..i + 1] == mints[..i] + [mint];
        assert mint !in mints[..i];
        negativeCache := negativeCache[mint := clock(mint).bookAt];
        merged := merged[mint := Booked(RulesFor(mint, useFallback))];
      }
      assert mints[..|mints|] == mints;
    }

    /** Each mint stands where PriceLayers says it does after this layer. */
    ghost predicate Reached(
        layer: Layer, mints: seq<string>, prices: map<string, real>, useFallback: bool,
        was: string -> Slot, w: string -> World)
      reads this
    {
      forall m :: m in mints ==>
        Priced(SlotOf(m), Lookup(prices, m)) == AfterLayer(layer, was(m), w(m), RulesFor(m, useFallback))
    }

    /** Jupiter's answers join the prices; the rest stays missing. */
    method AskJupiter(ghost mints: seq<string>, asked: seq<string>, known: map<string, real>,
        useFallback: bool, net: Net, ghost was: string -> Slot, ghost w: string -> World)
        returns (prices: map<string, real>, missing: seq<string>)
      requires Missing(asked, mints, known) && Reached(CacheLayer, mints, known, useFallback, was, w)
      requires forall m :: m in asked ==> w(m).clock == net.clock(m)
      requires forall m :: m in asked ==> w(m).jupiter == QuoteIn(JupiterQuotes(net, asked), m)
      modifies `priceCache, `negativeCache, `metaCache
      ensures OnlyChangedAmong(mints)
      ensures Missing(missing, mints, prices) && Reached(JupiterLayer, mints, prices, useFallback, was, w)
      ensures forall m :: m in missing <==> m in asked && !(Quotable(QuoteIn(JupiterQuotes(net, asked), m)))
    {
      var fetched := FetchJupiter(asked, net);
      prices, missing := MergeProviderPrices(asked, fetched, known);
    }

    /** Likewise CoinGecko. */
    method AskGecko(ghost mints: seq<string>, asked: seq<string>, known: map<string, real>,
        useFallback: bool, net: Net, ghost was: string -> Slot, ghost w: string -> World)
        returns (prices: map<string, real>, missing: seq<string>)
      requires Missing(asked, mints, known) && Reached(JupiterLayer, mints, known, useFallback, was, w)
      requires forall m :: m in asked ==> w(m).clock == net.clock(m)
      requires forall m :: m in asked ==>
          w(m).gecko == GeckoQuote(asked, net.gecko, 0, m) && w(m).geckoFailed == GeckoFails(asked, net.gecko, 0)
      modifies `priceCache, `negativeCache, `metaCache
      ensures OnlyChangedAmong(mints)
      ensures Missing(missing, mints, prices) && Reached(GeckoLayer, mints, prices, useFallback, was, w)
      ensures forall m :: m in missing <==> m in asked && !(Quotable(w(m).gecko) && !w(m).geckoFailed)
    {
      var fetched := FetchGecko(asked, net);
      prices, missing := MergeProviderPrices(asked, fetched, known);
    }

    /** Likewise Helius. */
    method AskHelius(ghost mints: seq<string>, asked: seq<string>, known: map<string, real>,
        useFallback: bool, net: Net, ghost was: string -> Slot, ghost w: string -> World)
        returns (prices: map<string, real>, missing: seq<string>)
      requires Missing(asked, mints, known) && Reached(GeckoLayer, mints, known, useFallback, was, w)
      requires forall m :: m in asked ==> w(m).clock == net.clock(m)
      requires forall m :: m in asked ==> w(m).helius == if heliusKey then QuoteIn(net.helius, m) else None
      modifies `priceCache, `negativeCache, `metaCache
      ensures OnlyChangedAmong(mints)
      ensures Missing(missing, mints, prices) && Reached(HeliusLayer, mints, prices, useFallback, was, w)
      ensures forall m :: m in missing <==> m in asked && !(Quotable(w(m).helius))
    {
      var fetched := FetchHelius(asked, net);
      prices, missing := MergeProviderPrices(asked, fetched, known);
    }

    /** Likewise the spot prices of the majors. */
    method AskMajorSpot(ghost mints: seq<string>, asked: seq<string>, known: map<string, real>,
        useFallback: bool, net: Net, ghost was: string -> Slot, ghost w: string -> World)
        returns (prices: map<string, real>, missing: seq<string>)
      requires Missing(asked, mints, known) && Reached(HeliusLayer, mints, known, useFallback, was, w)
      requires forall m :: m in asked ==> w(m).clock == net.clock(m)
      requires forall m :: m in asked ==> w(m).spot == if m in majors then QuoteIn(BodyOf(net.spot), m) else None
      modifies `priceCache, `negativeCache, `metaCache
      ensures OnlyChangedAmong(mints)
      ensures Missing(missing, mints, prices) && Reached(SpotLayer, mints, prices, useFallback, was, w)
      ensures forall m :: m in missing <==> m in asked && !(Quotable(w(m).spot))
    {
      var fetched := FetchMajorSpot(asked, net);
      prices, missing := MergeProviderPrices(asked, fetched, known);
    }

    method BookUnresolved(ghost mints: seq<string>, unresolved: seq<string>, known: map<string, real>,
        useFallback: bool, net: Net, ghost was: string -> Slot, ghost w: string -> World)
        returns (prices: map<string, real>)
      requires Missing(unresolved, mints, known) && Reached(SpotLayer, mints, known, useFallback, was, w)
      requires forall m :: m in unresolved ==> w(m).clock == net.clock(m)
      modifies `negativeCache
      ensures OnlyChangedAmong(mints)
      ensures forall m :: m in prices <==> m in mints
      ensures forall m :: m in mints ==>
          Answer(SlotOf(m), prices[m]) == Fetch(was(m), w(m), RulesFor(m, useFallback))
    {
      prices := ApplyFallbackForUnresolved(unresolved, known, useFallback, net.clock);
      forall m ensures m in prices <==> m in mints {
        assert m in prices <==> Lookup(prices, m).Some?;
      }
      forall m | m in mints
        ensures m in prices && Answer(SlotOf(m), prices[m]) == Fetch(was(m), w(m), RulesFor(m, useFallback))
      {
        FetchByLayers(was(m), w(m), RulesFor(m, useFallback));
        assert Lookup(prices, m) == Some(prices[m]);
      }
    }

    /**
     * One price request. askedJupiter and askedGecko are the lists those providers
     * were given; with them, every mint is answered as PriceLayers.Fetch says.
     */
    method FetchLayers(mints: seq<string>, useFallback: bool, net: Net)
        returns (prices: map<string, real>, ghost askedJupiter: seq<string>, ghost askedGecko: seq<string>)
      modifies `priceCache, `negativeCache, `metaCache
      ensures OnlyChangedAmong(mints)
      ensures forall m :: m in prices <==> m in mints
      ensures Distinct(askedJupiter) && Distinct(askedGecko)
      ensures forall m :: m in mints ==>
          Answer(SlotOf(m), prices[m]) ==
          Fetch(old(SlotOf(m)), WorldOf(net, m, askedJupiter, askedGecko), RulesFor(m, useFallback))
      ensures forall m :: m in askedJupiter <==>
          m in mints && Cached(old(SlotOf(m)), net.clock(m), RulesFor(m, useFallback)).usd.None?
      ensures forall m :: m in askedGecko <==>
          m in askedJupiter && !Quotable(QuoteIn(JupiterQuotes(net, askedJupiter), m))
    {
      ghost var was := m => old(SlotOf(m));
      var missing: seq<string>;
      prices, missing := ResolveCachedPrices(mints, net.clock, useFallback);
      askedJupiter := missing;
      // Which mints CoinGecko will be asked for is settled by Jupiter's answers.
      ghost var early := m => WorldOf(net, m, askedJupiter, []);
      prices, missing := AskJupiter(mints, missing, prices, useFallback, net, was, early);
      askedGecko := missing;
      ghost var w := m => WorldOf(net, m, askedJupiter, askedGecko);
      assert Reached(JupiterLayer, mints, prices, useFallback, was, w);
      prices, missing := AskGecko(mints, missing, prices, useFallback, net, was, w);
      prices, missing := AskHelius(mints, missing, prices, useFallback, net, was, w);
      prices, missing := AskMajorSpot(mints, missing, prices, useFallback, net, was, w);
      prices := BookUnresolved(mints, missing, prices, useFallback, net, was, w);
    }

    /**
     * The service's price request. Each requested mint's history grows by this request,
     * its answer is what that history gives, and without the fallback every answer is
     * zero or was supplied from outside at some point of the history.
     */
    method FetchTokenPrices(mints: seq<string>, useFallback: bool, net: Net) returns (prices: map<string, real>)
      requires Valid()
      modifies this
      ensures Valid()
      ensures forall m :: m in prices <==> m in mints
      ensures forall m :: m !in mints ==> history(m) == old(history(m))
      ensures forall m :: m in mints ==>
                Asked(old(history(m)), history(m), RulesFor(m, useFallback), net.clock(m), prices[m])
      ensures !useFallback ==> forall m :: m in mints ==> prices[m] == 0.0 || Supplied(history(m), prices[m])
    {
      ghost var askedJupiter, askedGecko;
      prices, askedJupiter, askedGecko := FetchLayers(mints, useFallback, net);
      ghost var was := history;
      ghost var step := m => Ask(WorldOf(net, m, askedJupiter, askedGecko), RulesFor(m, useFallback));
      history := m => if m in mints then was(m) + [step(m)] else was(m);
      forall m
        ensures SlotOf(m) == Run(history(m))
        ensures m in mints ==> Asked(was(m), history(m), RulesFor(m, useFallback), net.clock(m), prices[m])
        ensures m in mints && !useFallback ==> prices[m] == 0.0 || Supplied(history(m), prices[m])
      {
        if m in mints {
          RunMore(was(m), step(m));
          if !useFallback {
            NoFabricatedPrice(was(m), step(m).w, step(m).rules);
          }
        }
      }
    }

    method SetMetadata(mint: string, meta: MetaPrice)
      modifies `metaCache
      ensures SlotOf(mint) == old(SlotOf(mint)).(meta := Some(meta)) && OnlyChangedAmong([mint])
    {
      metaCache := metaCache[mint := meta];
    }

    /** Token metadata, with or without a price, is stored or seeded. */
    method RememberMetadata(mint: string, meta: MetaPrice)
      requires Valid()
      modifies this
      ensures Valid()
      ensures history(mint) == old(history(mint)) + [Remember(Some(meta))]
      ensures forall m :: m != mint ==> history(m) == old(history(m)) && SlotOf(m) == old(SlotOf(m))
    {
      ghost var was := history;
      SetMetadata(mint, meta);
      history := m => if m == mint then was(m) + [Remember(Some(meta))] else was(m);
      forall m
        ensures SlotOf(m) == Run(history(m))
      {
        assert was(m) == old(history(m)) && old(SlotOf(m)) == Run(was(m));
        if m == mint {
          RunMore(was(m), Remember(Some(meta)));
        }
      }
    }
  }
}
