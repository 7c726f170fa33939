/**
 * Grouping closed positions into trade units: a ladder pair sharing a pair id, or
 * a lone position. The map the loop fills keeps keys in first-insertion order.
 */
module TradeUnits {
  import opened Prelude
  import opened ClosedTrades

  datatype Position = Position(
    positionId: string, pnl: Pnl, depositedUsd: Option<real>,
    openedAt: int, closedAt: Option<int>, paperExitedAt: Option<int>)

  datatype Evidence = Evidence(cohort: string, pairId: Option<string>)

  type Entries = map<string, Evidence>

  datatype TradeUnit = TradeUnit(
    unitId: string, kind: string, legs: nat, deployedUsd: real,
    netPnlUsd: Option<real>, expectancyPct: Option<real>,
    complete: bool, missingOutcomes: nat, exposureMs: Option<int>)

  function PairOf(p: Position, enter: Entries): Option<string> {
    if p.positionId in enter then enter[p.positionId].pairId else None
  }

  function CohortOf(p: Position, enter: Entries): string {
    if p.positionId in enter then enter[p.positionId].cohort else "unknown"
  }

  /** The position points at another position's unit. */
  predicate Joins(p: Position, unitId: string, enter: Entries) {
    PairOf(p, enter) == Some(unitId) && unitId != p.positionId
  }

  function UnitKey(p: Position, enter: Entries): string {
    var pair := PairOf(p, enter);
    if pair.Some? && pair.value != p.positionId then pair.value else p.positionId
  }

  /**
   * A position's unit is the one its pair id names, if that is not itself; without a pair id, or
   * when it names itself, it is the position's own.
   */
  lemma UnitKeyExactly(p: Position, enter: Entries, unitId: string)
    ensures UnitKey(p, enter) == unitId <==>
        if p.positionId in enter && enter[p.positionId].pairId.Some?
        then enter[p.positionId].pairId.value == unitId
        else p.positionId == unitId
    ensures Joins(p, unitId, enter) <==> UnitKey(p, enter) == unitId && p.positionId != unitId
  {
  }

  predicate IsPair(unitId: string, legs: seq<Position>, enter: Entries) {
    exists leg :: leg in legs && Joins(leg, unitId, enter)
  }

  function Cohorts(legs: seq<Position>, enter: Entries): set<string> {
    set leg | leg in legs :: CohortOf(leg, enter)
  }

  predicate HasExpectedLegs(legs: seq<Position>, cohorts: set<string>, paired: bool) {
    if !paired then |legs| == 1 else |legs| == 2 && "tight" in cohorts && "wide" in cohorts
  }

  function PricedLegs(legs: seq<Position>): (r: seq<Position>)
    ensures |r| <= |legs|
    ensures |r| == |legs| ==> r == legs && forall p :: p in legs ==> p.pnl.Known?
  {
    if legs == [] then []
    else if legs[0].pnl.Known? then [legs[0]] + PricedLegs(legs[1..])
    else PricedLegs(legs[1..])
  }

  /** A position's contribution to a total; what is unknown contributes nothing. */
  function KnownPnl(p: Position): real {
    if p.pnl.Known? then p.pnl.usd else 0.0
  }

  function Deployed(p: Position): real {
    GetOr(p.depositedUsd, 0.0)
  }

  function One(p: Position): real {
    1.0
  }

  function Total(f: Position -> real, ps: seq<Position>): real {
    if ps == [] then 0.0 else f(ps[0]) + Total(f, ps[1..])
  }

  function LegExposure(leg: Position): Option<int> {
    var exitedAt := if leg.closedAt.Some? then leg.closedAt else leg.paperExitedAt;
    if exitedAt.None? || exitedAt.value < leg.openedAt then None
    else Some(exitedAt.value - leg.openedAt)
  }

  /** When the leg was left: closed, or else exited on paper. */
  function LeftAt(leg: Position): Option<int> {
    OrElse(leg.closedAt, leg.paperExitedAt)
  }

  /** The leg's times can be used: it was left, and not before it was opened. */
  predicate Timed(leg: Position) {
    LeftAt(leg).Some? && leg.openedAt <= LeftAt(leg).value
  }

  lemma ExposureIs(leg: Position)
    ensures LegExposure(leg) == if Timed(leg) then Some(LeftAt(leg).value - leg.openedAt) else None
  {
  }

  function MaxExposure(legs: seq<Position>): Option<int> {
    if legs == [] then Some(0)
    else
      var before, last := MaxExposure(legs[..|legs| - 1]), LegExposure(legs[|legs| - 1]);
      if before.None? || last.None? then None
      else Some(if before.value < last.value then last.value else before.value)
  }

  lemma {:induction false} MaxExposureMeaning(legs: seq<Position>)
    ensures MaxExposure(legs).Some? <==> forall leg :: leg in legs ==> Timed(leg)
    ensures MaxExposure(legs).Some? ==>
        forall leg :: leg in legs ==> 0 <= LeftAt(leg).value - leg.openedAt <= MaxExposure(legs).value
    ensures MaxExposure(legs).Some? && legs != [] ==>
        exists leg :: leg in legs && LeftAt(leg).value - leg.openedAt == MaxExposure(legs).value
  {
    if legs == [] {
    } else {
      var init, last := legs[..|legs| - 1], legs[|legs| - 1];
      MaxExposureMeaning(init);
      ExposureIs(last);
      assert legs == init + [last];
      if init == [] {
        assert last in legs;
      }
    }
  }

  /** The longest a leg was exposed; none when some leg's times are unusable. */
  method ExposureTime(legs: seq<Position>) returns (ms: Option<int>)
    ensures ms == MaxExposure(legs)
  {
    var maxAge := 0;
    var i := 0;
    while i < |legs|
      invariant 0 <= i <= |legs|
      invariant MaxExposure(legs[..i]) == Some(maxAge)
    {
      assert legs[..i + 1][..i] == legs[..i];
      if LegExposure(legs[i]).None? {
        ExposureIs(legs[i]);
        MaxExposureMeaning(legs);
        assert legs[i] in legs;
        return None;
      }
      if LegExposure(legs[i]).value > maxAge {
        maxAge := LegExposure(legs[i]).value;
      }
      i := i + 1;
    }
    assert legs[..|legs|] == legs;
    ms := Some(maxAge);
  }

  function BuildUnit(unitId: string, legs: seq<Position>, enter: Entries): TradeUnit {
    var paired := IsPair(unitId, legs, enter);
    var cohorts := Cohorts(legs, enter);
    var priced := PricedLegs(legs);
    var deployed := Total(Deployed, legs);
    var expected := if paired then 2 else 1;
    var complete := HasExpectedLegs(legs, cohorts, paired) && |priced| == |legs|;
    var net := Total(KnownPnl, priced);
    TradeUnit(
      unitId,
      if paired then "split" else if legs == [] then "unknown" else CohortOf(legs[0], enter),
      |legs|,
      deployed,
      if complete then Some(net) else None,
      if complete && deployed > 0.0 then Some(net / deployed * 100.0) else None,
      complete,
      if expected > |priced| then expected - |priced| else 0,
      if complete then MaxExposure(legs) else None)
  }

  /** The positions one unit collects, in ledger order. */
  function LegsOf(ps: seq<Position>, unitId: string, enter: Entries): seq<Position> {
    if ps == [] then []
    else
      var before, last := LegsOf(ps[..|ps| - 1], unitId, enter), ps[|ps| - 1];
      if UnitKey(last, enter) == unitId then before + [last] else before
  }

  lemma {:induction false} LegsAreThePositions(ps: seq<Position>, unitId: string, enter: Entries)
    ensures forall p :: p in LegsOf(ps, unitId, enter) <==> p in ps && UnitKey(p, enter) == unitId
  {
    if ps == [] {
    } else {
      LegsAreThePositions(ps[..|ps| - 1], unitId, enter);
      assert ps == ps[..|ps| - 1] + [ps[|ps| - 1]];
    }
  }

  lemma LegsAppend(ps: seq<Position>, p: Position, unitId: string, enter: Entries)
    ensures LegsOf(ps + [p], unitId, enter) ==
            LegsOf(ps, unitId, enter) + if UnitKey(p, enter) == unitId then [p] else []
  {
    assert (ps + [p])[..|ps + [p]| - 1] == ps;
  }

  /** The units built for the given ids, as the grouping returns them. */
  ghost predicate BuiltFrom(units: seq<TradeUnit>, ps: seq<Position>, enter: Entries) {
    forall i :: 0 <= i < |units| ==>
      units[i] == BuildUnit(units[i].unitId, LegsOf(ps, units[i].unitId, enter), enter)
  }

  /** The keys are the map's, each once, and no list is empty. */
  ghost predicate KeysOf(keys: seq<string>, legsByUnit: map<string, seq<Position>>) {
    && Distinct(keys)
    && (forall k :: k in keys <==> k in legsByUnit)
    && (forall k :: k in legsByUnit ==> legsByUnit[k] != [])
  }

  /** What the map holds for a unit; nothing when the unit has not been seen. */
  function Listed(legsByUnit: map<string, seq<Position>>, unitId: string): seq<Position> {
    if unitId in legsByUnit then legsByUnit[unitId] else []
  }

  /** The map lists every unit's legs, as far as the positions go. */
  ghost predicate Collected(ps: seq<Position>, legsByUnit: map<string, seq<Position>>, enter: Entries) {
    forall k :: Listed(legsByUnit, k) == LegsOf(ps, k, enter)
  }

  lemma KeysGrow(keys: seq<string>, legsByUnit: map<string, seq<Position>>, key: string, legs: seq<Position>)
    requires KeysOf(keys, legsByUnit) && legs != []
    ensures KeysOf(if key in legsByUnit then keys else keys + [key], legsByUnit[key := legs])
  {
  }

  lemma PushLeg(ps: seq<Position>, i: nat, before: map<string, seq<Position>>, enter: Entries)
    requires i < |ps| && Collected(ps[..i], before, enter)
    ensures var key := UnitKey(ps[i], enter);
      Collected(ps[..i + 1], before[key := Listed(before, key) + [ps[i]]], enter)
  {
    var key := UnitKey(ps[i], enter);
    var after := before[key := Listed(before, key) + [ps[i]]];
    forall k ensures Listed(after, k) == LegsOf(ps[..i + 1], k, enter) {
      assert ps[..i + 1] == ps[..i] + [ps[i]];
      LegsAppend(ps[..i], ps[i], k, enter);
    }
  }

  /** Keys and lists after some of the positions. */
  ghost predicate Gathered(
      ps: seq<Position>, keys: seq<string>, legsByUnit: map<string, seq<Position>>, enter: Entries) {
    KeysOf(keys, legsByUnit) && Collected(ps, legsByUnit, enter)
  }

  lemma GatherNone(enter: Entries)
    ensures Gathered([], [], map[], enter)
  {
  }

  lemma GatherOne(
      ps: seq<Position>, i: nat, keys: seq<string>, legsByUnit: map<string, seq<Position>>, enter: Entries)
    requires i < |ps| && Gathered(ps[..i], keys, legsByUnit, enter)
    ensures var key := UnitKey(ps[i], enter);
      Gathered(ps[..i + 1], if key in legsByUnit then keys else keys + [key],
               legsByUnit[key := Listed(legsByUnit, key) + [ps[i]]], enter)
  {
    var key := UnitKey(ps[i], enter);
    KeysGrow(keys, legsByUnit, key, Listed(legsByUnit, key) + [ps[i]]);
    PushLeg(ps, i, legsByUnit, enter);
  }

  /** The loop that pushes every position onto its unit's list. */
  method CollectLegs(positions: seq<Position>, enter: Entries)
      returns (keys: seq<string>, legsByUnit: map<string, seq<Position>>)
    ensures Gathered(positions, keys, legsByUnit, enter)
  {
    keys, legsByUnit := [], map[];
    GatherNone(enter);
    assert positions[..0] == [];
    var i := 0;
    while i < |positions|
      invariant 0 <= i <= |positions|
      invariant Gathered(positions[..i], keys, legsByUnit, enter)
    {
      var pos := positions[i];
      var key := UnitKey(pos, enter);
      var legs := Listed(legsByUnit, key) + [pos];
      GatherOne(positions, i, keys, legsByUnit, enter);
      keys := if key in legsByUnit then keys else keys + [key];
      legsByUnit := legsByUnit[key := legs];
      i := i + 1;
    }
    assert positions[..|positions|] == positions;
  }

  lemma KeyOfPosition(ps: seq<Position>, p: Position, enter: Entries, keys: seq<string>)
    requires p in ps
    requires forall k :: k !in keys ==> LegsOf(ps, k, enter) == []
    ensures UnitKey(p, enter) in keys
  {
    LegsAreThePositions(ps, UnitKey(p, enter), enter);
    assert p in LegsOf(ps, UnitKey(p, enter), enter);
  }

  /** A non-empty unit for each of these keys, in order. */
  ghost predicate UnitsOf(units: seq<TradeUnit>, keys: seq<string>, ps: seq<Position>, enter: Entries) {
    && |units| == |keys| && BuiltFrom(units, ps, enter)
    && forall i :: 0 <= i < |units| ==> units[i].unitId == keys[i] && units[i].legs > 0
  }

  lemma UnitOfKey(
      units: seq<TradeUnit>, keys: seq<string>, u: nat, legsByUnit: map<string, seq<Position>>, ps: seq<Position>,
      enter: Entries)
    requires u < |keys| && UnitsOf(units, keys[..u], ps, enter) && Gathered(ps, keys, legsByUnit, enter)
    ensures keys[u] in legsByUnit
    ensures UnitsOf(units + [BuildUnit(keys[u], legsByUnit[keys[u]], enter)], keys[..u + 1], ps, enter)
  {
    var legs := legsByUnit[keys[u]];
    assert legs == Listed(legsByUnit, keys[u]) == LegsOf(ps, keys[u], enter) && legs != [];
    var unit := BuildUnit(keys[u], legs, enter);
    assert unit.unitId == keys[u] && unit.legs == |legs|;
  }

  lemma EveryPositionHasUnit(
      units: seq<TradeUnit>, keys: seq<string>, legsByUnit: map<string, seq<Position>>, ps: seq<Position>,
      enter: Entries)
    requires UnitsOf(units, keys, ps, enter) && Gathered(ps, keys, legsByUnit, enter)
    ensures forall p :: p in ps ==> exists i :: 0 <= i < |units| && units[i].unitId == UnitKey(p, enter)
  {
    forall k | k !in keys
      ensures LegsOf(ps, k, enter) == []
    {
      assert Listed(legsByUnit, k) == [];
    }
    forall p | p in ps
      ensures exists i :: 0 <= i < |units| && units[i].unitId == UnitKey(p, enter)
    {
      KeyOfPosition(ps, p, enter, keys);
      var i :| 0 <= i < |keys| && keys[i] == UnitKey(p, enter);
      assert units[i].unitId == UnitKey(p, enter);
    }
  }

  method GroupClosedTradeUnits(positions: seq<Position>, enter: Entries) returns (units: seq<TradeUnit>)
    ensures forall i, j :: 0 <= i < j < |units| ==> units[i].unitId != units[j].unitId
    ensures BuiltFrom(units, positions, enter)
    ensures forall i :: 0 <= i < |units| ==> units[i].legs > 0
    ensures forall p :: p in positions ==> exists i :: 0 <= i < |units| && units[i].unitId == UnitKey(p, enter)
  {
    var keys, legsByUnit := CollectLegs(positions, enter);
    units := [];
    for u := 0 to |keys|
      invariant UnitsOf(units, keys[..u], positions, enter)
    {
      UnitOfKey(units, keys, u, legsByUnit, positions, enter);
      units := units + [BuildUnit(keys[u], legsByUnit[keys[u]], enter)];
    }
    assert keys[..|keys|] == keys;
    EveryPositionHasUnit(units, keys, legsByUnit, positions, enter);
  }

  // ---- Each unit ----

  /** A unit reports a net exactly when it is complete, and then it is the sum of its legs. */
  lemma CompleteUnit(unitId: string, legs: seq<Position>, enter: Entries)
    ensures var u := BuildUnit(unitId, legs, enter);
      && (u.netPnlUsd.Some? <==> u.complete)
      && (u.expectancyPct.Some? <==> u.complete && u.deployedUsd > 0.0)
      && (u.expectancyPct.Some? ==> u.expectancyPct.value * u.deployedUsd == 100.0 * u.netPnlUsd.value)
      && (u.kind == "split" <== IsPair(unitId, legs, enter))
      && u.exposureMs == (if u.complete then MaxExposure(legs) else None)
      && (u.complete ==>
            && u.missingOutcomes == 0
            && (forall leg :: leg in legs ==> leg.pnl.Known?)
            && u.netPnlUsd == Some(Total(KnownPnl, legs)))
  {
    var u := BuildUnit(unitId, legs, enter);
    if u.complete {
      assert PricedLegs(legs) == legs;
      if u.deployedUsd > 0.0 {
        assert u.netPnlUsd.value / u.deployedUsd * u.deployedUsd == u.netPnlUsd.value;
      }
    }
  }

  /** How many legs have a known outcome. */
  function KnownCount(legs: seq<Position>): nat {
    if legs == [] then 0
    else KnownCount(legs[..|legs| - 1]) + if legs[|legs| - 1].pnl.Known? then 1 else 0
  }

  lemma {:induction false} PricedLegsConcat(a: seq<Position>, b: seq<Position>)
    ensures PricedLegs(a + b) == PricedLegs(a) + PricedLegs(b)
  {
    if a == [] {
      assert a + b == b;
    } else {
      assert (a + b)[0] == a[0] && (a + b)[1..] == a[1..] + b;
      PricedLegsConcat(a[1..], b);
    }
  }

  lemma {:induction false} PricedCount(legs: seq<Position>)
    ensures |PricedLegs(legs)| == KnownCount(legs)
  {
    if legs == [] {
    } else {
      var init, last := legs[..|legs| - 1], legs[|legs| - 1];
      assert legs == init + [last] && [last][1..] == [];
      PricedLegsConcat(init, [last]);
      PricedCount(init);
    }
  }

  lemma UnitSays(unitId: string, legs: seq<Position>, enter: Entries)
    ensures var u := BuildUnit(unitId, legs, enter);
      && u.missingOutcomes == Max(0, (if IsPair(unitId, legs, enter) then 2 else 1) - |PricedLegs(legs)|)
      && u.legs == |legs| && u.unitId == unitId
      && (IsPair(unitId, legs, enter) ==> u.kind == "split")
      && (!IsPair(unitId, legs, enter) && legs != [] ==> u.kind == CohortOf(legs[0], enter))
  {
  }

  /** The outcomes missing from a unit: of two when some leg joins it from elsewhere, of one otherwise. */
  lemma MissingExactly(unitId: string, legs: seq<Position>, enter: Entries)
    ensures BuildUnit(unitId, legs, enter).missingOutcomes
         == Max(0, (if IsPair(unitId, legs, enter) then 2 else 1) - KnownCount(legs))
  {
    UnitSays(unitId, legs, enter);
    PricedCount(legs);
  }

  /** The position's own entry says that it is of this cohort. */
  predicate EnteredAs(p: Position, enter: Entries, cohort: string) {
    p.positionId in enter && enter[p.positionId].cohort == cohort
  }

  /** A complete split unit is one tight leg and one wide leg. */
  lemma CompleteSplit(unitId: string, legs: seq<Position>, enter: Entries)
    requires BuildUnit(unitId, legs, enter).complete && IsPair(unitId, legs, enter)
    ensures |legs| == 2
    ensures {CohortOf(legs[0], enter), CohortOf(legs[1], enter)} == {"tight", "wide"}
    ensures || (EnteredAs(legs[0], enter, "tight") && EnteredAs(legs[1], enter, "wide"))
            || (EnteredAs(legs[0], enter, "wide") && EnteredAs(legs[1], enter, "tight"))
  {
    assert "tight" in Cohorts(legs, enter) && "wide" in Cohorts(legs, enter);
    assert forall leg :: leg in legs ==> leg == legs[0] || leg == legs[1];
  }

  /** Nothing missing is not yet complete: two priced legs of one cohort. */
  lemma NothingMissingYetIncomplete()
    ensures exists legs: seq<Position>, enter: Entries ::
        var u := BuildUnit("a", legs, enter);
        u.missingOutcomes == 0 && !u.complete && u.netPnlUsd == None
  {
    var a := Position("a", Known(1.0), Some(10.0), 0, Some(5), None);
    var b := a.(positionId := "b");
    var enter: Entries := map["a" := Evidence("tight", None), "b" := Evidence("tight", Some("a"))];
    var legs := [a, b];
    assert b in legs && Joins(b, "a", enter);
    assert PricedLegs(legs[1..]) == [b];
    assert "wide" !in Cohorts(legs, enter);
    var u := BuildUnit("a", legs, enter);
    assert u.missingOutcomes == 0 && !u.complete && u.netPnlUsd == None;
  }

  /** A unit is complete exactly when nothing is missing and it has its one leg, or one of each cohort. */
  lemma CompleteExactly(unitId: string, legs: seq<Position>, enter: Entries)
    ensures BuildUnit(unitId, legs, enter).complete
      <==> && BuildUnit(unitId, legs, enter).missingOutcomes == 0
           && (if IsPair(unitId, legs, enter)
               then |legs| == 2 && {CohortOf(legs[0], enter), CohortOf(legs[1], enter)} == {"tight", "wide"}
               else |legs| == 1)
  {
    if IsPair(unitId, legs, enter) {
      if BuildUnit(unitId, legs, enter).complete {
        CompleteSplit(unitId, legs, enter);
      } else if |legs| == 2 && {CohortOf(legs[0], enter), CohortOf(legs[1], enter)} == {"tight", "wide"} {
        assert "tight" in {CohortOf(legs[0], enter), CohortOf(legs[1], enter)};
        assert "wide" in {CohortOf(legs[0], enter), CohortOf(legs[1], enter)};
        assert legs[0] in legs && legs[1] in legs;
      }
    }
  }

  // ---- The grouping as a partition ----

  lemma {:induction false} AtMostOneLeg(ps: seq<Position>, unitId: string, enter: Entries, p: Position)
    requires forall i, j :: 0 <= i < j < |ps| ==> ps[i].positionId != ps[j].positionId
    requires forall q :: q in LegsOf(ps, unitId, enter) ==> q == p
    ensures LegsOf(ps, unitId, enter) == if p in ps && UnitKey(p, enter) == unitId then [p] else []
  {
    if ps == [] {
    } else {
      var init, last := ps[..|ps| - 1], ps[|ps| - 1];
      LegsAreThePositions(ps, unitId, enter);
      LegsAreThePositions(init, unitId, enter);
      assert ps == init + [last];
      AtMostOneLeg(init, unitId, enter, p);
      assert p in init ==> p != last;
    }
  }

  /** A unit nobody joins from elsewhere has exactly one leg, when position ids are unique. */
  lemma UnpairedUnitIsOneLeg(ps: seq<Position>, unitId: string, enter: Entries)
    requires forall i, j :: 0 <= i < j < |ps| ==> ps[i].positionId != ps[j].positionId
    requires exists p :: p in ps && UnitKey(p, enter) == unitId
    requires !IsPair(unitId, LegsOf(ps, unitId, enter), enter)
    ensures exists p :: p in ps && p.positionId == unitId && LegsOf(ps, unitId, enter) == [p]
  {
    var p :| p in ps && UnitKey(p, enter) == unitId;
    LegsAreThePositions(ps, unitId, enter);
    assert p in LegsOf(ps, unitId, enter);
    forall q | q in LegsOf(ps, unitId, enter) ensures q.positionId == unitId && q == p {
      assert !Joins(q, unitId, enter) && !Joins(p, unitId, enter);
    }
    AtMostOneLeg(ps, unitId, enter, p);
  }

  /** The sum of f over a set of units, each unit summed over its own legs. */
  function UnitTotals(f: Position -> real, ps: seq<Position>, ids: seq<string>, enter: Entries): real {
    if ids == [] then 0.0
    else Total(f, LegsOf(ps, ids[0], enter)) + UnitTotals(f, ps, ids[1..], enter)
  }

  lemma {:induction false} NothingToTotal(f: Position -> real, ids: seq<string>, enter: Entries)
    ensures UnitTotals(f, [], ids, enter) == 0.0
  {
    if ids == [] {
    } else {
      NothingToTotal(f, ids[1..], enter);
    }
  }

  lemma {:induction false} TotalAppend(f: Position -> real, ps: seq<Position>, p: Position)
    ensures Total(f, ps + [p]) == Total(f, ps) + f(p)
  {
    if ps == [] {
      assert ps + [p] == [p];
    } else {
      TotalAppend(f, ps[1..], p);
      assert (ps + [p])[1..] == ps[1..] + [p];
    }
  }

  lemma {:induction false} OnePositionMore(
      f: Position -> real, ps: seq<Position>, p: Position, ids: seq<string>, enter: Entries)
    requires Distinct(ids)
    ensures UnitTotals(f, ps + [p], ids, enter) ==
            UnitTotals(f, ps, ids, enter) + if UnitKey(p, enter) in ids then f(p) else 0.0
  {
    if ids == [] {
    } else {
      assert ids == [ids[0]] + ids[1..];
      OnePositionMore(f, ps, p, ids[1..], enter);
      assert (ps + [p])[..|ps + [p]| - 1] == ps;
      assert (ps + [p])[|ps + [p]| - 1] == p;
      TotalAppend(f, LegsOf(ps, ids[0], enter), p);
    }
  }

  /** Distinct units that cover every position account for each position exactly once. */
  lemma {:induction false} UnitsPartitionPositions(
      f: Position -> real, ps: seq<Position>, ids: seq<string>, enter: Entries)
    requires Distinct(ids)
    requires forall p :: p in ps ==> UnitKey(p, enter) in ids
    ensures UnitTotals(f, ps, ids, enter) == Total(f, ps)
  {
    if ps == [] {
      NothingToTotal(f, ids, enter);
    } else {
      var init, last := ps[..|ps| - 1], ps[|ps| - 1];
      assert ps == init + [last];
      UnitsPartitionPositions(f, init, ids, enter);
      TotalAppend(f, init, last);
      OnePositionMore(f, init, last, ids, enter);
    }
  }

  function Ids(units: seq<TradeUnit>): seq<string> {
    seq(|units|, i requires 0 <= i < |units| => units[i].unitId)
  }

  function LegCount(units: seq<TradeUnit>): nat {
    if units == [] then 0 else units[0].legs + LegCount(units[1..])
  }

  function DeployedTotal(units: seq<TradeUnit>): real {
    if units == [] then 0.0 else units[0].deployedUsd + DeployedTotal(units[1..])
  }

  function NetTotal(units: seq<TradeUnit>): real {
    if units == [] then 0.0 else GetOr(units[0].netPnlUsd, 0.0) + NetTotal(units[1..])
  }

  lemma {:induction false} CountOnes(ps: seq<Position>)
    ensures Total(One, ps) == |ps| as real
  {
    if ps == [] {
    } else {
      CountOnes(ps[1..]);
    }
  }

  lemma UnitSum(u: TradeUnit, ps: seq<Position>, enter: Entries)
    requires u == BuildUnit(u.unitId, LegsOf(ps, u.unitId, enter), enter)
    ensures var legs := LegsOf(ps, u.unitId, enter);
      && u.legs as real == Total(One, legs) && u.deployedUsd == Total(Deployed, legs)
      && (u.complete ==> u.netPnlUsd == Some(Total(KnownPnl, legs)))
  {
    CountOnes(LegsOf(ps, u.unitId, enter));
    CompleteUnit(u.unitId, LegsOf(ps, u.unitId, enter), enter);
  }

  lemma {:induction false} UnitSums(units: seq<TradeUnit>, ps: seq<Position>, enter: Entries)
    requires BuiltFrom(units, ps, enter)
    ensures LegCount(units) as real == UnitTotals(One, ps, Ids(units), enter)
    ensures DeployedTotal(units) == UnitTotals(Deployed, ps, Ids(units), enter)
    ensures (forall u :: u in units ==> u.complete) ==>
        NetTotal(units) == UnitTotals(KnownPnl, ps, Ids(units), enter)
  {
    if units == [] {
    } else {
      UnitSums(units[1..], ps, enter);
      assert Ids(units)[1..] == Ids(units[1..]);
      UnitSum(units[0], ps, enter);
      assert units[0] in units;
    }
  }

  /** The same positions as the statistics read them. */
  function Rows(ps: seq<Position>): seq<Closed> {
    if ps == [] then [] else [Closed(ps[0].pnl, ps[0].closedAt, ps[0].paperExitedAt)] + Rows(ps[1..])
  }

  lemma {:induction false} NetOfRows(ps: seq<Position>)
    ensures Sum(Priced(Rows(ps))) == Total(KnownPnl, ps)
  {
    if ps == [] {
    } else {
      NetOfRows(ps[1..]);
      assert Rows(ps)[1..] == Rows(ps[1..]);
    }
  }

  /**
   * Leg counts and deployed capital add up to the whole ledger; when every unit is
   * complete, their nets add up to the net of all closed trades.
   */
  lemma GroupingConserves(units: seq<TradeUnit>, ps: seq<Position>, enter: Entries)
    requires BuiltFrom(units, ps, enter)
    requires forall i, j :: 0 <= i < j < |units| ==> units[i].unitId != units[j].unitId
    requires forall p :: p in ps ==> exists i :: 0 <= i < |units| && units[i].unitId == UnitKey(p, enter)
    ensures LegCount(units) == |ps|
    ensures DeployedTotal(units) == Total(Deployed, ps)
    ensures (forall u :: u in units ==> u.complete) ==> NetTotal(units) == Sum(Priced(Rows(ps)))
  {
    var ids := Ids(units);
    forall p | p in ps ensures UnitKey(p, enter) in ids {
      var i :| 0 <= i < |units| && units[i].unitId == UnitKey(p, enter);
      assert ids[i] == UnitKey(p, enter);
    }
    UnitSums(units, ps, enter);
    UnitsPartitionPositions(One, ps, ids, enter);
    UnitsPartitionPositions(Deployed, ps, ids, enter);
    UnitsPartitionPositions(KnownPnl, ps, ids, enter);
    CountOnes(ps);
    NetOfRows(ps);
  }
}
