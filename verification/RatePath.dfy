/** The tier-major, hop-minor search for a conversion path, and its meaning: the least of all
    admissible paths. */
module RatePath {
  import opened Common
  import opened RateTable
  import opened SourceChain

  datatype Tier = Fresh | Closest
  datatype Side = Buy | Sell | Mid

  datatype RateStep = RateStep(
    currencyFrom: string,
    currencyTo: string,
    source: string,
    rateId: Id,
    rate: real,
    side: Side,
    tier: Tier,
    proximitySeconds: int,
    divide: bool)

  const POLL_INTERVAL_TOLERANCE: int := 2
  const MAX_CLOSEST_RATE_AGE: int := 7 * 86_400 * SECOND

  /** Everything a path search reads: the rate table, the source chain and the transaction time. */
  datatype Market = Market(table: Table, chain: seq<SourceConfig>, atTime: int)

  // ---------------------------------------------------------------- the two queries

  /** `find_fresh_rate`. The query orders by valid_from alone; where two fresh rows tie, the id stands for whichever
      the database returns. No two polled rows of a pair tie if no two observations that changed its rates carry
      the same time, as with polls in order of distinct times. */
  function FreshRanks(m: Market, k: Key): map<Id, seq<int>> {
    map id | id in m.table && IsFresh(m.table[id], k, m.atTime, POLL_INTERVAL_TOLERANCE) :: [-m.table[id].validFrom, id]
  }

  /** Distance from the transaction to the interval in which the row is confirmed live. */
  function Proximity(row: RateRow, t: int): int {
    match row.lastPolledAt
    case Some(polled) =>
      if row.validFrom <= t <= polled then 0
      else if t > polled then t - polled
      else row.validFrom - t
    case None => if row.validFrom - t >= t - row.validFrom then row.validFrom - t else t - row.validFrom
  }

  /** When was the row's rate confirmed: from its start to its last poll, or just at its publication. */
  predicate LiveAt(row: RateRow, t: int) {
    row.validFrom <= t <= GetOr(row.lastPolledAt, row.validFrom)
  }

  /** The proximity is the distance to the nearest instant at which the row is live. */
  lemma ProximityIsDistance(row: RateRow, t: int)
    requires LiveAt(row, row.validFrom)
    ensures exists s :: LiveAt(row, s) && Abs(s - t) == Proximity(row, t)
    ensures forall s :: LiveAt(row, s) ==> Proximity(row, t) <= Abs(s - t)
  {
    var end := GetOr(row.lastPolledAt, row.validFrom);
    var nearest := if t < row.validFrom then row.validFrom else if t > end then end else t;
    assert LiveAt(row, nearest) && Abs(nearest - t) == Proximity(row, t);
  }

  /** array_position: where the source first occurs in the chain. */
  function Position(chain: seq<SourceConfig>, source: string): (p: nat)
    ensures p <= |chain|
    ensures p < |chain| ==> chain[p].source == source
    ensures forall i :: 0 <= i < p ==> chain[i].source != source
  {
    if chain == [] then 0
    else if chain[0].source == source then 0
    else 1 + Position(chain[1..], source)
  }

  predicate IsClose(m: Market, row: RateRow, currencyFrom: string, currencyTo: string) {
    && row.key.currencyFrom == currencyFrom && row.key.currencyTo == currencyTo
    && Position(m.chain, row.key.source) < |m.chain|
    && Proximity(row, m.atTime) <= MAX_CLOSEST_RATE_AGE
  }

  /** `find_closest_rate`: nearest first, then chain order, then polled before historical, then id. */
  function CloseRanks(m: Market, currencyFrom: string, currencyTo: string): map<Id, seq<int>> {
    map id | id in m.table && IsClose(m, m.table[id], currencyFrom, currencyTo) ::
      [Proximity(m.table[id], m.atTime), Position(m.chain, m.table[id].key.source),
       if m.table[id].lastPolledAt.None? then 1 else 0, id]
  }

  lemma FreshUntied(m: Market, k: Key)
    ensures Untied(FreshRanks(m, k))
  {
    assert forall id :: id in FreshRanks(m, k) ==> FreshRanks(m, k)[id][1] == id;
  }

  lemma CloseUntied(m: Market, currencyFrom: string, currencyTo: string)
    ensures Untied(CloseRanks(m, currencyFrom, currencyTo))
  {
    var ranks := CloseRanks(m, currencyFrom, currencyTo);
    assert forall id :: id in ranks ==> ranks[id][3] == id;
  }

  function FindFresh(m: Market, k: Key): (r: Option<Id>)
    ensures r.None? ==> FreshRanks(m, k) == map[]
    ensures r.Some? ==> IsLeast(FreshRanks(m, k), r.value)
  {
    FreshUntied(m, k);
    if FreshRanks(m, k) == map[] then None else Some(Least(FreshRanks(m, k)))
  }

  function FindClosest(m: Market, currencyFrom: string, currencyTo: string): (r: Option<Id>)
    ensures r.None? ==> CloseRanks(m, currencyFrom, currencyTo) == map[]
    ensures r.Some? ==> IsLeast(CloseRanks(m, currencyFrom, currencyTo), r.value)
  {
    CloseUntied(m, currencyFrom, currencyTo);
    if CloseRanks(m, currencyFrom, currencyTo) == map[] then None
        else Some(Least(CloseRanks(m, currencyFrom, currencyTo)))
  }

  /** A rate is fresh while the interval that covers the transaction was polled at most two cadences before it. */
  lemma FreshIff(m: Market, k: Key, id: Id)
    requires id in m.table && m.table[id].key == k
    ensures var row := m.table[id];
            id in FreshRanks(m, k) <==>
              && row.lastPolledAt.Some? && row.updateCadenceSeconds.Some?
              && row.validFrom <= m.atTime && (row.validTo.None? || m.atTime < row.validTo.value)
              && m.atTime - row.lastPolledAt.value <= 2 * row.updateCadenceSeconds.value * SECOND
  {
  }

  // ---------------------------------------------------------------- one leg

  /** Liquidation side: the bank buys on a direct step and sells on a reverse one; a missing side falls
      back to mid, never to the opposite side. */
  function PickRate(rates: Rates, divide: bool): (real, Side) {
    var preferred := if divide then rates.sell else rates.buy;
    match preferred
    case Some(rate) => (rate, if divide then Sell else Buy)
    case None => (rates.mid, Mid)
  }

  /** EXTRACT(EPOCH FROM interval)::BIGINT on a non-negative interval. */
  function EpochSeconds(interval: int): int {
    (interval + SECOND / 2) / SECOND
  }

  /** The number of seconds shown is the nearest one, the later on a tie. */
  lemma EpochSecondsIsNearest(interval: int)
    requires interval >= 0
    ensures var shown := EpochSeconds(interval) * 1_000_000;
            0 <= shown && -500_000 < shown - interval <= 500_000
  {
  }

  function StepOf(m: Market, legFrom: string, legTo: string, tier: Tier, id: Id, divide: bool): RateStep
    requires id in m.table
  {
    var row := m.table[id];
    var (rate, side) := PickRate(row.rates, divide);
    RateStep(legFrom, legTo, row.key.source, id, rate, side, tier,
             if tier.Fresh? then 0 else EpochSeconds(Proximity(row, m.atTime)), divide)
  }

  /** The pair to look up for a leg: swapped when the rate is applied in reverse. */
  function Query(legFrom: string, legTo: string, divide: bool): (string, string) {
    if divide then (legTo, legFrom) else (legFrom, legTo)
  }

  function TryFresh(m: Market, source: string, legFrom: string, legTo: string, divide: bool): Option<Id> {
    var q := Query(legFrom, legTo, divide);
    FindFresh(m, Key(source, q.0, q.1))
  }

  /** A row and the direction it is applied in. */
  datatype Leg = Leg(id: Id, divide: bool)

  /** Chain order is major, direct before reverse is minor. */
  function FreshLeg(m: Market, legFrom: string, legTo: string, i: nat): Option<Leg>
    requires i <= |m.chain|
    decreases |m.chain| - i
  {
    if i == |m.chain| then None
    else
      var direct := TryFresh(m, m.chain[i].source, legFrom, legTo, false);
      if direct.Some? then Some(Leg(direct.value, false))
      else
        var reverse := TryFresh(m, m.chain[i].source, legFrom, legTo, true);
        if reverse.Some? then Some(Leg(reverse.value, true)) else FreshLeg(m, legFrom, legTo, i + 1)
  }

  function ClosestLeg(m: Market, legFrom: string, legTo: string): Option<Leg> {
    var direct := FindClosest(m, legFrom, legTo);
    if direct.Some? then Some(Leg(direct.value, false))
    else
      var reverse := FindClosest(m, legTo, legFrom);
      if reverse.Some? then Some(Leg(reverse.value, true)) else None
  }

  function ResolveLeg(m: Market, legFrom: string, legTo: string, tier: Tier): Option<Leg> {
    if tier.Closest? then ClosestLeg(m, legFrom, legTo) else FreshLeg(m, legFrom, legTo, 0)
  }

  // ---------------------------------------------------------------- the search

  /** A path by its rows: one leg, or two through the pivot at the given position. */
  datatype Route = OneHop(tier: Tier, leg: Leg) | TwoHop(tier: Tier, pivot: nat, left: Leg, right: Leg)

  function ThroughPivots(m: Market, src: string, tgt: string, pivots: seq<string>, j: nat, tier: Tier): Option<Route>
    requires j <= |pivots|
    decreases |pivots| - j
  {
    if j == |pivots| then None
    else if pivots[j] == src || pivots[j] == tgt then ThroughPivots(m, src, tgt, pivots, j + 1, tier)
    else
      var left := ResolveLeg(m, src, pivots[j], tier);
      if left.None? then ThroughPivots(m, src, tgt, pivots, j + 1, tier)
      else
        var right := ResolveLeg(m, pivots[j], tgt, tier);
        if right.None? then ThroughPivots(m, src, tgt, pivots, j + 1, tier)
        else Some(TwoHop(tier, j, left.value, right.value))
  }

  function AtTier(m: Market, src: string, tgt: string, pivots: seq<string>, tier: Tier): Option<Route> {
    var leg := ResolveLeg(m, src, tgt, tier);
    if leg.Some? then Some(OneHop(tier, leg.value)) else ThroughPivots(m, src, tgt, pivots, 0, tier)
  }

  function ResolveRoute(m: Market, src: string, tgt: string, pivots: seq<string>): Option<Route> {
    var fresh0 := AtTier(m, src, tgt, pivots, Fresh);
    if fresh0.Some? then fresh0 else AtTier(m, src, tgt, pivots, Closest)
  }

  // ---------------------------------------------------------------- what it finds

  /** A row a leg may use at a tier, whatever the search order. */
  ghost predicate Admissible(m: Market, legFrom: string, legTo: string, tier: Tier, leg: Leg) {
    var q := Query(legFrom, legTo, leg.divide);
    && leg.id in m.table
    && var row := m.table[leg.id];
    if tier.Fresh? then
      && Position(m.chain, row.key.source) < |m.chain|
      && IsFresh(row, Key(row.key.source, q.0, q.1), m.atTime, POLL_INTERVAL_TOLERANCE)
    else IsClose(m, row, q.0, q.1)
  }

  function Bit(b: bool): int { if b then 1 else 0 }

  function LegRank(m: Market, tier: Tier, leg: Leg): seq<int>
    requires leg.id in m.table
  {
    var row := m.table[leg.id];
    var p := Position(m.chain, row.key.source);
    if tier.Fresh? then [p, Bit(leg.divide), -row.validFrom, leg.id]
    else [Bit(leg.divide), Proximity(row, m.atTime), p, Bit(row.lastPolledAt.None?), leg.id]
  }

  ghost predicate AdmissibleRoute(m: Market, src: string, tgt: string, pivots: seq<string>, r: Route) {
    match r
    case OneHop(tier, leg) => Admissible(m, src, tgt, tier, leg)
    case TwoHop(tier, j, left, right) =>
      && j < |pivots| && pivots[j] != src && pivots[j] != tgt
      && Admissible(m, src, pivots[j], tier, left) && Admissible(m, pivots[j], tgt, tier, right)
  }

  /** Tier, then number of hops, then pivot, then each leg's own rank. */
  ghost function RouteRank(m: Market, src: string, tgt: string, pivots: seq<string>, r: Route): seq<int>
    requires AdmissibleRoute(m, src, tgt, pivots, r)
  {
    match r
    case OneHop(tier, leg) => [Bit(tier.Closest?), 1, 0] + LegRank(m, tier, leg)
    case TwoHop(tier, j, left, right) => [Bit(tier.Closest?), 2, j] + (LegRank(m, tier, left) + LegRank(m, tier, right))
  }

  /** No admissible leg, or the least-ranked one. */
  ghost predicate IsBestLeg(m: Market, legFrom: string, legTo: string, tier: Tier, r: Option<Leg>) {
    match r
    case None => forall l :: !Admissible(m, legFrom, legTo, tier, l)
    case Some(b) =>
      && Admissible(m, legFrom, legTo, tier, b)
      && forall l :: Admissible(m, legFrom, legTo, tier, l) ==> LexLe(LegRank(m, tier, b), LegRank(m, tier, l))
  }

  lemma ClosestLegIsBest(m: Market, legFrom: string, legTo: string)
    ensures IsBestLeg(m, legFrom, legTo, Closest, ClosestLeg(m, legFrom, legTo))
  {
    var direct, reverse := CloseRanks(m, legFrom, legTo), CloseRanks(m, legTo, legFrom);
    forall l | Admissible(m, legFrom, legTo, Closest, l) ensures l.id in (if l.divide then reverse else direct) {}
    if direct != map[] || reverse != map[] {
      var b := ClosestLeg(m, legFrom, legTo).value;
      assert b.id in (if b.divide then reverse else direct);
      forall l | Admissible(m, legFrom, legTo, Closest, l)
        ensures LexLe(LegRank(m, Closest, b), LegRank(m, Closest, l))
      {
        ClosestLegLeads(m, legFrom, legTo, b, l);
      }
    }
  }

  lemma SameSideClosest(m: Market, currencyFrom: string, currencyTo: string, b: Leg, l: Leg)
    requires FindClosest(m, currencyFrom, currencyTo) == Some(b.id) && b.divide == l.divide
    requires b.id in m.table && l.id in m.table && IsClose(m, m.table[l.id], currencyFrom, currencyTo)
    ensures LexLe(LegRank(m, Closest, b), LegRank(m, Closest, l))
  {
    var ranks := CloseRanks(m, currencyFrom, currencyTo);
    assert l.id in ranks && LexLe(ranks[b.id], ranks[l.id]);
    LexPrefix([Bit(b.divide)], ranks[b.id], ranks[l.id]);
    assert LegRank(m, Closest, b) == [Bit(b.divide)] + ranks[b.id];
    assert LegRank(m, Closest, l) == [Bit(b.divide)] + ranks[l.id];
  }

  lemma ClosestLegLeads(m: Market, legFrom: string, legTo: string, b: Leg, l: Leg)
    requires ClosestLeg(m, legFrom, legTo) == Some(b)
    requires Admissible(m, legFrom, legTo, Closest, b) && Admissible(m, legFrom, legTo, Closest, l)
    ensures LexLe(LegRank(m, Closest, b), LegRank(m, Closest, l))
  {
    var q := Query(legFrom, legTo, l.divide);
    if b.divide == l.divide {
      SameSideClosest(m, q.0, q.1, b, l);
    } else {
      assert l.id in CloseRanks(m, q.0, q.1);
    }
  }

  lemma {:induction false} FreshLegIsBest(m: Market, legFrom: string, legTo: string, i: nat)
    requires i <= |m.chain|
    requires forall l :: Admissible(m, legFrom, legTo, Fresh, l) ==> i <= Position(m.chain, m.table[l.id].key.source)
    ensures IsBestLeg(m, legFrom, legTo, Fresh, FreshLeg(m, legFrom, legTo, i))
    decreases |m.chain| - i
  {
    if i < |m.chain| {
      var source := m.chain[i].source;
      var direct, reverse := FreshRanks(m, Key(source, legFrom, legTo)), FreshRanks(m, Key(source, legTo, legFrom));
      forall l | Admissible(m, legFrom, legTo, Fresh, l) && Position(m.chain, m.table[l.id].key.source) == i
        ensures l.id in (if l.divide then reverse else direct)
      {
        assert m.table[l.id].key.source == source;
      }
      if direct == map[] && reverse == map[] {
        FreshLegIsBest(m, legFrom, legTo, i + 1);
      } else {
        var b := FreshLeg(m, legFrom, legTo, i).value;
        assert b.id in (if b.divide then reverse else direct);
        assert Position(m.chain, source) <= i;
        assert Admissible(m, legFrom, legTo, Fresh, b);
        forall l | Admissible(m, legFrom, legTo, Fresh, l) ensures LexLe(LegRank(m, Fresh, b), LegRank(m, Fresh, l)) {
          FreshLegLeads(m, legFrom, legTo, i, b, l);
        }
      }
    }
  }

  lemma SameSideFresh(m: Market, k: Key, i: nat, b: Leg, l: Leg)
    requires FindFresh(m, k) == Some(b.id) && b.divide == l.divide && Position(m.chain, k.source) == i
    requires b.id in m.table && l.id in m.table && IsFresh(m.table[l.id], k, m.atTime, POLL_INTERVAL_TOLERANCE)
    ensures LexLe(LegRank(m, Fresh, b), LegRank(m, Fresh, l))
  {
    var ranks := FreshRanks(m, k);
    assert l.id in ranks && LexLe(ranks[b.id], ranks[l.id]);
    LexPrefix([i, Bit(b.divide)], ranks[b.id], ranks[l.id]);
    assert LegRank(m, Fresh, b) == [i, Bit(b.divide)] + ranks[b.id];
    assert LegRank(m, Fresh, l) == [i, Bit(b.divide)] + ranks[l.id];
  }

  lemma FreshLegLeads(m: Market, legFrom: string, legTo: string, i: nat, b: Leg, l: Leg)
    requires i < |m.chain| && TryFresh(m, m.chain[i].source, legFrom, legTo, b.divide) == Some(b.id)
    requires b.divide ==> TryFresh(m, m.chain[i].source, legFrom, legTo, false).None?
    requires Admissible(m, legFrom, legTo, Fresh, b) && Admissible(m, legFrom, legTo, Fresh, l)
    requires Position(m.chain, m.table[b.id].key.source) == i <= Position(m.chain, m.table[l.id].key.source)
    ensures LexLe(LegRank(m, Fresh, b), LegRank(m, Fresh, l))
  {
    var source, p := m.chain[i].source, Position(m.chain, m.table[l.id].key.source);
    var q := Query(legFrom, legTo, l.divide);
    if p == i {
      assert l.id in FreshRanks(m, Key(source, q.0, q.1));
      if b.divide == l.divide {
        SameSideFresh(m, Key(source, q.0, q.1), i, b, l);
      } else {
        DirectLeads(i, [-m.table[b.id].validFrom, b.id], [-m.table[l.id].validFrom, l.id]);
      }
    }
  }

  lemma DirectLeads(i: int, direct: seq<int>, reverse: seq<int>)
    requires |direct| == |reverse| == 2
    ensures LexLe([i, Bit(false), direct[0], direct[1]], [i, Bit(true), reverse[0], reverse[1]])
  {
    LexPair(i, 0, i, 1);
    LexAppend([i, 0], [i, 1], direct, reverse);
    assert [i, 0] + direct == [i, 0, direct[0], direct[1]] && [i, 1] + reverse == [i, 1, reverse[0], reverse[1]];
  }

  lemma ResolveLegIsBest(m: Market, legFrom: string, legTo: string, tier: Tier)
    ensures IsBestLeg(m, legFrom, legTo, tier, ResolveLeg(m, legFrom, legTo, tier))
  {
    if tier.Closest? { ClosestLegIsBest(m, legFrom, legTo); } else { FreshLegIsBest(m, legFrom, legTo, 0); }
  }

  /** No admissible route, or the least-ranked one. */
  ghost predicate IsBestRoute(m: Market, src: string, tgt: string, pivots: seq<string>, r: Option<Route>) {
    match r
    case None => forall c :: !AdmissibleRoute(m, src, tgt, pivots, c)
    case Some(b) =>
      && AdmissibleRoute(m, src, tgt, pivots, b)
      && forall c :: AdmissibleRoute(m, src, tgt, pivots, c) ==>
          LexLe(RouteRank(m, src, tgt, pivots, b), RouteRank(m, src, tgt, pivots, c))
  }

  /** No two-hop route at the tier whose pivot is not before j, or the least-ranked one. */
  ghost predicate IsBestFrom(m: Market, src: string, tgt: string, pivots: seq<string>, j: nat, tier: Tier,
                             r: Option<Route>) {
    && (r.Some? ==> r.value.TwoHop? && r.value.tier == tier && AdmissibleRoute(m, src, tgt, pivots, r.value))
    && forall c :: AdmissibleRoute(m, src, tgt, pivots, c) && c.TwoHop? && c.tier == tier && j <= c.pivot ==>
         r.Some? && LexLe(RouteRank(m, src, tgt, pivots, r.value), RouteRank(m, src, tgt, pivots, c))
  }

  /** A pivot that is an end of the path, or that one of its legs cannot reach, is passed over. */
  lemma PivotPassedOver(m: Market, src: string, tgt: string, pivots: seq<string>, j: nat, tier: Tier, r: Option<Route>)
    requires j < |pivots| && IsBestFrom(m, src, tgt, pivots, j + 1, tier, r)
    requires || pivots[j] == src || pivots[j] == tgt
             || IsBestLeg(m, src, pivots[j], tier, None) || IsBestLeg(m, pivots[j], tgt, tier, None)
    ensures IsBestFrom(m, src, tgt, pivots, j, tier, r)
  {
    forall c | AdmissibleRoute(m, src, tgt, pivots, c) && c.TwoHop? && c.tier == tier && j <= c.pivot
      ensures c.pivot != j
    {
    }
  }

  lemma PivotTaken(m: Market, src: string, tgt: string, pivots: seq<string>, j: nat, tier: Tier, left: Leg, right: Leg)
    requires j < |pivots| && pivots[j] != src && pivots[j] != tgt
    requires IsBestLeg(m, src, pivots[j], tier, Some(left)) && IsBestLeg(m, pivots[j], tgt, tier, Some(right))
    ensures IsBestFrom(m, src, tgt, pivots, j, tier, Some(TwoHop(tier, j, left, right)))
  {
    var b := TwoHop(tier, j, left, right);
    assert AdmissibleRoute(m, src, tgt, pivots, b);
    forall c | AdmissibleRoute(m, src, tgt, pivots, c) && c.TwoHop? && c.tier == tier && j <= c.pivot
      ensures LexLe(RouteRank(m, src, tgt, pivots, b), RouteRank(m, src, tgt, pivots, c))
    {
      TwoHopLeads(m, src, tgt, pivots, b, c);
    }
  }

  /** The pivot loop from position j returns the least two-hop route at the tier whose pivot is not before j. */
  lemma {:induction false} ThroughPivotsIsBest(m: Market, src: string, tgt: string, pivots: seq<string>, j: nat,
                                               tier: Tier)
    requires j <= |pivots|
    ensures IsBestFrom(m, src, tgt, pivots, j, tier, ThroughPivots(m, src, tgt, pivots, j, tier))
    decreases |pivots| - j
  {
    if j < |pivots| {
      ThroughPivotsIsBest(m, src, tgt, pivots, j + 1, tier);
      var rest := ThroughPivots(m, src, tgt, pivots, j + 1, tier);
      if pivots[j] == src || pivots[j] == tgt {
        PivotPassedOver(m, src, tgt, pivots, j, tier, rest);
      } else {
        var left, right := ResolveLeg(m, src, pivots[j], tier), ResolveLeg(m, pivots[j], tgt, tier);
        ResolveLegIsBest(m, src, pivots[j], tier);
        ResolveLegIsBest(m, pivots[j], tgt, tier);
        if left.Some? && right.Some? {
          PivotTaken(m, src, tgt, pivots, j, tier, left.value, right.value);
        } else {
          PivotPassedOver(m, src, tgt, pivots, j, tier, rest);
        }
      }
    }
  }

  lemma TwoHopLeads(m: Market, src: string, tgt: string, pivots: seq<string>, b: Route, c: Route)
    requires AdmissibleRoute(m, src, tgt, pivots, b) && AdmissibleRoute(m, src, tgt, pivots, c)
    requires b.TwoHop? && c.TwoHop? && b.tier == c.tier && b.pivot <= c.pivot
    requires IsBestLeg(m, src, pivots[b.pivot], b.tier, Some(b.left))
             && IsBestLeg(m, pivots[b.pivot], tgt, b.tier, Some(b.right))
    ensures LexLe(RouteRank(m, src, tgt, pivots, b), RouteRank(m, src, tgt, pivots, c))
  {
    var bl, br, cl, cr := LegRank(m, b.tier, b.left), LegRank(m, b.tier, b.right), LegRank(m, c.tier, c.left),
        LegRank(m, c.tier, c.right);
    var hb, hc := [Bit(b.tier.Closest?), 2, b.pivot], [Bit(c.tier.Closest?), 2, c.pivot];
    var t := Bit(b.tier.Closest?);
    LexTotal([t, 2], [t, 2]);
    LexAppend([t, 2], [t, 2], [b.pivot], [c.pivot]);
    assert hb == [t, 2] + [b.pivot] && hc == [t, 2] + [c.pivot];
    if b.pivot == c.pivot {
      LexAppend(bl, cl, br, cr);
    }
    LexAppend(hb, hc, bl + br, cl + cr);
  }

  lemma HeadsLead(a: int, b: int, x: int, y: int, p: seq<int>, q: seq<int>)
    requires a < b || (a == b && x < y)
    ensures LexLe([a, x] + p, [b, y] + q)
  {
    assert ([a, x] + p)[1..] == [x] + p && ([b, y] + q)[1..] == [y] + q;
  }

  lemma AtTierIsBest(m: Market, src: string, tgt: string, pivots: seq<string>, tier: Tier)
    ensures var r := AtTier(m, src, tgt, pivots, tier);
            && (r.Some? ==> r.value.tier == tier && AdmissibleRoute(m, src, tgt, pivots, r.value))
            && forall c :: AdmissibleRoute(m, src, tgt, pivots, c) && c.tier == tier ==>
                 r.Some? && LexLe(RouteRank(m, src, tgt, pivots, r.value), RouteRank(m, src, tgt, pivots, c))
  {
    ResolveLegIsBest(m, src, tgt, tier);
    ThroughPivotsIsBest(m, src, tgt, pivots, 0, tier);
    var r := AtTier(m, src, tgt, pivots, tier);
    forall c | AdmissibleRoute(m, src, tgt, pivots, c) && c.tier == tier
      ensures r.Some? && LexLe(RouteRank(m, src, tgt, pivots, r.value), RouteRank(m, src, tgt, pivots, c))
    {
      if r.Some? && r.value.OneHop? {
        assert AdmissibleRoute(m, src, tgt, pivots, r.value);
        OneHopLeads(m, src, tgt, pivots, r.value, c);
      }
    }
  }

  lemma OneHopLeads(m: Market, src: string, tgt: string, pivots: seq<string>, b: Route, c: Route)
    requires AdmissibleRoute(m, src, tgt, pivots, b) && AdmissibleRoute(m, src, tgt, pivots, c)
    requires b.OneHop? && b.tier == c.tier && IsBestLeg(m, src, tgt, b.tier, Some(b.leg))
    ensures LexLe(RouteRank(m, src, tgt, pivots, b), RouteRank(m, src, tgt, pivots, c))
  {
    var t := Bit(b.tier.Closest?);
    match c
    case OneHop(_, leg) =>
      LexTotal([t, 1, 0], [t, 1, 0]);
      LexAppend([t, 1, 0], [t, 1, 0], LegRank(m, b.tier, b.leg), LegRank(m, c.tier, leg));
    case TwoHop(_, j, left, right) =>
      var p, q := [0] + LegRank(m, b.tier, b.leg), [j] + (LegRank(m, c.tier, left) + LegRank(m, c.tier, right));
      HeadsLead(t, t, 1, 2, p, q);
      assert RouteRank(m, src, tgt, pivots, b) == [t, 1] + p && RouteRank(m, src, tgt, pivots, c) == [t, 2] + q;
  }

  /** The search is sound, complete and least: it finds nothing only when no one-hop or pivoted two-hop route
      exists at either tier, and otherwise the route least by tier, hops, pivot and legs. */
  lemma ResolveRouteIsBest(m: Market, src: string, tgt: string, pivots: seq<string>)
    ensures IsBestRoute(m, src, tgt, pivots, ResolveRoute(m, src, tgt, pivots))
  {
    AtTierIsBest(m, src, tgt, pivots, Fresh);
    AtTierIsBest(m, src, tgt, pivots, Closest);
    var r := ResolveRoute(m, src, tgt, pivots);
    forall c | AdmissibleRoute(m, src, tgt, pivots, c)
      ensures r.Some? && LexLe(RouteRank(m, src, tgt, pivots, r.value), RouteRank(m, src, tgt, pivots, c))
    {
      if c.tier.Closest? && r.Some? && r.value.tier.Fresh? {
        assert RouteRank(m, src, tgt, pivots, r.value)[0] == 0 && RouteRank(m, src, tgt, pivots, c)[0] == 1;
      }
    }
  }
}
