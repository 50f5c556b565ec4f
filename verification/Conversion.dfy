/** Conversion of a transaction amount into the display currencies. */
module Conversion {
  import opened Common
  import opened RateTable
  import opened SourceChain
  import opened RatePath

  datatype PathMetadata = PathMetadata(
    path: seq<RateStep>,
    effectiveRate: real,
    hops: nat,
    quality: Tier,
    maxProximitySeconds: int,
    sides: set<Side>)

  datatype Converted = Converted(amounts: map<string, Option<int>>, rateMetadata: map<string, PathMetadata>)

  /** The exceptions a conversion can raise. */
  datatype Error = ChainMisconfigured | DivisionByZero

  datatype Result = Success(value: Converted) | Failure(error: Error)

  const DISPLAY_CURRENCIES: seq<string> := ["UAH", "USD", "EUR"]

  function Lower(currency: string): string {
    if currency == "UAH" then "uah"
    else if currency == "USD" then "usd"
    else if currency == "EUR" then "eur"
    else currency
  }

  /** The metadata key of a display currency is its code, letter by letter in lower case. */
  lemma LowerIsLowerCase(k: nat, i: nat)
    requires k < |DISPLAY_CURRENCIES| && i < |DISPLAY_CURRENCIES[k]|
    ensures var code := DISPLAY_CURRENCIES[k];
            |Lower(code)| == |code| && 'A' <= code[i] <= 'Z' && Lower(code)[i] as int == code[i] as int + 32
  {
  }

  // ---------------------------------------------------------------- arithmetic along a path

  predicate Divisible(steps: seq<RateStep>) {
    forall i :: 0 <= i < |steps| && steps[i].divide ==> steps[i].rate != 0.0
  }

  function ApplyStep(s: RateStep, amount: real): real
    requires s.divide ==> s.rate != 0.0
  {
    if s.divide then amount / s.rate else amount * s.rate
  }

  function ApplyAll(steps: seq<RateStep>, amount: real): real
    requires Divisible(steps)
  {
    if steps == [] then amount
    else ApplyStep(steps[|steps| - 1], ApplyAll(steps[..|steps| - 1], amount))
  }

  /** Decimal.quantize(0, ROUND_HALF_UP): to the nearest integer, ties away from zero. */
  function RoundHalfUp(x: real): int {
    if x >= 0.0 then (x + 0.5).Floor else -((-x + 0.5).Floor)
  }

  /** An amount, or one unit for the effective rate, carried through the steps of a path. */
  method Apply(steps: seq<RateStep>, amount: real) returns (result: real)
    requires Divisible(steps)
    ensures result == ApplyAll(steps, amount)
  {
    result := amount;
    for i := 0 to |steps|
      invariant result == ApplyAll(steps[..i], amount)
    {
      assert steps[..i + 1][..i] == steps[..i];
      result := ApplyStep(steps[i], result);
    }
    assert steps[..|steps|] == steps;
  }

  method EffectiveRate(steps: seq<RateStep>) returns (rate: real)
    requires Divisible(steps)
    ensures forall amount :: ApplyAll(steps, amount) == amount * rate
  {
    rate := Apply(steps, 1.0);
    forall amount ensures ApplyAll(steps, amount) == amount * rate {
      ApplyIsLinear(steps, amount);
    }
  }

  /** apply(amount) is amount times the effective rate. */
  lemma {:induction false} ApplyIsLinear(steps: seq<RateStep>, amount: real)
    requires Divisible(steps)
    ensures ApplyAll(steps, amount) == amount * ApplyAll(steps, 1.0)
  {
    if steps != [] {
      var init, s := steps[..|steps| - 1], steps[|steps| - 1];
      ApplyIsLinear(init, amount);
      StepIsLinear(s, amount, ApplyAll(init, 1.0), ApplyAll(init, amount));
    }
  }

  lemma StepIsLinear(s: RateStep, amount: real, factor: real, product: real)
    requires (s.divide ==> s.rate != 0.0) && product == amount * factor
    ensures ApplyStep(s, product) == amount * ApplyStep(s, factor)
  {
  }

  /** Rounding moves a value by at most one half. */
  lemma RoundingError(x: real)
    ensures -0.5 <= RoundHalfUp(x) as real - x <= 0.5
    ensures x >= 0.0 ==> RoundHalfUp(x) >= 0
  {
  }

  /** Ties go away from zero, and rounding is odd. */
  lemma TiesGoAwayFromZero(n: nat, x: real)
    ensures RoundHalfUp(n as real + 0.5) == n + 1
    ensures RoundHalfUp(-x) == -RoundHalfUp(x)
  {
  }

  lemma RoundingMonotone(x: real, y: real)
    requires x <= y
    ensures RoundHalfUp(x) <= RoundHalfUp(y)
  {
  }

  ghost predicate PositiveRates(steps: seq<RateStep>) {
    forall i :: 0 <= i < |steps| ==> steps[i].rate > 0.0
  }

  lemma {:induction false} ApplyMonotone(steps: seq<RateStep>, x: real, y: real)
    requires PositiveRates(steps) && 0.0 <= x <= y
    ensures 0.0 <= ApplyAll(steps, x) <= ApplyAll(steps, y)
  {
    if steps != [] {
      ApplyMonotone(steps[..|steps| - 1], x, y);
      StepMonotone(steps[|steps| - 1], ApplyAll(steps[..|steps| - 1], x), ApplyAll(steps[..|steps| - 1], y));
    }
  }

  lemma StepMonotone(s: RateStep, x: real, y: real)
    requires s.rate > 0.0 && 0.0 <= x <= y
    ensures 0.0 <= ApplyStep(s, x) <= ApplyStep(s, y)
  {
    if s.divide { DivideMonotone(x, y, s.rate); }
  }

  lemma DivideMonotone(x: real, y: real, r: real)
    requires r > 0.0 && 0.0 <= x <= y
    ensures 0.0 <= x / r <= y / r
  {
    assert y / r - x / r == (y - x) / r;
  }

  // ---------------------------------------------------------------- the service

  function StepsOf(m: Market, src: string, tgt: string, pivots: seq<string>, r: Route): seq<RateStep>
    requires AdmissibleRoute(m, src, tgt, pivots, r)
  {
    match r
    case OneHop(tier, leg) => [StepOf(m, src, tgt, tier, leg.id, leg.divide)]
    case TwoHop(tier, j, left, right) =>
      [StepOf(m, src, pivots[j], tier, left.id, left.divide), StepOf(m, pivots[j], tgt, tier, right.id, right.divide)]
  }

  function ResolvePath(m: Market, src: string, tgt: string, pivots: seq<string>): Option<seq<RateStep>> {
    ResolveRouteIsBest(m, src, tgt, pivots);
    var r := ResolveRoute(m, src, tgt, pivots);
    if r.None? then None else Some(StepsOf(m, src, tgt, pivots, r.value))
  }

  /** Pivot priority: chain order, then base-currency order, first occurrence wins. */
  function FirstSeen(currencies: seq<string>): seq<string> {
    if currencies == [] then []
    else
      var before := FirstSeen(currencies[..|currencies| - 1]);
      var c := currencies[|currencies| - 1];
      if c in before then before else before + [c]
  }

  function AllBases(chain: seq<SourceConfig>): seq<string> {
    if chain == [] then [] else AllBases(chain[..|chain| - 1]) + chain[|chain| - 1].baseCurrencies
  }

  lemma {:induction false} FirstSeenIsDistinct(currencies: seq<string>)
    ensures forall c :: c in FirstSeen(currencies) <==> c in currencies
    ensures forall i, j :: 0 <= i < j < |FirstSeen(currencies)| ==> FirstSeen(currencies)[i] != FirstSeen(currencies)[j]
  {
    if currencies != [] {
      FirstSeenIsDistinct(currencies[..|currencies| - 1]);
      assert currencies == currencies[..|currencies| - 1] + [currencies[|currencies| - 1]];
    }
  }

  /** Pivots are ranked by first occurrence. */
  lemma {:induction false} FirstSeenOrder(currencies: seq<string>, i: nat, j: nat)
    requires i < j < |FirstSeen(currencies)|
    ensures exists k: nat ::
              && k < |currencies| && currencies[k] == FirstSeen(currencies)[i]
              && FirstSeen(currencies)[j] !in currencies[..k + 1]
  {
    var n := |currencies| - 1;
    var init, c := currencies[..n], currencies[n];
    FirstSeenIsDistinct(init);
    if j < |FirstSeen(init)| {
      FirstSeenOrder(init, i, j);
      var k: nat :| k < n && init[k] == FirstSeen(init)[i] && FirstSeen(init)[j] !in init[..k + 1];
      assert currencies[..k + 1] == init[..k + 1] && currencies[k] == init[k];
    } else {
      assert FirstSeen(init)[i] in init;
      var k: nat :| k < n && init[k] == FirstSeen(init)[i];
      assert currencies[..k + 1] == init[..k + 1] && currencies[k] == init[k];
    }
  }

  lemma {:induction false} AllBasesMembers(chain: seq<SourceConfig>, c: string)
    ensures c in AllBases(chain) <==> exists n :: 0 <= n < |chain| && c in chain[n].baseCurrencies
  {
    if chain != [] {
      var init := chain[..|chain| - 1];
      AllBasesMembers(init, c);
      assert forall n :: 0 <= n < |init| ==> init[n] == chain[n];
      if c in chain[|chain| - 1].baseCurrencies { assert c in AllBases(chain); }
    }
  }

  /** Some source reached from the entry lists the currency among its bases. */
  ghost predicate ListedFrom(config: Config, entry: string, c: string, n: nat) {
    Nth(config, entry, n).Some? && c in config[Nth(config, entry, n).value].baseCurrencies
  }

  lemma ListedIsLoaded(config: Config, entry: string, c: string, n: nat)
    requires LoadSourceChain(config, entry).Chain?
    ensures var configs := LoadSourceChain(config, entry).configs;
            ListedFrom(config, entry, c, n) <==> n < |configs| && c in configs[n].baseCurrencies
  {
    var configs := LoadSourceChain(config, entry).configs;
    AcceptedChainIsSimple(config, entry);
    if n < |configs| {
      assert Nth(config, entry, n) == Some(configs[n].source);
    } else {
      NthEnds(config, entry, |configs|, n);
    }
  }

  /** A currency is a pivot exactly when some source reached from the entry lists it among its bases. */
  lemma PivotIffReached(config: Config, entry: string, c: string)
    requires LoadSourceChain(config, entry).Chain?
    ensures c in FirstSeen(AllBases(LoadSourceChain(config, entry).configs)) <==>
            exists n: nat :: ListedFrom(config, entry, c, n)
  {
    var configs := LoadSourceChain(config, entry).configs;
    FirstSeenIsDistinct(AllBases(configs));
    AllBasesMembers(configs, c);
    forall n: nat ensures ListedFrom(config, entry, c, n) <==> n < |configs| && c in configs[n].baseCurrencies {
      ListedIsLoaded(config, entry, c, n);
    }
  }

  /** The k-th mention along the chain, by source and place. */
  lemma {:induction false} MentionAt(chain: seq<SourceConfig>, k: nat) returns (n: nat, m: nat)
    requires k < |AllBases(chain)|
    ensures n < |chain| && m < |chain[n].baseCurrencies| && chain[n].baseCurrencies[m] == AllBases(chain)[k]
    ensures AllBases(chain)[..k + 1] == AllBases(chain[..n]) + chain[n].baseCurrencies[..m + 1]
  {
    var last := |chain| - 1;
    var before := AllBases(chain[..last]);
    if k < |before| {
      n, m := MentionAt(chain[..last], k);
      assert chain[..last][..n] == chain[..n];
    } else {
      n, m := last, k - |before|;
    }
  }

  /** Pivots rank by the source that first mentions them, then by their place in its list. */
  lemma PivotPriority(chain: seq<SourceConfig>, i: nat, j: nat) returns (n: nat, m: nat)
    requires i < j < |FirstSeen(AllBases(chain))|
    ensures var pivots := FirstSeen(AllBases(chain));
            && n < |chain| && m < |chain[n].baseCurrencies| && chain[n].baseCurrencies[m] == pivots[i]
            && (forall p :: 0 <= p < n ==> pivots[j] !in chain[p].baseCurrencies)
            && pivots[j] !in chain[n].baseCurrencies[..m + 1]
  {
    var mentions := AllBases(chain);
    FirstSeenOrder(mentions, i, j);
    var k: nat :| k < |mentions| && mentions[k] == FirstSeen(mentions)[i]
        && FirstSeen(mentions)[j] !in mentions[..k + 1];
    n, m := MentionAt(chain, k);
    AllBasesMembers(chain[..n], FirstSeen(mentions)[j]);
    forall p | 0 <= p < n ensures FirstSeen(mentions)[j] !in chain[p].baseCurrencies {
      assert chain[..n][p] == chain[p];
    }
  }

  lemma FirstSeenNext(before: seq<string>, bases: seq<string>, j: nat)
    requires j < |bases|
    ensures var sofar := FirstSeen(before + bases[..j]);
            FirstSeen(before + bases[..j + 1]) == if bases[j] in sofar then sofar else sofar + [bases[j]]
  {
    assert (before + bases[..j + 1])[..|before| + j] == before + bases[..j];
  }

  lemma AllBasesNext(chain: seq<SourceConfig>, i: nat)
    requires i < |chain|
    ensures AllBases(chain[..i + 1]) == AllBases(chain[..i]) + chain[i].baseCurrencies
  {
    assert chain[..i + 1][..i] == chain[..i];
  }

  method OrderedPivots(chain: seq<SourceConfig>) returns (pivots: seq<string>)
    ensures pivots == FirstSeen(AllBases(chain))
  {
    pivots := [];
    var seen: set<string> := {};
    for i := 0 to |chain|
      invariant pivots == FirstSeen(AllBases(chain[..i]))
      invariant forall c :: c in seen <==> c in pivots
    {
      var bases := chain[i].baseCurrencies;
      ghost var before := AllBases(chain[..i]);
      assert before + bases[..0] == before;
      for j := 0 to |bases|
        invariant pivots == FirstSeen(before + bases[..j])
        invariant forall c :: c in seen <==> c in pivots
      {
        FirstSeenNext(before, bases, j);
        if bases[j] !in seen {
          seen := seen + {bases[j]};
          pivots := pivots + [bases[j]];
        }
      }
      assert bases[..|bases|] == bases;
      AllBasesNext(chain, i);
    }
    assert chain[..|chain|] == chain;
  }

  function MaxProximity(steps: seq<RateStep>): int {
    if steps == [] then 0
    else if |steps| == 1 then steps[0].proximitySeconds
    else
      var before := MaxProximity(steps[..|steps| - 1]);
      var last := steps[|steps| - 1].proximitySeconds;
      if before >= last then before else last
  }

  function MetadataOf(steps: seq<RateStep>): PathMetadata
    requires Divisible(steps)
  {
    PathMetadata(steps, ApplyAll(steps, 1.0), |steps|,
                 if exists i :: 0 <= i < |steps| && steps[i].tier.Closest? then Closest else Fresh,
                 MaxProximity(steps),
                 set i | 0 <= i < |steps| :: steps[i].side)
  }

  /** The result for the first k display currencies. */
  function ConvertTo(m: Market, pivots: seq<string>, currency: string, amountCents: int, k: nat): Result
    requires k <= |DISPLAY_CURRENCIES|
  {
    if k == 0 then Success(Converted(map[], map[]))
    else
      var before := ConvertTo(m, pivots, currency, amountCents, k - 1);
      if before.Failure? then before
      else
        var target := DISPLAY_CURRENCIES[k - 1];
        var Converted(amounts, rateMetadata) := before.value;
        if currency == target then Success(Converted(amounts[target := Some(amountCents)], rateMetadata))
        else
          var path := ResolvePath(m, currency, target, pivots);
          if path.None? then Success(Converted(amounts[target := None], rateMetadata))
          else if !Divisible(path.value) then Failure(DivisionByZero)
          else
            Success(Converted(amounts[target := Some(RoundHalfUp(ApplyAll(path.value, amountCents as real)))],
                              rateMetadata[Lower(target) := MetadataOf(path.value)]))
  }

  /** `rate_source or source`: an empty rate source does not count. */
  function EntrySource(rateSource: Option<string>, source: string): string {
    if rateSource.Some? && rateSource.value != "" then rateSource.value else source
  }

  /** An event that names a rate source is priced there whatever its own source; any other by its own. */
  lemma EntryIsRateSource(rateSource: string, source: string)
    ensures EntrySource(Some(rateSource), source) == if |rateSource| > 0 then rateSource else source
    ensures EntrySource(None, source) == source
  {
  }

  function ConvertAmount(table: Table, config: Config, entry: string, atTime: int, amountCents: int,
                         currency: string): Result {
    match LoadSourceChain(config, entry)
    case ChainError => Failure(ChainMisconfigured)
    case Chain(chain) =>
      ConvertTo(Market(table, chain, atTime), FirstSeen(AllBases(chain)), currency, amountCents, |DISPLAY_CURRENCIES|)
  }

  method Convert(table: Table, config: Config, entry: string, atTime: int, amountCents: int, currency: string)
    returns (result: Result)
    ensures result == ConvertAmount(table, config, entry, atTime, amountCents, currency)
  {
    var loaded := LoadSourceChain(config, entry);
    if loaded.ChainError? {
      return Failure(ChainMisconfigured);
    }
    var pivots := OrderedPivots(loaded.configs);
    var m := Market(table, loaded.configs, atTime);
    var amounts: map<string, Option<int>>, rateMetadata: map<string, PathMetadata> := map[], map[];
    for k := 0 to |DISPLAY_CURRENCIES|
      invariant ConvertTo(m, pivots, currency, amountCents, k) == Success(Converted(amounts, rateMetadata))
    {
      var target := DISPLAY_CURRENCIES[k];
      if currency == target {
        amounts := amounts[target := Some(amountCents)];
      } else {
        var path := ResolvePath(m, currency, target, pivots);
        if path.None? {
          amounts := amounts[target := None];
        } else if !Divisible(path.value) {
          FailureSticks(m, pivots, currency, amountCents, k + 1, |DISPLAY_CURRENCIES|);
          return Failure(DivisionByZero);
        } else {
          var amount := Apply(path.value, amountCents as real);
          amounts := amounts[target := Some(RoundHalfUp(amount))];
          rateMetadata := rateMetadata[Lower(target) := MetadataOf(path.value)];
        }
      }
    }
    return Success(Converted(amounts, rateMetadata));
  }

  lemma {:induction false} FailureSticks(m: Market, pivots: seq<string>, currency: string, amountCents: int, k: nat,
                                         n: nat)
    requires k <= n <= |DISPLAY_CURRENCIES| && ConvertTo(m, pivots, currency, amountCents, k).Failure?
    ensures ConvertTo(m, pivots, currency, amountCents, n) == ConvertTo(m, pivots, currency, amountCents, k)
  {
    if k < n { FailureSticks(m, pivots, currency, amountCents, k, n - 1); }
  }

  // ---------------------------------------------------------------- never overstates

  /** 0 < buy <= mid <= sell on every row, a missing side excused. */
  ghost predicate SoundSpreads(table: Table) {
    forall id :: id in table ==>
      var r := table[id].rates;
      && r.mid > 0.0
      && (r.buy.Some? ==> 0.0 < r.buy.value <= r.mid)
      && (r.sell.Some? ==> r.mid <= r.sell.value)
  }

  function RowKey(s: RateStep): Key {
    if s.divide then Key(s.source, s.currencyTo, s.currencyFrom) else Key(s.source, s.currencyFrom, s.currencyTo)
  }

  /** The same path priced at the mid rate of every row it uses. */
  function AtMid(table: Table, steps: seq<RateStep>): (mid: seq<RateStep>)
    requires forall i :: 0 <= i < |steps| ==> steps[i].rateId in table
    ensures |mid| == |steps|
  {
    seq(|steps|, i requires 0 <= i < |steps| => steps[i].(rate := table[steps[i].rateId].rates.mid))
  }

  /** Each step takes the liquidation side of the row it names, a row for its own pair, or for the swapped pair if
      it divides. */
  ghost predicate PricedFrom(table: Table, steps: seq<RateStep>) {
    forall i :: 0 <= i < |steps| ==>
      && steps[i].rateId in table
      && table[steps[i].rateId].key == RowKey(steps[i])
      && (steps[i].rate, steps[i].side) == PickRate(table[steps[i].rateId].rates, steps[i].divide)
  }

  /** A found path leads from source to target, stays within one tier, and is priced on the liquidation side. */
  lemma PathIsConnected(m: Market, src: string, tgt: string, pivots: seq<string>)
    requires ResolvePath(m, src, tgt, pivots).Some?
    ensures var p := ResolvePath(m, src, tgt, pivots).value;
            && 1 <= |p| <= 2 && p[0].currencyFrom == src && p[|p| - 1].currencyTo == tgt
            && (|p| == 2 ==> p[0].currencyTo == p[1].currencyFrom && p[0].tier == p[1].tier
                             && p[0].currencyTo != src && p[0].currencyTo != tgt)
            && PricedFrom(m.table, p)
            && (forall i :: 0 <= i < |p| ==> p[i].proximitySeconds == ShownDistance(m, p[i]))
  {
    ResolveRouteIsBest(m, src, tgt, pivots);
  }

  /** A fresh rate counts as being at the transaction; any other shows its distance from it. */
  function ShownDistance(m: Market, s: RateStep): int
    requires s.rateId in m.table
  {
    match s.tier
    case Fresh => 0
    case Closest => EpochSeconds(Proximity(m.table[s.rateId], m.atTime))
  }

  function RateOn(rates: Rates, side: Side): Option<real> {
    match side
    case Buy => rates.buy
    case Sell => rates.sell
    case Mid => Some(rates.mid)
  }

  /** Of all the rates on a row, the one picked is the least favourable in the direction it is applied, and it is
      labelled with the side it was taken from. */
  lemma PickIsLeastFavourable(rates: Rates, divide: bool, side: Side)
    requires rates.mid > 0.0 && (rates.buy.Some? ==> 0.0 < rates.buy.value <= rates.mid)
    requires rates.sell.Some? ==> rates.mid <= rates.sell.value
    ensures var (rate, picked) := PickRate(rates, divide);
            && RateOn(rates, picked) == Some(rate)
            && (RateOn(rates, side).Some? ==>
                  if divide then RateOn(rates, side).value <= rate else rate <= RateOn(rates, side).value)
  {
  }

  lemma {:induction false} NeverAboveMid(table: Table, steps: seq<RateStep>, amount: real)
    requires SoundSpreads(table) && PricedFrom(table, steps) && amount >= 0.0
    ensures PositiveRates(steps) && PositiveRates(AtMid(table, steps))
    ensures 0.0 <= ApplyAll(steps, amount) <= ApplyAll(AtMid(table, steps), amount)
  {
    if steps != [] {
      var init, s, mid := steps[..|steps| - 1], steps[|steps| - 1], AtMid(table, steps);
      NeverAboveMid(table, init, amount);
      assert mid[..|steps| - 1] == AtMid(table, init);
      assert forall i :: 0 <= i < |steps| - 1 ==> steps[i] == init[i];
      var x, y := ApplyAll(init, amount), ApplyAll(AtMid(table, init), amount);
      StepNeverAboveMid(s, mid[|steps| - 1], x, y);
    }
  }

  lemma StepNeverAboveMid(s: RateStep, mid: RateStep, x: real, y: real)
    requires s.divide == mid.divide && 0.0 <= x <= y && s.rate > 0.0 && mid.rate > 0.0
    requires if s.divide then mid.rate <= s.rate else s.rate <= mid.rate
    ensures 0.0 <= ApplyStep(s, x) <= ApplyStep(mid, y)
  {
    StepMonotone(mid, x, y);
    StepMonotone(s, 0.0, x);
    if s.divide {
      var q := x / s.rate;
      assert x == q * s.rate && q >= 0.0;
      assert q * mid.rate <= q * s.rate;
      DivideMonotone(q * mid.rate, x, mid.rate);
      assert (q * mid.rate) / mid.rate == q;
    } else {
      assert x * s.rate <= x * mid.rate;
    }
  }

  /** The converted cents of any found path never exceed the cents its mid rates give. */
  lemma ConversionNeverOverstates(m: Market, src: string, tgt: string, pivots: seq<string>, amountCents: nat)
    requires SoundSpreads(m.table) && ResolvePath(m, src, tgt, pivots).Some?
    ensures var p := ResolvePath(m, src, tgt, pivots).value;
            && PricedFrom(m.table, p) && PositiveRates(p) && PositiveRates(AtMid(m.table, p))
            && 0 <= RoundHalfUp(ApplyAll(p, amountCents as real))
               <= RoundHalfUp(ApplyAll(AtMid(m.table, p), amountCents as real))
  {
    PathIsConnected(m, src, tgt, pivots);
    var p := ResolvePath(m, src, tgt, pivots).value;
    NeverAboveMid(m.table, p, amountCents as real);
    RoundingMonotone(ApplyAll(p, amountCents as real), ApplyAll(AtMid(m.table, p), amountCents as real));
    RoundingError(ApplyAll(p, amountCents as real));
  }

  /** A larger amount never converts to fewer cents. */
  lemma ConversionMonotone(m: Market, src: string, tgt: string, pivots: seq<string>, a: nat, b: nat)
    requires SoundSpreads(m.table) && ResolvePath(m, src, tgt, pivots).Some? && a <= b
    ensures var p := ResolvePath(m, src, tgt, pivots).value;
            Divisible(p) && RoundHalfUp(ApplyAll(p, a as real)) <= RoundHalfUp(ApplyAll(p, b as real))
  {
    PathIsConnected(m, src, tgt, pivots);
    var p := ResolvePath(m, src, tgt, pivots).value;
    NeverAboveMid(m.table, p, 0.0);
    ApplyMonotone(p, a as real, b as real);
    RoundingMonotone(ApplyAll(p, a as real), ApplyAll(p, b as real));
  }
}
