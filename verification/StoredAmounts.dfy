/** Conversion inside the enrichment step: what the display amounts of a stored row are worth. */
module StoredAmounts {
  import opened Common
  import opened Domain
  import opened Decision
  import opened Descriptions
  import opened Enrichment
  import RateTable
  import opened SourceChain
  import opened RatePath
  import opened Conversion

  /** The enrichment environment over given rate tables. */
  function EnvOver(accounts: map<Id, Account>, ibans: map<(Id, string), Id>, phrases: Phrases,
                   table: RateTable.Table, config: Config): Env
  {
    Env(accounts, ibans, phrases,
        (e: Event, currency: string) =>
          match ConvertAmount(table, config, EntrySource(e.rateSource, e.source), e.time, e.amountCents, currency)
          case Success(c) => Some(c)
          case Failure(_) => None)
  }

  /** What a display amount means: the amount itself in the account's own currency, nothing without a route,
      and otherwise the rounded worth along the best route. */
  ghost predicate AmountMeans(m: Market, pivots: seq<string>, currency: string, amountCents: int, target: string,
                              shown: Option<int>) {
    if currency == target then shown == Some(amountCents)
    else
      match ResolvePath(m, currency, target, pivots)
      case None => shown == None
      case Some(p) => Divisible(p) && shown == Some(RoundHalfUp(ApplyAll(p, amountCents as real)))
  }

  ghost predicate Means(m: Market, pivots: seq<string>, currency: string, amountCents: int, c: Converted,
                        target: string) {
    target in c.amounts && AmountMeans(m, pivots, currency, amountCents, target, c.amounts[target])
  }

  lemma NextMeans(m: Market, pivots: seq<string>, currency: string, amountCents: int, k: nat)
    requires k < |DISPLAY_CURRENCIES| && ConvertTo(m, pivots, currency, amountCents, k + 1).Success?
    ensures Means(m, pivots, currency, amountCents, ConvertTo(m, pivots, currency, amountCents, k + 1).value,
            DISPLAY_CURRENCIES[k])
  {
  }

  lemma OthersMean(m: Market, pivots: seq<string>, currency: string, amountCents: int, k: nat, i: nat)
    requires i < k < |DISPLAY_CURRENCIES| && ConvertTo(m, pivots, currency, amountCents, k + 1).Success?
    requires Means(m, pivots, currency, amountCents, ConvertTo(m, pivots, currency, amountCents, k).value,
             DISPLAY_CURRENCIES[i])
    ensures Means(m, pivots, currency, amountCents, ConvertTo(m, pivots, currency, amountCents, k + 1).value,
            DISPLAY_CURRENCIES[i])
  {
    LowerDistinct(k);
  }

  lemma {:induction false} ConvertToMeans(m: Market, pivots: seq<string>, currency: string, amountCents: int, k: nat)
    requires k <= |DISPLAY_CURRENCIES| && ConvertTo(m, pivots, currency, amountCents, k).Success?
    ensures forall i :: 0 <= i < k ==>
              Means(m, pivots, currency, amountCents, ConvertTo(m, pivots, currency, amountCents, k).value,
                  DISPLAY_CURRENCIES[i])
  {
    if k > 0 {
      ConvertToMeans(m, pivots, currency, amountCents, k - 1);
      NextMeans(m, pivots, currency, amountCents, k - 1);
      forall i | 0 <= i < k - 1
        ensures Means(m, pivots, currency, amountCents, ConvertTo(m, pivots, currency, amountCents, k).value,
                DISPLAY_CURRENCIES[i])
      {
        OthersMean(m, pivots, currency, amountCents, k - 1, i);
      }
    }
  }

  /** The audit trail of one display amount: a connected path of one tier, its worst distance and its sides, and
      an effective rate that reproduces the amount. */
  ghost predicate Explains(md: PathMetadata, currency: string, target: string, amountCents: int, cents: int) {
    && md.hops == |md.path| && 1 <= md.hops <= 2
    && md.path[0].currencyFrom == currency && md.path[md.hops - 1].currencyTo == target
    && (md.hops == 2 ==> md.path[0].currencyTo == md.path[1].currencyFrom)
    && (forall s :: s in md.path ==> s.tier == md.quality && s.proximitySeconds <= md.maxProximitySeconds)
    && (exists s :: s in md.path && s.proximitySeconds == md.maxProximitySeconds)
    && (forall side :: side in md.sides <==> exists s :: s in md.path && s.side == side)
    && cents == RoundHalfUp(amountCents as real * md.effectiveRate)
  }

  lemma SidesAreUsed(p: seq<RateStep>)
    requires Divisible(p)
    ensures forall side :: side in MetadataOf(p).sides <==> exists s :: s in p && s.side == side
  {
    forall side ensures side in MetadataOf(p).sides <==> exists s :: s in p && s.side == side {
      if side in MetadataOf(p).sides {
        var i :| 0 <= i < |p| && p[i].side == side;
        assert p[i] in p;
      }
    }
  }

  lemma WorstDistance(p: seq<RateStep>)
    requires 1 <= |p| <= 2
    ensures forall s :: s in p ==> s.proximitySeconds <= MaxProximity(p)
    ensures exists s :: s in p && s.proximitySeconds == MaxProximity(p)
  {
    assert p[0] in p && p[|p| - 1] in p;
    assert |p| == 2 ==> p[..1] == [p[0]];
  }

  lemma PathMetadataExplains(p: seq<RateStep>, currency: string, target: string, amountCents: int)
    requires Divisible(p) && 1 <= |p| <= 2 && p[0].currencyFrom == currency && p[|p| - 1].currencyTo == target
    requires |p| == 2 ==> p[0].currencyTo == p[1].currencyFrom && p[0].tier == p[1].tier
    ensures Explains(MetadataOf(p), currency, target, amountCents, RoundHalfUp(ApplyAll(p, amountCents as real)))
  {
    SidesAreUsed(p);
    WorstDistance(p);
    QualityIsTier(p);
    RateReproduces(p, amountCents);
  }

  lemma QualityIsTier(p: seq<RateStep>)
    requires Divisible(p) && 1 <= |p| <= 2 && (|p| == 2 ==> p[0].tier == p[1].tier)
    ensures forall s :: s in p ==> s.tier == MetadataOf(p).quality
  {
    assert forall i :: 0 <= i < |p| ==> p[i].tier == p[0].tier;
  }

  lemma RateReproduces(p: seq<RateStep>, amountCents: int)
    requires Divisible(p)
    ensures ApplyAll(p, amountCents as real) == amountCents as real * MetadataOf(p).effectiveRate
  {
    ApplyIsLinear(p, amountCents as real);
  }

  /** Rate metadata is recorded for exactly the amounts that were converted, and explains each of them. */
  ghost predicate Audited(c: Converted, currency: string, amountCents: int, target: string) {
    && target in c.amounts
    && (Lower(target) in c.rateMetadata <==> currency != target && c.amounts[target].Some?)
    && (Lower(target) in c.rateMetadata ==>
          Explains(c.rateMetadata[Lower(target)], currency, target, amountCents, c.amounts[target].value))
  }

  lemma {:induction false} MetadataExplainsAmounts(m: Market, pivots: seq<string>, currency: string, amountCents: int,
                                                   k: nat)
    requires k <= |DISPLAY_CURRENCIES| && ConvertTo(m, pivots, currency, amountCents, k).Success?
    ensures var c := ConvertTo(m, pivots, currency, amountCents, k).value;
            && (forall i :: 0 <= i < k ==> Audited(c, currency, amountCents, DISPLAY_CURRENCIES[i]))
            && KeysAreDisplayed(c, k)
  {
    if k > 0 {
      MetadataExplainsAmounts(m, pivots, currency, amountCents, k - 1);
      NextIsAudited(m, pivots, currency, amountCents, k - 1);
      NextKeyIsDisplayed(m, pivots, currency, amountCents, k - 1);
      forall i | 0 <= i < k - 1
        ensures Audited(ConvertTo(m, pivots, currency, amountCents, k).value, currency, amountCents,
                DISPLAY_CURRENCIES[i])
      {
        OthersKept(m, pivots, currency, amountCents, k - 1, i);
      }
    }
  }

  /** The metadata keys in use after the first k display currencies. */
  ghost predicate Displayed(key: string, k: nat)
    requires k <= |DISPLAY_CURRENCIES|
  {
    exists i :: 0 <= i < k && key == Lower(DISPLAY_CURRENCIES[i])
  }

  ghost predicate KeysAreDisplayed(c: Converted, k: nat)
    requires k <= |DISPLAY_CURRENCIES|
  {
    forall key :: key in c.rateMetadata ==> Displayed(key, k)
  }

  lemma NextKeyIsDisplayed(m: Market, pivots: seq<string>, currency: string, amountCents: int, k: nat)
    requires k < |DISPLAY_CURRENCIES| && ConvertTo(m, pivots, currency, amountCents, k + 1).Success?
    requires KeysAreDisplayed(ConvertTo(m, pivots, currency, amountCents, k).value, k)
    ensures KeysAreDisplayed(ConvertTo(m, pivots, currency, amountCents, k + 1).value, k + 1)
  {
    var before, after := ConvertTo(m, pivots, currency, amountCents, k).value,
        ConvertTo(m, pivots, currency, amountCents, k + 1).value;
    assert after.rateMetadata.Keys <= before.rateMetadata.Keys + {Lower(DISPLAY_CURRENCIES[k])};
    forall key | key in after.rateMetadata ensures Displayed(key, k + 1) {
      if key in before.rateMetadata { assert Displayed(key, k); }
    }
  }

  lemma NextIsAudited(m: Market, pivots: seq<string>, currency: string, amountCents: int, k: nat)
    requires k < |DISPLAY_CURRENCIES| && ConvertTo(m, pivots, currency, amountCents, k + 1).Success?
    requires KeysAreDisplayed(ConvertTo(m, pivots, currency, amountCents, k).value, k)
    ensures Audited(ConvertTo(m, pivots, currency, amountCents, k + 1).value, currency, amountCents,
            DISPLAY_CURRENCIES[k])
  {
    var target := DISPLAY_CURRENCIES[k];
    LowerDistinct(k);
    if currency != target && ResolvePath(m, currency, target, pivots).Some? {
      PathIsConnected(m, currency, target, pivots);
      PathMetadataExplains(ResolvePath(m, currency, target, pivots).value, currency, target, amountCents);
    }
  }

  lemma OthersKept(m: Market, pivots: seq<string>, currency: string, amountCents: int, k: nat, i: nat)
    requires i < k < |DISPLAY_CURRENCIES| && ConvertTo(m, pivots, currency, amountCents, k + 1).Success?
    requires Audited(ConvertTo(m, pivots, currency, amountCents, k).value, currency, amountCents, DISPLAY_CURRENCIES[i])
    ensures Audited(ConvertTo(m, pivots, currency, amountCents, k + 1).value, currency, amountCents,
            DISPLAY_CURRENCIES[i])
  {
    LowerDistinct(k);
  }

  lemma LowerDistinct(k: nat)
    requires k < |DISPLAY_CURRENCIES|
    ensures forall i :: 0 <= i < k ==>
            DISPLAY_CURRENCIES[i] != DISPLAY_CURRENCIES[k]
                && Lower(DISPLAY_CURRENCIES[i]) != Lower(DISPLAY_CURRENCIES[k])
  {
  }

  /** A display amount of a fresh row, against the same amount at mid rates. */
  ghost predicate NotOverstated(m: Market, pivots: seq<string>, currency: string, amountCents: nat, target: string,
                                shown: Option<int>) {
    match shown
    case None => ResolveRoute(m, currency, target, pivots).None?
        && forall r :: !AdmissibleRoute(m, currency, target, pivots, r)
    case Some(cents) =>
      || (currency == target && cents == amountCents)
      || (exists p :: ResolvePath(m, currency, target, pivots) == Some(p)
            && PricedFrom(m.table, p) && PositiveRates(AtMid(m.table, p))
            && 0 <= cents <= RoundHalfUp(ApplyAll(AtMid(m.table, p), amountCents as real)))
  }

  lemma MeantIsNotOverstated(m: Market, pivots: seq<string>, currency: string, amountCents: nat, target: string,
                             shown: Option<int>)
    requires SoundSpreads(m.table) && AmountMeans(m, pivots, currency, amountCents, target, shown)
    ensures NotOverstated(m, pivots, currency, amountCents, target, shown)
  {
    if currency != target {
      ResolveRouteIsBest(m, currency, target, pivots);
      if ResolvePath(m, currency, target, pivots).Some? {
        ConversionNeverOverstates(m, currency, target, pivots, amountCents);
        assert ResolvePath(m, currency, target, pivots) == Some(ResolvePath(m, currency, target, pivots).value);
      }
    }
  }

  /** End to end: the USD, UAH and EUR amounts an enrichment step stores never exceed what the mid rates of the
      route it used would give, and one is missing only when no admissible route exists at all. */
  lemma StoredAmountsNeverOverstate(accounts: map<Id, Account>, ibans: map<(Id, string), Id>, phrases: Phrases,
                                    table: RateTable.Table, config: Config, db: Db, e: Event)
    requires SoundSpreads(table) && e.amountCents >= 0 && e.id !in db.rows && Keyed(db.rows)
    requires Processable(EnvOver(accounts, ibans, phrases, table, config), e)
    ensures LoadSourceChain(config, EntrySource(e.rateSource, e.source)).Chain?
    ensures var env := EnvOver(accounts, ibans, phrases, table, config);
            var chain := LoadSourceChain(config, EntrySource(e.rateSource, e.source)).configs;
            var m, pivots, currency := Market(table, chain, e.time), FirstSeen(AllBases(chain)),
                accounts[e.accountId].currencyCode;
            var rows := Enrich(env, db, e).rows;
            && e.id in rows
            && NotOverstated(m, pivots, currency, e.amountCents, "UAH", rows[e.id].amountUahCents)
            && NotOverstated(m, pivots, currency, e.amountCents, "USD", rows[e.id].amountUsdCents)
            && NotOverstated(m, pivots, currency, e.amountCents, "EUR", rows[e.id].amountEurCents)
  {
    var env := EnvOver(accounts, ibans, phrases, table, config);
    var chain := LoadSourceChain(config, EntrySource(e.rateSource, e.source)).configs;
    var m, pivots, currency := Market(table, chain, e.time), FirstSeen(AllBases(chain)),
        accounts[e.accountId].currencyCode;
    var amounts := env.convert(e, currency).value.amounts;
    ConvertToMeans(m, pivots, currency, e.amountCents, |DISPLAY_CURRENCIES|);
    assert DISPLAY_CURRENCIES[0] == "UAH" && DISPLAY_CURRENCIES[1] == "USD" && DISPLAY_CURRENCIES[2] == "EUR";
    MeantIsNotOverstated(m, pivots, currency, e.amountCents, "UAH", amounts["UAH"]);
    MeantIsNotOverstated(m, pivots, currency, e.amountCents, "USD", amounts["USD"]);
    MeantIsNotOverstated(m, pivots, currency, e.amountCents, "EUR", amounts["EUR"]);
    FreshRowAmounts(env, db, e);
  }

  function RateLayer(r: Row): RateMetadata {
    if r.metadata.Some? && r.metadata.value.layer.Some? then GetOr(r.metadata.value.layer.value.rate, map[]) else map[]
  }

  lemma FreshRowAmounts(env: Env, db: Db, e: Event)
    requires Processable(env, e) && e.id !in db.rows && Keyed(db.rows)
    ensures var c := env.convert(e, env.accounts[e.accountId].currencyCode).value;
            var rows := Enrich(env, db, e).rows;
            && e.id in rows
            && rows[e.id].amountUahCents == AmountIn(c, "UAH")
            && rows[e.id].amountUsdCents == AmountIn(c, "USD")
            && rows[e.id].amountEurCents == AmountIn(c, "EUR")
            && RateLayer(rows[e.id]) == c.rateMetadata
  {
    if Detect(env, db.rows, e).partner.Some? { PartnerIsCandidate(env, db.rows, e); }
  }
}
