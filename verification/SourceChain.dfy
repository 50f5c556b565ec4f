/** The fallback chain of rate sources, as `load_source_chain` reads it. */
module SourceChain {
  import opened Common

  datatype ConfigRow = ConfigRow(fallback: Option<string>, baseCurrencies: seq<string>)

  /** `rate_source_config`: one row for each source. */
  type Config = map<string, ConfigRow>

  datatype SourceConfig = SourceConfig(source: string, baseCurrencies: seq<string>)

  datatype ChainResult = Chain(configs: seq<SourceConfig>) | ChainError

  const MAX_CHAIN_DEPTH: nat := 10

  /** The recursive query: the sources reached from `source`, the first at the given depth. */
  function ChainFrom(config: Config, source: Option<string>, depth: nat): (chain: seq<string>)
    requires 1 <= depth <= MAX_CHAIN_DEPTH + 1
    ensures |chain| <= MAX_CHAIN_DEPTH + 1 - depth
    ensures forall s :: s in chain ==> s in config
    decreases MAX_CHAIN_DEPTH + 1 - depth
  {
    if source.None? || source.value !in config || depth > MAX_CHAIN_DEPTH then []
    else [source.value] + ChainFrom(config, config[source.value].fallback, depth + 1)
  }

  function LoadSourceChain(config: Config, entry: string): ChainResult {
    var chain := ChainFrom(config, Some(entry), 1);
    if |chain| == MAX_CHAIN_DEPTH && config[chain[|chain| - 1]].fallback.Some? then ChainError
    else Chain(seq(|chain|, i requires 0 <= i < |chain| => SourceConfig(chain[i], config[chain[i]].baseCurrencies)))
  }

  /** The n-th source on the way from `entry`, with no cap on depth. */
  function Nth(config: Config, entry: string, n: nat): (s: Option<string>)
    ensures s.Some? ==> s.value in config
  {
    if n == 0 then if entry in config then Some(entry) else None
    else
      match Nth(config, entry, n - 1)
      case None => None
      case Some(s) =>
        if config[s].fallback.Some? && config[s].fallback.value in config then config[s].fallback else None
  }

  ghost predicate Cyclic(config: Config, entry: string) {
    exists i: nat, j: nat :: i < j && Nth(config, entry, i).Some? && Nth(config, entry, i) == Nth(config, entry, j)
  }

  /** The source the query stands at, at a given depth. */
  ghost predicate StandsAt(config: Config, entry: string, source: Option<string>, depth: nat) {
    1 <= depth <= MAX_CHAIN_DEPTH + 1 && (if depth == 1 then source == Some(entry)
      else Nth(config, entry, depth - 2).Some? && source == config[Nth(config, entry, depth - 2).value].fallback)
  }

  lemma StandsAtNext(config: Config, entry: string, source: Option<string>, depth: nat)
    requires StandsAt(config, entry, source, depth) && ChainFrom(config, source, depth) != []
    ensures Nth(config, entry, depth - 1) == source && source.Some? && source.value in config
    ensures StandsAt(config, entry, config[source.value].fallback, depth + 1)
    ensures ChainFrom(config, source, depth) ==
            [source.value] + ChainFrom(config, config[source.value].fallback, depth + 1)
  {
  }

  lemma {:induction false} ChainIsNth(config: Config, entry: string, source: Option<string>, depth: nat)
    requires StandsAt(config, entry, source, depth)
    ensures var chain := ChainFrom(config, source, depth);
            && (forall i: nat :: i < |chain| ==> Nth(config, entry, depth - 1 + i) == Some(chain[i]))
            && (depth - 1 + |chain| < MAX_CHAIN_DEPTH ==> Nth(config, entry, depth - 1 + |chain|).None?)
    decreases MAX_CHAIN_DEPTH + 1 - depth
  {
    var chain := ChainFrom(config, source, depth);
    if chain != [] {
      StandsAtNext(config, entry, source, depth);
      var fallback := config[source.value].fallback;
      ChainIsNth(config, entry, fallback, depth + 1);
      forall i: nat | i < |chain| ensures Nth(config, entry, depth - 1 + i) == Some(chain[i]) {
        if i > 0 { assert Nth(config, entry, depth + (i - 1)) == Some(ChainFrom(config, fallback, depth + 1)[i - 1]); }
      }
    }
  }

  lemma {:induction false} NthEnds(config: Config, entry: string, n: nat, m: nat)
    requires n <= m && Nth(config, entry, n).None?
    ensures Nth(config, entry, m).None?
  {
    if n < m { NthEnds(config, entry, n, m - 1); }
  }

  lemma {:induction false} NthRepeats(config: Config, entry: string, i: nat, j: nat, m: nat)
    requires Nth(config, entry, i) == Nth(config, entry, j)
    ensures Nth(config, entry, i + m) == Nth(config, entry, j + m)
  {
    if m > 0 { NthRepeats(config, entry, i, j, m - 1); }
  }

  /** A repeat means the walk never ends. */
  lemma {:induction false} CycleNeverEnds(config: Config, entry: string, i: nat, j: nat, n: nat)
    requires i < j && Nth(config, entry, i).Some? && Nth(config, entry, i) == Nth(config, entry, j)
    ensures Nth(config, entry, n).Some?
  {
    if n <= j {
      if Nth(config, entry, n).None? { NthEnds(config, entry, n, j); }
    } else {
      CycleNeverEnds(config, entry, i, j, n - (j - i));
      NthRepeats(config, entry, i, j, n - j);
    }
  }

  /** A configuration is rejected exactly when its tenth source still names a fallback. */
  lemma ChainErrorIff(config: Config, entry: string)
    ensures LoadSourceChain(config, entry).ChainError? <==>
            && Nth(config, entry, 9).Some?
            && config[Nth(config, entry, 9).value].fallback.Some?
  {
    ChainIsNth(config, entry, Some(entry), 1);
    var chain := ChainFrom(config, Some(entry), 1);
    if |chain| < MAX_CHAIN_DEPTH { NthEnds(config, entry, |chain|, MAX_CHAIN_DEPTH - 1); }
  }

  /** Every configuration that runs into a cycle from `entry` is rejected. */
  lemma CyclicConfigRejected(config: Config, entry: string)
    requires Cyclic(config, entry)
    ensures LoadSourceChain(config, entry).ChainError?
  {
    var i: nat, j: nat :| i < j && Nth(config, entry, i).Some? && Nth(config, entry, i) == Nth(config, entry, j);
    CycleNeverEnds(config, entry, i, j, MAX_CHAIN_DEPTH - 1);
    CycleNeverEnds(config, entry, i, j, MAX_CHAIN_DEPTH);
    ChainErrorIff(config, entry);
  }

  /** An accepted chain visits no source twice, follows the fallbacks, ends where they end, and brings along what
      each source is configured with. */
  lemma AcceptedChainIsSimple(config: Config, entry: string)
    requires LoadSourceChain(config, entry).Chain?
    ensures var configs := LoadSourceChain(config, entry).configs;
            && (forall i, j :: 0 <= i < j < |configs| ==> configs[i].source != configs[j].source)
            && (forall i: nat :: i < |configs| ==>
                  && Nth(config, entry, i) == Some(configs[i].source)
                  && configs[i].baseCurrencies == config[configs[i].source].baseCurrencies)
            && Nth(config, entry, |configs|).None?
  {
    var configs := LoadSourceChain(config, entry).configs;
    LoadedIsNth(config, entry);
    forall i, j | 0 <= i < j < |configs| ensures configs[i].source != configs[j].source {
      assert Nth(config, entry, i) == Some(configs[i].source) && Nth(config, entry, j) == Some(configs[j].source);
      if configs[i].source == configs[j].source { CyclicConfigRejected(config, entry); }
    }
  }

  lemma LoadedIsNth(config: Config, entry: string)
    requires LoadSourceChain(config, entry).Chain?
    ensures var configs := LoadSourceChain(config, entry).configs;
            && (forall i: nat :: i < |configs| ==>
                  && Nth(config, entry, i) == Some(configs[i].source)
                  && configs[i].baseCurrencies == config[configs[i].source].baseCurrencies)
            && Nth(config, entry, |configs|).None?
  {
    var chain, configs := ChainFrom(config, Some(entry), 1), LoadSourceChain(config, entry).configs;
    ChainIsNth(config, entry, Some(entry), 1);
    LoadedEnds(config, entry, chain);
    forall i: nat | i < |configs|
      ensures Nth(config, entry, i) == Some(configs[i].source)
      ensures configs[i].baseCurrencies == config[configs[i].source].baseCurrencies
    {
      assert configs[i].source == chain[i] && Nth(config, entry, i) == Some(chain[i]);
    }
  }

  /** The chain stops because there is nowhere to go, not because of the cap. */
  lemma LoadedEnds(config: Config, entry: string, chain: seq<string>)
    requires LoadSourceChain(config, entry).Chain? && chain == ChainFrom(config, Some(entry), 1)
    ensures Nth(config, entry, |chain|).None?
  {
    ChainIsNth(config, entry, Some(entry), 1);
    if |chain| == MAX_CHAIN_DEPTH {
      assert Nth(config, entry, MAX_CHAIN_DEPTH - 1) == Some(chain[MAX_CHAIN_DEPTH - 1]);
    }
  }
}
