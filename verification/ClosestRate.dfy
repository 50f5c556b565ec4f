/** `find_closest_rate` against everything the rate store was ever given. */
module ClosestRate {
  import opened Common
  import opened RateTable
  import opened RateHistory
  import opened RateStore
  import opened SourceChain
  import opened RatePath

  /** Every observation lies in the live interval of a run that carries its rates. */
  lemma {:induction false} ObservationsAreLive(log: seq<Poll>, k: Key, i: nat)
    requires OneKey(log, k) && NonDecreasing(log) && i < |log|
    ensures exists r ::
              && 0 <= r < |Runs(log)| && LiveAt(Runs(log)[r], log[i].atTime)
              && Runs(log)[r].rates == log[i].rates
  {
    var n := |log| - 1;
    var init := log[..n];
    RunsAbut(init, k);
    RunsOrdered(log, k);
    if i == n {
      RunsAbut(log, k);
      assert LiveAt(Runs(log)[|Runs(log)| - 1], log[n].atTime);
    } else {
      ObservationsAreLive(init, k, i);
      var r :| 0 <= r < |Runs(init)| && LiveAt(Runs(init)[r], init[i].atTime) && Runs(init)[r].rates == init[i].rates;
      StillLive(Runs(init), k, init[n - 1], log[n], r, log[i].atTime);
      assert LiveAt(Runs(log)[r], log[i].atTime);
    }
  }

  lemma StillLive(rows: seq<RateRow>, k: Key, last: Poll, p: Poll, r: nat, t: int)
    requires Abut(rows, k) && r < |rows| && LiveAt(rows[r], t) && last.atTime <= p.atTime
    requires rows[|rows| - 1].lastPolledAt == Some(last.atTime)
    ensures LiveAt(Extend(rows, p)[r], t) && Extend(rows, p)[r].rates == rows[r].rates
  {
  }

  /** Each end of a run's live interval is an observation of its rates, in whatever order the polls came. */
  lemma {:induction false} RunEndsAreObserved(log: seq<Poll>, k: Key, r: nat)
    requires OneKey(log, k) && r < |Runs(log)|
    ensures exists i :: 0 <= i < |log| && log[i].atTime == Runs(log)[r].validFrom && log[i].rates == Runs(log)[r].rates
    ensures exists i ::
              && 0 <= i < |log| && Some(log[i].atTime) == Runs(log)[r].lastPolledAt
              && log[i].rates == Runs(log)[r].rates
  {
    var n := |log| - 1;
    var init, p := log[..n], log[n];
    RunsAbut(init, k);
    if r < |Runs(init)| {
      RunEndsAreObserved(init, k, r);
      var i :| 0 <= i < n && init[i].atTime == Runs(init)[r].validFrom && init[i].rates == Runs(init)[r].rates;
      var j :| 0 <= j < n && Some(init[j].atTime) == Runs(init)[r].lastPolledAt && init[j].rates == Runs(init)[r].rates;
      assert log[i] == init[i] && log[j] == init[j];
    }
    assert log[n] == p;
  }

  /** The keys the query ranges over: the pair, at any source of the chain. */
  predicate Asked(m: Market, k: Key, currencyFrom: string, currencyTo: string) {
    k.currencyFrom == currencyFrom && k.currencyTo == currencyTo && Position(m.chain, k.source) < |m.chain|
  }

  /** Was a rate of k recorded for the instant s? */
  ghost predicate Recorded(repo: CurrencyRateRepo, k: Key, s: int)
    reads repo
  {
    || s in Published(repo.publications, k)
    || exists i :: 0 <= i < |LogOf(repo.polls, k)| && LogOf(repo.polls, k)[i].atTime == s
  }

  /** Whatever was recorded for an instant, some row of the pair is at least as close to t as that instant. */
  lemma SomeRowIsAsClose(repo: CurrencyRateRepo, k: Key, s: int, t: int)
    requires repo.Valid() && Recorded(repo, k, s)
             && (s in Published(repo.publications, k) || NonDecreasing(LogOf(repo.polls, k)))
    ensures exists id :: id in repo.rows && repo.rows[id].key == k && Proximity(repo.rows[id], t) <= Abs(s - t)
  {
    var pub, log, ids := Published(repo.publications, k), LogOf(repo.polls, k), IdsIn(repo.polledIds, k);
    assert PairIndexed(repo.rows, repo.publications, repo.polls, repo.polledIds, k);
    if s in pub {
      assert HasRowAt(repo.rows, k, s);
      var id :| id in repo.rows && IsHistorical(repo.rows[id], k) && repo.rows[id].validFrom == s;
      ProximityIsDistance(repo.rows[id], t);
    } else {
      var i :| 0 <= i < |log| && log[i].atTime == s;
      LogHasOneKey(repo.polls, k);
      RunIsAsClose(repo.rows, k, ids, log, i, t);
    }
  }

  lemma RunIsAsClose(table: Table, k: Key, ids: seq<Id>, log: seq<Poll>, i: nat, t: int)
    requires OneKey(log, k) && NonDecreasing(log) && Lists(table, k, ids, log) && i < |log|
    ensures exists id :: id in table && table[id].key == k && Proximity(table[id], t) <= Abs(log[i].atTime - t)
  {
    ObservationsAreLive(log, k, i);
    var r :| 0 <= r < |Runs(log)| && LiveAt(Runs(log)[r], log[i].atTime) && Runs(log)[r].rates == log[i].rates;
    RunsAbut(log, k);
    ProximityIsDistance(table[ids[r]], t);
    assert ids[r] in table;
  }

  /** Nothing recorded for the pair at any source of the chain is nearer to the transaction than the row returned;
      and when none is returned, nothing was recorded within seven days. For observations, their poll times must be in
      order; publications may come in any. */
  lemma NothingRecordedIsCloser(repo: CurrencyRateRepo, chain: seq<SourceConfig>, currencyFrom: string,
                                currencyTo: string,
                                t: int, k: Key, s: int)
    requires repo.Valid() && Recorded(repo, k, s)
             && (s in Published(repo.publications, k) || NonDecreasing(LogOf(repo.polls, k)))
    requires Asked(Market(repo.rows, chain, t), k, currencyFrom, currencyTo)
    ensures match FindClosest(Market(repo.rows, chain, t), currencyFrom, currencyTo)
            case None => Abs(s - t) > 7 * 24 * 3600 * SECOND
            case Some(id) => Proximity(repo.rows[id], t) <= Abs(s - t)
  {
    var m := Market(repo.rows, chain, t);
    SomeRowIsAsClose(repo, k, s, t);
    var near :| near in repo.rows && repo.rows[near].key == k && Proximity(repo.rows[near], t) <= Abs(s - t);
    ClosestIsNearest(m, currencyFrom, currencyTo, near);
  }

  lemma ClosestIsNearest(m: Market, currencyFrom: string, currencyTo: string, id: Id)
    requires id in m.table && Asked(m, m.table[id].key, currencyFrom, currencyTo)
    ensures match FindClosest(m, currencyFrom, currencyTo)
            case None => Proximity(m.table[id], m.atTime) > MAX_CLOSEST_RATE_AGE
            case Some(best) => best in m.table && Proximity(m.table[best], m.atTime) <= Proximity(m.table[id], m.atTime)
  {
    var ranks := CloseRanks(m, currencyFrom, currencyTo);
    var found := FindClosest(m, currencyFrom, currencyTo);
    if IsClose(m, m.table[id], currencyFrom, currencyTo) {
      assert id in ranks;
      if found.Some? { assert LexLe(ranks[found.value], ranks[id]); }
    }
  }

  /** The row returned was recorded: its rates are those of a publication at its start, or of observations at both
      ends of its live interval. */
  lemma ClosestWasRecorded(repo: CurrencyRateRepo, chain: seq<SourceConfig>, currencyFrom: string, currencyTo: string,
                           t: int)
    requires repo.Valid() && FindClosest(Market(repo.rows, chain, t), currencyFrom, currencyTo).Some?
    ensures var m := Market(repo.rows, chain, t);
            var id := FindClosest(m, currencyFrom, currencyTo).value;
            && id in repo.rows && Asked(m, repo.rows[id].key, currencyFrom, currencyTo)
            && Proximity(repo.rows[id], t) <= MAX_CLOSEST_RATE_AGE
            && RowWasRecorded(Published(repo.publications, repo.rows[id].key), LogOf(repo.polls, repo.rows[id].key),
                repo.rows[id])
  {
    var id := FindClosest(Market(repo.rows, chain, t), currencyFrom, currencyTo).value;
    var k := repo.rows[id].key;
    assert PairIndexed(repo.rows, repo.publications, repo.polls, repo.polledIds, k);
    LogHasOneKey(repo.polls, k);
    if repo.rows[id].lastPolledAt.Some? {
      ListedWasRecorded(repo.rows, k, IdsIn(repo.polledIds, k), LogOf(repo.polls, k), id);
    }
  }

  ghost predicate Observed(log: seq<Poll>, t: int, rates: Rates) {
    exists i :: 0 <= i < |log| && log[i].atTime == t && log[i].rates == rates
  }

  ghost predicate RowWasRecorded(pub: map<int, Rates>, log: seq<Poll>, row: RateRow) {
    match row.lastPolledAt
    case None => row.validFrom in pub && pub[row.validFrom] == row.rates
    case Some(polled) => Observed(log, row.validFrom, row.rates) && Observed(log, polled, row.rates)
  }

  lemma ListedWasRecorded(table: Table, k: Key, ids: seq<Id>, log: seq<Poll>, id: Id)
    requires OneKey(log, k) && Lists(table, k, ids, log) && id in table && IsPolled(table[id], k)
    ensures Observed(log, table[id].validFrom, table[id].rates)
            && Observed(log, table[id].lastPolledAt.value, table[id].rates)
  {
    var r :| 0 <= r < |ids| && ids[r] == id;
    RunEndsAreObserved(log, k, r);
  }
}
