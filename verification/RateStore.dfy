/** The writer of `currency_rates`: rows are split, shrunk, closed, extended and overwritten in
    place, and stay the index that RateHistory describes of everything written so far. */
module RateStore {
  import opened Common
  import opened RateTable
  import opened RateHistory

  datatype Outcome = Written | InvariantViolated

  /** The two row types of a pair, which are independent sequences. */
  ghost function PolledPart(table: Table, k: Key): Table {
    map id | id in table && IsPolled(table[id], k) :: table[id]
  }

  ghost function HistoricalPart(table: Table, k: Key): Table {
    map id | id in table && IsHistorical(table[id], k) :: table[id]
  }

  /** `after` differs from `before` only in rows of one type and one pair. */
  ghost predicate WritesOnly(before: Table, after: Table, k: Key, polled: bool) {
    && (forall id :: id in before ==> id in after)
    && (forall id :: id in after ==>
          || (id in before && after[id] == before[id])
          || (after[id].key == k && after[id].lastPolledAt.Some? == polled
              && (id in before ==> before[id].key == k && before[id].lastPolledAt.Some? == polled)))
  }

  lemma WritesOnlyFrame(before: Table, after: Table, k: Key, polled: bool)
    requires WritesOnly(before, after, k, polled)
    ensures forall j :: !(polled && j == k) ==> PolledPart(after, j) == PolledPart(before, j)
    ensures forall j :: !(!polled && j == k) ==> HistoricalPart(after, j) == HistoricalPart(before, j)
  {
  }

  lemma ListsFrame(before: Table, after: Table, k: Key, ids: seq<Id>, log: seq<Poll>)
    requires PolledPart(after, k) == PolledPart(before, k) && OneKey(log, k)
    requires Lists(before, k, ids, log)
    ensures Lists(after, k, ids, log)
  {
    RunsAbut(log, k);
    forall i | 0 <= i < |ids| ensures ids[i] in after && after[ids[i]] == before[ids[i]] {
      assert ids[i] in PolledPart(before, k);
    }
    forall id | id in after && IsPolled(after[id], k) ensures id in ids {
      assert id in PolledPart(after, k);
    }
  }

  lemma TilesFrame(before: Table, after: Table, k: Key, pub: map<int, Rates>)
    requires HistoricalPart(after, k) == HistoricalPart(before, k)
    requires Tiles(before, k, pub)
    ensures Tiles(after, k, pub)
  {
    assert forall id :: id in after && IsHistorical(after[id], k) ==> id in HistoricalPart(before, k);
    forall t | t in pub ensures HasRowAt(after, k, t) {
      assert HasRowAt(before, k, t);
      var id :| id in before && IsHistorical(before[id], k) && before[id].validFrom == t;
      assert id in HistoricalPart(after, k);
    }
  }

  // ---------------------------------------------------------------- one poll, on values

  function OpenPolled(table: Table, k: Key): set<Id> {
    set id | id in table && IsPolled(table[id], k) && table[id].validTo.None?
  }

  lemma OnlyLastOpen(log: seq<Poll>, k: Key, q: nat)
    requires OneKey(log, k) && q < |Runs(log)|
    ensures Runs(log)[q].validTo.None? <==> q == |Runs(log)| - 1
  {
    RunsAbut(log, k);
    if q + 1 < |Runs(log)| { assert Runs(log)[q].validTo == Some(Runs(log)[q + 1].validFrom); }
  }

  /** The row `upsert_polled` fetches as open is the last run. */
  lemma OpenRowIsLast(table: Table, k: Key, ids: seq<Id>, log: seq<Poll>)
    requires OneKey(log, k) && Lists(table, k, ids, log)
    ensures OpenPolled(table, k) == if ids == [] then {} else {ids[|ids| - 1]}
  {
    RunsAbut(log, k);
    forall id | id in OpenPolled(table, k) ensures ids != [] && id == ids[|ids| - 1] {
      var q :| 0 <= q < |ids| && ids[q] == id;
      OnlyLastOpen(log, k, q);
    }
  }

  lemma PollBumpsOpenRow(table: Table, k: Key, ids: seq<Id>, log: seq<Poll>, p: Poll)
    requires OneKey(log, k) && Lists(table, k, ids, log) && ids != []
    requires p.key == k && Runs(log)[|ids| - 1].rates == p.rates
    ensures var open := ids[|ids| - 1];
            Lists(table[open := table[open].(lastPolledAt := Some(p.atTime), updateCadenceSeconds := Some(p.cadence))],
                  k, ids, log + [p])
  {
    assert (log + [p])[..|log|] == log;
    RunsAbut(log, k);
  }

  lemma PollOpensRow(table: Table, k: Key, ids: seq<Id>, log: seq<Poll>, p: Poll, fresh0: Id)
    requires OneKey(log, k) && Lists(table, k, ids, log) && p.key == k && fresh0 !in table
    requires ids != [] ==> Runs(log)[|ids| - 1].rates != p.rates
    ensures var closed := if ids == [] then table
                          else table[ids[|ids| - 1] := table[ids[|ids| - 1]].(validTo := Some(p.atTime))];
            Lists(closed[fresh0 := OpenRow(p)], k, ids + [fresh0], log + [p])
  {
    assert (log + [p])[..|log|] == log;
    RunsAbut(log, k);
  }

  // ---------------------------------------------------------------- one publication, on values

  lemma Overwrites(table: Table, k: Key, pub: map<int, Rates>, id: Id, rates: Rates)
    requires Tiles(table, k, pub) && id in table && IsHistorical(table[id], k)
    ensures Tiles(table[id := table[id].(rates := rates)], k, pub[table[id].validFrom := rates])
  {
    var t, after, pub' := table[id].validFrom, table[id := table[id].(rates := rates)],
        pub[table[id].validFrom := rates];
    assert pub'.Keys == pub.Keys;
    forall u | u in pub' ensures HasRowAt(after, k, u) {
      assert HasRowAt(table, k, u);
      var i :| i in table && IsHistorical(table[i], k) && table[i].validFrom == u;
      assert i in after && IsHistorical(after[i], k) && after[i].validFrom == u;
    }
  }

  function StartingAt(table: Table, k: Key, t: int): set<Id> {
    set id | id in table && IsHistorical(table[id], k) && table[id].validFrom == t
  }

  function StartingAfter(table: Table, k: Key, t: int): set<Id> {
    set id | id in table && IsHistorical(table[id], k) && table[id].validFrom > t
  }

  lemma NoRowNoPublication(table: Table, k: Key, pub: map<int, Rates>, t: int)
    requires Tiles(table, k, pub) && StartingAt(table, k, t) == {}
    ensures t !in pub
  {
    assert forall id :: id in table && IsHistorical(table[id], k) ==>
           (table[id].validFrom == t <==> id in StartingAt(table, k, t));
    assert t in pub ==> HasRowAt(table, k, t);
  }

  /** With no row at, around or after t there is no row at all. */
  lemma NoOrphans(table: Table, k: Key, pub: map<int, Rates>, t: int)
    requires Tiles(table, k, pub) && StartingAfter(table, k, t) == {}
    requires forall u :: u in pub ==> t < u
    ensures pub == map[] && forall id :: id in table ==> !IsHistorical(table[id], k)
  {
    forall id | id in table ensures !IsHistorical(table[id], k) {
      assert IsHistorical(table[id], k) ==> id in StartingAfter(table, k, t);
    }
    forall u ensures u !in pub {
      assert u in pub ==> HasRowAt(table, k, u);
    }
  }

  function HistoricalRow(k: Key, rates: Rates, validFrom: int, validTo: Option<int>): RateRow {
    RateRow(k, rates, validFrom, validTo, None, None)
  }

  /** A new time between two stored ones: the covering row shrinks, the new row takes its tail. */
  lemma Splits(table: Table, k: Key, pub: map<int, Rates>, c: Id, t: int, rates: Rates, fresh0: Id)
    requires Tiles(table, k, pub) && t !in pub && fresh0 !in table
    requires c in table && IsHistorical(table[c], k) && table[c].validFrom < t && Covers(table[c], t)
    ensures Tiles(table[c := table[c].(validTo := Some(t))][fresh0 := HistoricalRow(k, rates, t, table[c].validTo)],
                  k, pub[t := rates])
  {
    var after := table[c := table[c].(validTo := Some(t))][fresh0 := HistoricalRow(k, rates, t, table[c].validTo)];
    var pub' := pub[t := rates];
    assert pub'.Keys == pub.Keys + {t};
    forall i | i in after && IsHistorical(after[i], k)
      ensures IsNext(pub'.Keys, after[i].validFrom, after[i].validTo)
    {
      if i != fresh0 && i != c {
        assert table[i].validFrom in pub.Keys && table[c].validFrom in pub.Keys;
        if table[c].validTo.Some? { assert table[c].validTo.value in pub.Keys; }
      }
    }
    Reaches(table, after, k, pub, t, rates, fresh0);
  }

  lemma Reaches(table: Table, after: Table, k: Key, pub: map<int, Rates>, t: int, rates: Rates, fresh0: Id)
    requires Tiles(table, k, pub) && fresh0 in after && IsHistorical(after[fresh0], k) && after[fresh0].validFrom == t
    requires forall i :: i in table ==> (i in after && after[i].key == table[i].key
                                         && after[i].lastPolledAt == table[i].lastPolledAt
                                         && after[i].validFrom == table[i].validFrom)
    ensures forall u :: u in pub[t := rates] ==> HasRowAt(after, k, u)
  {
    forall u | u in pub[t := rates] ensures HasRowAt(after, k, u) {
      if u == t {
        assert fresh0 in after;
      } else {
        assert HasRowAt(table, k, u);
        var i :| i in table && IsHistorical(table[i], k) && table[i].validFrom == u;
        assert i in after && IsHistorical(after[i], k) && after[i].validFrom == u;
      }
    }
  }

  /** A new time before every stored one, or the very first. */
  lemma Prepends(table: Table, k: Key, pub: map<int, Rates>, t: int, rates: Rates, next: Option<int>, fresh0: Id)
    requires Tiles(table, k, pub) && fresh0 !in table && IsNext(pub.Keys, t, next)
    requires forall u :: u in pub ==> t < u
    ensures Tiles(table[fresh0 := HistoricalRow(k, rates, t, next)], k, pub[t := rates])
  {
    var after, pub' := table[fresh0 := HistoricalRow(k, rates, t, next)], pub[t := rates];
    assert pub'.Keys == pub.Keys + {t};
    Reaches(table, after, k, pub, t, rates, fresh0);
  }

  // ---------------------------------------------------------------- the repository

  function IdsIn(polledIds: map<Key, seq<Id>>, k: Key): seq<Id> {
    if k in polledIds then polledIds[k] else []
  }

  ghost predicate PairIndexed(table: Table, pubs: seq<Publication>, polls: seq<Poll>, polledIds: map<Key, seq<Id>>,
                              k: Key) {
    && Tiles(table, k, Published(pubs, k))
    && Lists(table, k, IdsIn(polledIds, k), LogOf(polls, k))
  }

  /** The table indexes, pair by pair, everything that was written. */
  ghost predicate Indexes(table: Table, pubs: seq<Publication>, polls: seq<Poll>, polledIds: map<Key, seq<Id>>) {
    forall k {:trigger PairIndexed(table, pubs, polls, polledIds, k)} :: PairIndexed(table, pubs, polls, polledIds, k)
  }

  lemma PollIndexed(before: Table, after: Table, pubs: seq<Publication>, polls: seq<Poll>, polledIds: map<Key, seq<Id>>,
                    p: Poll, ids: seq<Id>)
    requires Indexes(before, pubs, polls, polledIds) && WritesOnly(before, after, p.key, true)
    requires Lists(after, p.key, ids, LogOf(polls, p.key) + [p])
    ensures Indexes(after, pubs, polls + [p], polledIds[p.key := ids])
  {
    WritesOnlyFrame(before, after, p.key, true);
    assert (polls + [p])[..|polls|] == polls;
    var polls', ids' := polls + [p], polledIds[p.key := ids];
    forall k ensures PairIndexed(after, pubs, polls', ids', k) {
      assert PairIndexed(before, pubs, polls, polledIds, k);
      TilesFrame(before, after, k, Published(pubs, k));
      if k != p.key {
        LogHasOneKey(polls, k);
        ListsFrame(before, after, k, IdsIn(polledIds, k), LogOf(polls, k));
      }
    }
  }

  lemma PublicationIndexed(before: Table, after: Table, pubs: seq<Publication>, polls: seq<Poll>,
                           polledIds: map<Key, seq<Id>>, p: Publication)
    requires Indexes(before, pubs, polls, polledIds) && WritesOnly(before, after, p.key, false)
    requires Tiles(after, p.key, Published(pubs, p.key)[p.atTime := p.rates])
    ensures Indexes(after, pubs + [p], polls, polledIds)
  {
    WritesOnlyFrame(before, after, p.key, false);
    assert (pubs + [p])[..|pubs|] == pubs;
    var pubs' := pubs + [p];
    forall k ensures PairIndexed(after, pubs', polls, polledIds, k) {
      assert PairIndexed(before, pubs, polls, polledIds, k);
      if k != p.key { TilesFrame(before, after, k, Published(pubs, k)); }
      LogHasOneKey(polls, k);
      ListsFrame(before, after, k, IdsIn(polledIds, k), LogOf(polls, k));
    }
  }

  class CurrencyRateRepo {
    var rows: Table
    var nextId: Id
    // Everything ever written, in call order, and the polled row ids of each pair in opening order.
    ghost var publications: seq<Publication>
    ghost var polls: seq<Poll>
    ghost var polledIds: map<Key, seq<Id>>

    ghost predicate Valid()
      reads this
    {
      && (forall id :: id in rows ==> id < nextId)
      && Indexes(rows, publications, polls, polledIds)
    }

    constructor ()
      ensures Valid() && rows == map[] && publications == [] && polls == []
    {
      rows, nextId := map[], 0;
      publications, polls, polledIds := [], [], map[];
    }

    /** INSERT INTO currency_rates: the database picks a fresh key. */
    method Insert(row: RateRow)
      modifies this`rows, this`nextId
      ensures rows == old(rows)[old(nextId) := row] && nextId == old(nextId) + 1
    {
      rows := rows[nextId := row];
      nextId := nextId + 1;
    }

    /** Polled rows stay the run-length form of the poll log; historical rows are not touched. */
    method UpsertPolled(k: Key, rates: Rates, cadence: int, atTime: int)
      requires Valid()
      modifies this
      ensures Valid()
      ensures polls == old(polls) + [Poll(k, atTime, rates, cadence)] && publications == old(publications)
      ensures WritesOnly(old(rows), rows, k, true)
    {
      var p := Poll(k, atTime, rates, cadence);
      ghost var before, ids := rows, IdsIn(polledIds, k);
      assert PairIndexed(rows, publications, polls, polledIds, k);
      LogHasOneKey(polls, k);
      ids := BumpOrOpen(p, ids, LogOf(polls, k));
      PollIndexed(before, rows, publications, polls, polledIds, p, ids);
      polls, polledIds := polls + [p], polledIds[k := ids];
    }

    /** The body of `upsert_polled`, on the rows of one pair. */
    method BumpOrOpen(p: Poll, ghost ids: seq<Id>, ghost log: seq<Poll>) returns (ghost ids': seq<Id>)
      requires (forall id :: id in rows ==> id < nextId) && OneKey(log, p.key) && Lists(rows, p.key, ids, log)
      modifies this`rows, this`nextId
      ensures forall id :: id in rows ==> id < nextId
      ensures Lists(rows, p.key, ids', log + [p])
      ensures WritesOnly(old(rows), rows, p.key, true)
    {
      ids' := ids;
      var open := OpenPolled(rows, p.key);
      OpenRowIsLast(rows, p.key, ids, log);
      if open != {} {
        var current :| current in open;
        if rows[current].rates == p.rates {
          PollBumpsOpenRow(rows, p.key, ids, log, p);
          rows := rows[current := rows[current].(lastPolledAt := Some(p.atTime),
                                                 updateCadenceSeconds := Some(p.cadence))];
          return;
        }
        PollOpensRow(rows, p.key, ids, log, p, nextId);
        rows := rows[current := rows[current].(validTo := Some(p.atTime))];
      } else {
        PollOpensRow(rows, p.key, ids, log, p, nextId);
      }
      ids' := ids + [nextId];
      Insert(OpenRow(p));
    }

    /** Historical rows stay the interval form of the map of publications; polled rows are not touched.
        The guard against orphaned rows (`InvariantViolated`) never fires. */
    method UpsertHistorical(k: Key, rates: Rates, atTime: int) returns (outcome: Outcome)
      requires Valid()
      modifies this
      ensures Valid()
      ensures outcome == Written
      ensures publications == old(publications) + [Publication(k, atTime, rates)] && polls == old(polls)
      ensures WritesOnly(old(rows), rows, k, false)
    {
      ghost var before, pub := rows, Published(publications, k);
      assert PairIndexed(rows, publications, polls, polledIds, k);
      outcome := SlotIn(k, rates, atTime, pub);
      PublicationIndexed(before, rows, publications, polls, polledIds, Publication(k, atTime, rates));
      publications := publications + [Publication(k, atTime, rates)];
    }

    /** The body of `upsert_historical`, on the rows of one pair. */
    method SlotIn(k: Key, rates: Rates, atTime: int, ghost pub: map<int, Rates>) returns (outcome: Outcome)
      requires (forall id :: id in rows ==> id < nextId) && Tiles(rows, k, pub)
      modifies this`rows, this`nextId
      ensures forall id :: id in rows ==> id < nextId
      ensures outcome == Written && Tiles(rows, k, pub[atTime := rates])
      ensures WritesOnly(old(rows), rows, k, false)
    {
      outcome := Written;
      // Case 1: a row already starts at this time.
      var existing := StartingAt(rows, k, atTime);
      if existing != {} {
        var id :| id in existing;
        Overwrites(rows, k, pub, id, rates);
        if rows[id].rates == rates {
          assert rows[id := rows[id].(rates := rates)] == rows;
          return;
        }
        rows := rows[id := rows[id].(rates := rates)];
        return;
      }
      NoRowNoPublication(rows, k, pub, atTime);
      // Case 2: the time falls inside an existing span.
      var covering := Spanning(rows, k, atTime);
      if covering != {} {
        var id :| id in covering;
        Cut(id, k, rates, atTime, pub);
        return;
      }
      UncoveredPrecedesAll(rows, k, pub, atTime);
      outcome := Prepend(k, rates, atTime, pub);
    }

    /** Case 2: the covering row ends at the new time, the new row takes what it gives up. */
    method Cut(id: Id, k: Key, rates: Rates, atTime: int, ghost pub: map<int, Rates>)
      requires (forall i :: i in rows ==> i < nextId) && Tiles(rows, k, pub) && atTime !in pub
      requires id in Spanning(rows, k, atTime)
      modifies this`rows, this`nextId
      ensures forall i :: i in rows ==> i < nextId
      ensures Tiles(rows, k, pub[atTime := rates]) && WritesOnly(old(rows), rows, k, false)
    {
      var end := rows[id].validTo;
      Splits(rows, k, pub, id, atTime, rates, nextId);
      rows := rows[id := rows[id].(validTo := Some(atTime))];
      Insert(HistoricalRow(k, rates, atTime, end));
    }

    /** Case 3 and the very first row: the time precedes the whole history. */
    method Prepend(k: Key, rates: Rates, atTime: int, ghost pub: map<int, Rates>) returns (outcome: Outcome)
      requires (forall id :: id in rows ==> id < nextId) && Tiles(rows, k, pub)
      requires forall u :: u in pub ==> atTime < u
      modifies this`rows, this`nextId
      ensures forall id :: id in rows ==> id < nextId
      ensures outcome == Written && Tiles(rows, k, pub[atTime := rates])
      ensures WritesOnly(old(rows), rows, k, false)
    {
      outcome := Written;
      var later := StartingAfter(rows, k, atTime);
      if later != {} {
        EarliestStart(rows, later);
        var next :| next in later && forall id :: id in later ==> rows[next].validFrom <= rows[id].validFrom;
        NextStart(rows, k, pub, atTime, next);
        Prepends(rows, k, pub, atTime, rates, Some(rows[next].validFrom), nextId);
        Insert(HistoricalRow(k, rates, atTime, Some(rows[next].validFrom)));
        return;
      }
      NoOrphans(rows, k, pub, atTime);
      var orphans := set id | id in rows && IsHistorical(rows[id], k);
      if |orphans| > 0 {
        return InvariantViolated;
      }
      Prepends(rows, k, pub, atTime, rates, None, nextId);
      Insert(HistoricalRow(k, rates, atTime, None));
    }
  }

  lemma {:induction false} EarliestStart(table: Table, ids: set<Id>)
    requires ids != {} && ids <= table.Keys
    ensures exists i :: i in ids && forall j :: j in ids ==> table[i].validFrom <= table[j].validFrom
  {
    var x := Pick(ids);
    if ids != {x} {
      assert ids - {x} != {};
      EarliestStart(table, ids - {x});
      var i :| i in ids - {x} && forall j :: j in ids - {x} ==> table[i].validFrom <= table[j].validFrom;
      var m := if table[x].validFrom <= table[i].validFrom then x else i;
      assert forall j :: j in ids ==> table[m].validFrom <= table[j].validFrom;
    }
  }

  lemma NextStart(table: Table, k: Key, pub: map<int, Rates>, t: int, next: Id)
    requires Tiles(table, k, pub) && next in StartingAfter(table, k, t)
    requires forall id :: id in StartingAfter(table, k, t) ==> table[next].validFrom <= table[id].validFrom
    ensures IsNext(pub.Keys, t, Some(table[next].validFrom))
  {
    forall u | u in pub && t < u ensures table[next].validFrom <= u {
      assert HasRowAt(table, k, u);
      var id :| id in table && IsHistorical(table[id], k) && table[id].validFrom == u;
      assert id in StartingAfter(table, k, t);
    }
  }

  /** Two stores whose publications are permutations of each other, each pair published at most once at a
      time, hold the same historical rows, however those writes were interleaved with polls. */
  lemma HistoricalOrderIndependence(a: CurrencyRateRepo, b: CurrencyRateRepo, k: Key)
    requires a.Valid() && b.Valid()
    requires multiset(a.publications) == multiset(b.publications)
    requires DistinctTimes(a.publications) && DistinctTimes(b.publications)
    ensures forall i :: i in a.rows && IsHistorical(a.rows[i], k) ==> exists j :: j in b.rows && b.rows[j] == a.rows[i]
    ensures forall j :: j in b.rows && IsHistorical(b.rows[j], k) ==> exists i :: i in a.rows && a.rows[i] == b.rows[j]
  {
    assert PairIndexed(a.rows, a.publications, a.polls, a.polledIds, k);
    assert PairIndexed(b.rows, b.publications, b.polls, b.polledIds, k);
    PublicationOrderIrrelevant(a.publications, b.publications, k);
    TilesAreCanonical(a.rows, b.rows, k, Published(a.publications, k));
    TilesAreCanonical(b.rows, a.rows, k, Published(a.publications, k));
  }

  /** The enrichment reader's fresh lookup against the whole poll log of its pair. */
  lemma FindFreshRateRefinesLog(repo: CurrencyRateRepo, k: Key, t: int, tolerance: int)
    requires repo.Valid() && NonDecreasing(LogOf(repo.polls, k))
    ensures var log := LogOf(repo.polls, k);
            var hits := FreshRows(repo.rows, k, t, tolerance);
            && |hits| <= 1
            && (forall i: nat :: IsLatest(log, t, i) && LogIsFresh(log, i, t, tolerance) ==>
                  exists id :: id in hits && repo.rows[id].rates == log[i].rates)
            && (hits != {} ==> exists i: nat :: IsLatest(log, t, i) && LogIsFresh(log, i, t, tolerance))
  {
    var log, ids := LogOf(repo.polls, k), IdsIn(repo.polledIds, k);
    assert PairIndexed(repo.rows, repo.publications, repo.polls, repo.polledIds, k);
    LogHasOneKey(repo.polls, k);
    if i: nat :| IsLatest(log, t, i) {
      FreshRowMatchesLog(repo.rows, k, ids, log, t, tolerance, i);
    } else {
      LatestExists(log, t);
      NothingFreshBeforeFirstPoll(repo.rows, k, ids, log, t, tolerance);
    }
  }

  lemma {:induction false} LatestExists(log: seq<Poll>, t: int)
    ensures (exists i: nat :: IsLatest(log, t, i)) || forall i :: 0 <= i < |log| ==> t < log[i].atTime
  {
    if log != [] {
      var n := |log| - 1;
      if log[n].atTime <= t {
        assert IsLatest(log, t, n);
      } else {
        LatestExists(log[..n], t);
        if i: nat :| IsLatest(log[..n], t, i) { assert IsLatest(log, t, i); }
      }
    }
  }

  /** `get_rates_at` for one pair, the historical half, whatever the polls: it shows the greatest publication at or
      before t, and nothing if there is none. */
  lemma GetHistoricalRateRefinesMap(repo: CurrencyRateRepo, k: Key, t: int)
    requires repo.Valid()
    ensures ReadsFloor(repo.rows, k, Published(repo.publications, k), t)
  {
    assert PairIndexed(repo.rows, repo.publications, repo.polls, repo.polledIds, k);
    HistoricalReadIsFloor(repo.rows, k, Published(repo.publications, k), t);
  }

  /** The polled half: with poll times in order at most one row, that of the latest observation at or before t. */
  lemma GetPolledRateRefinesLog(repo: CurrencyRateRepo, k: Key, t: int)
    requires repo.Valid() && NonDecreasing(LogOf(repo.polls, k))
    ensures var log := LogOf(repo.polls, k);
            var hits := set id | id in RatesAt(repo.rows, k, t) && IsPolled(repo.rows[id], k);
            && (forall i: nat :: IsLatest(log, t, i) ==>
                exists id :: hits == {id} && repo.rows[id].rates == log[i].rates)
            && ((forall i :: 0 <= i < |log| ==> t < log[i].atTime) ==> hits == {})
  {
    var log, ids := LogOf(repo.polls, k), IdsIn(repo.polledIds, k);
    assert PairIndexed(repo.rows, repo.publications, repo.polls, repo.polledIds, k);
    LogHasOneKey(repo.polls, k);
    if i: nat :| IsLatest(log, t, i) {
      PolledReadIsLatest(repo.rows, k, ids, log, t, i);
    } else {
      NothingCoversBefore(repo.rows, k, ids, log, t);
    }
  }

  lemma PolledReadIsLatest(table: Table, k: Key, ids: seq<Id>, log: seq<Poll>, t: int, i: nat)
    requires OneKey(log, k) && NonDecreasing(log) && Lists(table, k, ids, log) && IsLatest(log, t, i)
    ensures exists id ::
              && (set j | j in RatesAt(table, k, t) && IsPolled(table[j], k)) == {id}
              && table[id].rates == log[i].rates
  {
    var r := CoveringRun(log, k, t, i);
    RunsAbut(log, k);
    var hits := set j | j in RatesAt(table, k, t) && IsPolled(table[j], k);
    forall id | id in hits ensures id == ids[r] {
      var q :| 0 <= q < |ids| && ids[q] == id;
      assert Covers(Runs(log)[q], t);
    }
    assert ids[r] in hits;
    assert hits == {ids[r]};
  }

  lemma NothingCoversBefore(table: Table, k: Key, ids: seq<Id>, log: seq<Poll>, t: int)
    requires OneKey(log, k) && NonDecreasing(log) && Lists(table, k, ids, log)
    requires forall i: nat :: !IsLatest(log, t, i)
    ensures forall id :: id in table && IsPolled(table[id], k) ==> !Covers(table[id], t)
  {
    LatestExists(log, t);
    NoRunBeforeFirstPoll(log, k, t);
    forall id | id in table && IsPolled(table[id], k) ensures !Covers(table[id], t) {
      var q :| 0 <= q < |ids| && ids[q] == id;
    }
  }

  /** At most one polled row covers any time if and only if no later run undercuts one that started later than its
      predecessor. */
  lemma PolledCoverUniqueIff(repo: CurrencyRateRepo, k: Key)
    requires repo.Valid()
    ensures (forall t, i, j :: (&& i in RatesAt(repo.rows, k, t) && IsPolled(repo.rows[i], k)
                                && j in RatesAt(repo.rows, k, t) && IsPolled(repo.rows[j], k)) ==> i == j)
            <==> NeverUndercut(Runs(LogOf(repo.polls, k)))
  {
    var log, ids := LogOf(repo.polls, k), IdsIn(repo.polledIds, k);
    assert PairIndexed(repo.rows, repo.publications, repo.polls, repo.polledIds, k);
    LogHasOneKey(repo.polls, k);
    RunsAbut(log, k);
    CoversOnceIff(Runs(log), k);
    ListedCover(repo.rows, k, ids, log);
  }

  lemma ListedCover(table: Table, k: Key, ids: seq<Id>, log: seq<Poll>)
    requires OneKey(log, k) && Lists(table, k, ids, log) && Abut(Runs(log), k)
    ensures (forall t, i, j :: (&& i in RatesAt(table, k, t) && IsPolled(table[i], k)
                                && j in RatesAt(table, k, t) && IsPolled(table[j], k)) ==> i == j)
            <==> CoversOnce(Runs(log))
  {
    if CoversOnce(Runs(log)) {
      forall t, i, j | && i in RatesAt(table, k, t) && IsPolled(table[i], k)
                       && j in RatesAt(table, k, t) && IsPolled(table[j], k) ensures i == j {
        var q :| 0 <= q < |ids| && ids[q] == i;
        var r :| 0 <= r < |ids| && ids[r] == j;
        assert Covers(Runs(log)[q], t) && Covers(Runs(log)[r], t);
      }
    } else {
      var t, q, r :| 0 <= q < |ids| && 0 <= r < |ids| && Covers(Runs(log)[q], t) && Covers(Runs(log)[r], t) && q != r;
      assert ids[q] in RatesAt(table, k, t) && ids[r] in RatesAt(table, k, t);
      assert ids[q] != ids[r];
    }
  }

  /** No two polled rows of a pair start together if and only if no two observations that changed its rates carry
      the same time. The fresh lookup, which orders by start alone, is then untied. */
  lemma PolledStartsUntiedIff(repo: CurrencyRateRepo, k: Key)
    requires repo.Valid()
    ensures (forall i, j :: (i in repo.rows && j in repo.rows && IsPolled(repo.rows[i], k) && IsPolled(repo.rows[j], k)
                             && repo.rows[i].validFrom == repo.rows[j].validFrom) ==> i == j)
            <==> OpeningsDistinct(LogOf(repo.polls, k))
  {
    assert PairIndexed(repo.rows, repo.publications, repo.polls, repo.polledIds, k);
    LogHasOneKey(repo.polls, k);
    PolledStartsDistinctIff(LogOf(repo.polls, k), k);
    ListedStarts(repo.rows, k, IdsIn(repo.polledIds, k), LogOf(repo.polls, k));
  }

  lemma ListedStarts(table: Table, k: Key, ids: seq<Id>, log: seq<Poll>)
    requires OneKey(log, k) && Lists(table, k, ids, log)
    ensures (forall i, j :: (i in table && j in table && IsPolled(table[i], k) && IsPolled(table[j], k)
                             && table[i].validFrom == table[j].validFrom) ==> i == j)
            <==> DistinctStarts(Runs(log))
  {
    RunsAbut(log, k);
    if DistinctStarts(Runs(log)) {
      forall i, j | i in table && j in table && IsPolled(table[i], k) && IsPolled(table[j], k)
                    && table[i].validFrom == table[j].validFrom ensures i == j {
        var q :| 0 <= q < |ids| && ids[q] == i;
        var r :| 0 <= r < |ids| && ids[r] == j;
      }
    } else {
      var q, r :| 0 <= q < r < |Runs(log)| && Runs(log)[q].validFrom == Runs(log)[r].validFrom;
      assert ids[q] in table && ids[r] in table && ids[q] != ids[r];
    }
  }

  lemma PolledCoverUnique(table: Table, k: Key, ids: seq<Id>, log: seq<Poll>, t: int, i: Id, j: Id)
    requires OneKey(log, k) && NonDecreasing(log) && Lists(table, k, ids, log)
    requires i in table && IsPolled(table[i], k) && Covers(table[i], t)
    requires j in table && IsPolled(table[j], k) && Covers(table[j], t)
    ensures i == j
  {
    var p :| 0 <= p < |ids| && ids[p] == i;
    var q :| 0 <= q < |ids| && ids[q] == j;
    LatestExists(log, t);
    if l: nat :| IsLatest(log, t, l) {
      var r := CoveringRun(log, k, t, l);
    } else {
      NoRunBeforeFirstPoll(log, k, t);
    }
  }
}
