/** What the two rate sequences mean: a historical sequence is the interval form of a plain
    map from publication time to rates, a polled sequence the run-length form of a poll log. */
module RateHistory {
  import opened Common
  import opened RateTable

  datatype Publication = Publication(key: Key, atTime: int, rates: Rates)
  datatype Poll = Poll(key: Key, atTime: int, rates: Rates, cadence: int)

  // ---------------------------------------------------------------- historical rows

  /** The plain map the historical rows of `k` index: the last write at each time wins. */
  function Published(pubs: seq<Publication>, k: Key): map<int, Rates> {
    if pubs == [] then map[]
    else
      var before := Published(pubs[..|pubs| - 1], k);
      var p := pubs[|pubs| - 1];
      if p.key == k then before[p.atTime := p.rates] else before
  }

  /** `next` is the least of `times` after `t`, or nothing if `t` is the last. */
  ghost predicate IsNext(times: set<int>, t: int, next: Option<int>) {
    match next
    case None => forall u :: u in times ==> u <= t
    case Some(n) => n in times && t < n && forall u :: u in times ==> u <= t || n <= u
  }

  ghost predicate HasRowAt(table: Table, k: Key, t: int) {
    exists id :: id in table && IsHistorical(table[id], k) && table[id].validFrom == t
  }

  /** The historical rows of `k` are exactly the interval form of `pub`: one row for each time,
      ending where the next one starts, the last one open. */
  ghost predicate Tiles(table: Table, k: Key, pub: map<int, Rates>) {
    && (forall id :: id in table && IsHistorical(table[id], k) ==>
          && table[id].validFrom in pub
          && pub[table[id].validFrom] == table[id].rates
          && table[id].updateCadenceSeconds.None?
          && IsNext(pub.Keys, table[id].validFrom, table[id].validTo))
    && (forall t {:trigger HasRowAt(table, k, t)} :: t in pub ==> HasRowAt(table, k, t))
    && (forall i, j :: (i in table && j in table && IsHistorical(table[i], k) && IsHistorical(table[j], k)
                        && table[i].validFrom == table[j].validFrom) ==> i == j)
  }

  function Spanning(table: Table, k: Key, t: int): set<Id> {
    set id | id in table && IsHistorical(table[id], k) && table[id].validFrom < t && Covers(table[id], t)
  }

  /** The latest of `times` strictly before `t`. */
  lemma GreatestBelow(times: set<int>, t: int) returns (g: int)
    requires exists u :: u in times && u < t
    ensures g in times && g < t && forall u :: u in times && u < t ==> u <= g
  {
    g :| g in times && g < t;
    var above := set u | u in times && g < u < t;
    while above != {}
      invariant g in times && g < t && above == set u | u in times && g < u < t
      decreases above
    {
      ghost var was := above;
      g :| g in above;
      above := set u | u in times && g < u < t;
      assert above <= was && g !in above;
    }
    assert forall u :: u in times && g < u < t ==> u in above;
  }

  /** A time after some publication and at none of them lies inside a stored interval. */
  lemma SomeRowSpans(table: Table, k: Key, pub: map<int, Rates>, t: int)
    requires Tiles(table, k, pub) && t !in pub
    requires exists u :: u in pub && u < t
    ensures exists id :: id in Spanning(table, k, t)
  {
    assert exists u :: u in pub.Keys && u < t;
    var g := GreatestBelow(pub.Keys, t);
    assert HasRowAt(table, k, g);
    var id :| id in table && IsHistorical(table[id], k) && table[id].validFrom == g;
    assert id in Spanning(table, k, t);
  }

  /** So when no row spans it, it precedes every publication. */
  lemma UncoveredPrecedesAll(table: Table, k: Key, pub: map<int, Rates>, t: int)
    requires Tiles(table, k, pub) && t !in pub
    requires Spanning(table, k, t) == {}
    ensures forall u :: u in pub ==> t < u
  {
    if exists u :: u in pub && u < t {
      SomeRowSpans(table, k, pub, t);
    }
  }

  /** `get_rates_at(t)` sees exactly the publication with the greatest time at or before t. */
  lemma HistoricalRowAt(table: Table, k: Key, pub: map<int, Rates>, id: Id, t: int)
    requires Tiles(table, k, pub)
    requires id in table && IsHistorical(table[id], k)
    ensures id in RatesAt(table, k, t) <==>
            && table[id].validFrom <= t
            && forall u :: u in pub && u <= t ==> u <= table[id].validFrom
  {
    if Covers(table[id], t) {
    } else if table[id].validFrom <= t {
      assert table[id].validTo.value in pub;
    }
  }

  /** The historical rows read at t: the greatest publication at or before t, or none if there is none. */
  ghost predicate ReadsFloor(table: Table, k: Key, pub: map<int, Rates>, t: int) {
    var hits := set id | id in RatesAt(table, k, t) && IsHistorical(table[id], k);
    if exists u :: u in pub && u <= t then
      exists g, id :: g in pub && g <= t && (forall u :: u in pub && u <= t ==> u <= g)
        && hits == {id} && id in table && table[id].rates == pub[g] && table[id].validFrom == g
    else hits == {}
  }

  /** There is such a row whenever anything was published at or before t, and only one. */
  lemma HistoricalReadIsFloor(table: Table, k: Key, pub: map<int, Rates>, t: int)
    requires Tiles(table, k, pub)
    ensures ReadsFloor(table, k, pub, t)
  {
    var hits := set id | id in RatesAt(table, k, t) && IsHistorical(table[id], k);
    forall id | id in table && IsHistorical(table[id], k)
      ensures id in hits <==> table[id].validFrom <= t && forall u :: u in pub && u <= t ==> u <= table[id].validFrom
    {
      HistoricalRowAt(table, k, pub, id, t);
    }
    if exists u :: u in pub && u <= t {
      assert exists u :: u in pub.Keys && u < t + 1;
      var g := GreatestBelow(pub.Keys, t + 1);
      assert HasRowAt(table, k, g);
      var id :| id in table && IsHistorical(table[id], k) && table[id].validFrom == g;
      assert hits == {id};
    }
  }

  /** The table is canonical: two tables that index the same map hold the same rows. */
  lemma TilesAreCanonical(a: Table, b: Table, k: Key, pub: map<int, Rates>)
    requires Tiles(a, k, pub) && Tiles(b, k, pub)
    ensures forall i :: i in a && IsHistorical(a[i], k) ==> exists j :: j in b && b[j] == a[i]
  {
    forall i | i in a && IsHistorical(a[i], k)
      ensures exists j :: j in b && b[j] == a[i]
    {
      assert HasRowAt(b, k, a[i].validFrom);
      var j :| j in b && IsHistorical(b[j], k) && b[j].validFrom == a[i].validFrom;
      if a[i].validTo.Some? && b[j].validTo.Some? {
        assert a[i].validTo.value in pub && b[j].validTo.value in pub;
      }
      assert b[j] == a[i];
    }
  }

  /** No two publications of one pair carry the same time. */
  ghost predicate DistinctTimes(pubs: seq<Publication>) {
    forall i, j :: 0 <= i < j < |pubs| && pubs[i].key == pubs[j].key ==> pubs[i].atTime != pubs[j].atTime
  }

  lemma {:induction false} PublishedMembers(pubs: seq<Publication>, k: Key)
    requires DistinctTimes(pubs)
    ensures forall t :: t in Published(pubs, k) ==> Publication(k, t, Published(pubs, k)[t]) in pubs
    ensures forall p :: p in pubs && p.key == k ==>
            p.atTime in Published(pubs, k) && Published(pubs, k)[p.atTime] == p.rates
  {
    if pubs != [] {
      var init, last := pubs[..|pubs| - 1], pubs[|pubs| - 1];
      PublishedMembers(init, k);
      assert pubs == init + [last];
      forall p | p in init && p.key == k && last.key == k ensures p.atTime != last.atTime {
        var i :| 0 <= i < |init| && init[i] == p;
        assert pubs[i] == p;
      }
    }
  }

  lemma DistinctTimesPermute(a: seq<Publication>, b: seq<Publication>)
    requires multiset(a) == multiset(b) && DistinctTimes(a)
    ensures forall p, q :: p in b && q in b && p != q && p.key == q.key ==> p.atTime != q.atTime
    ensures forall p :: p in a <==> p in b
  {
    forall p ensures p in a <==> p in b {
      assert p in multiset(a) <==> p in multiset(b);
    }
  }

  /** The order in which distinct publications arrive does not change what is indexed. */
  lemma PublicationOrderIrrelevant(a: seq<Publication>, b: seq<Publication>, k: Key)
    requires multiset(a) == multiset(b) && DistinctTimes(a) && DistinctTimes(b)
    ensures Published(a, k) == Published(b, k)
  {
    PublishedMembers(a, k);
    PublishedMembers(b, k);
    DistinctTimesPermute(a, b);
    var pa, pb := Published(a, k), Published(b, k);
    forall t | t in pa ensures t in pb && pb[t] == pa[t] {
      assert Publication(k, t, pa[t]) in b;
    }
    forall t | t in pb ensures t in pa {
      assert Publication(k, t, pb[t]) in a;
    }
  }

  // ---------------------------------------------------------------- polled rows

  /** The polls of one pair, in the order they were written. */
  function LogOf(polls: seq<Poll>, k: Key): seq<Poll> {
    if polls == [] then []
    else
      var before := LogOf(polls[..|polls| - 1], k);
      var p := polls[|polls| - 1];
      if p.key == k then before + [p] else before
  }

  function OpenRow(p: Poll): RateRow {
    RateRow(p.key, p.rates, p.atTime, None, Some(p.atTime), Some(p.cadence))
  }

  /** What one poll does to the rows of its pair. */
  function Extend(rows: seq<RateRow>, p: Poll): seq<RateRow> {
    if rows == [] then [OpenRow(p)]
    else
      var i := |rows| - 1;
      if rows[i].rates == p.rates then
        rows[i := rows[i].(lastPolledAt := Some(p.atTime), updateCadenceSeconds := Some(p.cadence))]
      else
        rows[i := rows[i].(validTo := Some(p.atTime))] + [OpenRow(p)]
  }

  /** Run-length compression of a poll log. */
  function Runs(log: seq<Poll>): seq<RateRow> {
    if log == [] then [] else Extend(Runs(log[..|log| - 1]), log[|log| - 1])
  }

  ghost predicate OneKey(log: seq<Poll>, k: Key) {
    forall i :: 0 <= i < |log| ==> log[i].key == k
  }

  ghost predicate NonDecreasing(log: seq<Poll>) {
    forall i, j :: 0 <= i <= j < |log| ==> log[i].atTime <= log[j].atTime
  }

  lemma {:induction false} LogHasOneKey(polls: seq<Poll>, k: Key)
    ensures OneKey(LogOf(polls, k), k)
  {
    if polls != [] { LogHasOneKey(polls[..|polls| - 1], k); }
  }

  /** Polled rows of `k` of which each closed one ends where the next begins, with other rates, and only
      the last is open. */
  ghost predicate Abut(rows: seq<RateRow>, k: Key) {
    && (forall i :: 0 <= i < |rows| ==> IsPolled(rows[i], k) && rows[i].updateCadenceSeconds.Some?)
    && (forall i, j :: 0 <= i && j == i + 1 && j < |rows| ==>
          rows[i].validTo == Some(rows[j].validFrom) && rows[i].rates != rows[j].rates)
    && (rows != [] ==> rows[|rows| - 1].validTo.None?)
  }

  /** Holds whatever the poll times. */
  lemma {:induction false} RunsAbut(log: seq<Poll>, k: Key)
    requires OneKey(log, k)
    ensures Abut(Runs(log), k)
    ensures log != [] <==> Runs(log) != []
    ensures log != [] ==> Runs(log)[|Runs(log)| - 1].rates == log[|log| - 1].rates
  {
    if log != [] { RunsAbut(log[..|log| - 1], k); }
  }

  /** Rows that live in order, the last of them last polled at `until`. */
  ghost predicate Ordered(rows: seq<RateRow>, until: int, cadence: int) {
    && (forall i :: 0 <= i < |rows| ==> LivesWithinValidity(rows[i]) && rows[i].validFrom <= until)
    && (forall i, j :: 0 <= i <= j < |rows| ==> rows[i].validFrom <= rows[j].validFrom)
    && (rows != [] ==>
        rows[|rows| - 1].lastPolledAt == Some(until) && rows[|rows| - 1].updateCadenceSeconds == Some(cadence))
  }

  /** valid_from <= last_polled_at <= valid_to */
  predicate LivesWithinValidity(row: RateRow) {
    && row.lastPolledAt.Some?
    && row.validFrom <= row.lastPolledAt.value
    && (row.validTo.Some? ==> row.lastPolledAt.value <= row.validTo.value)
  }

  /** Holds when poll times do not run backwards. */
  lemma {:induction false} RunsOrdered(log: seq<Poll>, k: Key)
    requires OneKey(log, k) && NonDecreasing(log) && log != []
    ensures Ordered(Runs(log), log[|log| - 1].atTime, log[|log| - 1].cadence)
  {
    var init, p := log[..|log| - 1], log[|log| - 1];
    RunsAbut(init, k);
    if init != [] {
      RunsOrdered(init, k);
      assert init[|init| - 1].atTime <= p.atTime;
      ExtendOrdered(Runs(init), init[|init| - 1].atTime, init[|init| - 1].cadence, p, k);
    }
  }

  lemma ExtendOrdered(rows: seq<RateRow>, until: int, cadence: int, p: Poll, k: Key)
    requires Abut(rows, k) && Ordered(rows, until, cadence) && until <= p.atTime
    ensures Ordered(Extend(rows, p), p.atTime, p.cadence)
  {
  }

  /** Observation `i` is the latest one at or before `t`. */
  ghost predicate IsLatest(log: seq<Poll>, t: int, i: int) {
    0 <= i < |log| && log[i].atTime <= t && forall j :: i < j < |log| ==> t < log[j].atTime
  }

  /** The last observation of the unbroken stretch of equal rates that starts at `i`. */
  function RunEnd(log: seq<Poll>, i: nat): (e: nat)
    requires i < |log|
    ensures i <= e < |log|
    ensures forall j :: i <= j <= e ==> log[j].rates == log[i].rates
    ensures e + 1 < |log| ==> log[e + 1].rates != log[i].rates
    decreases |log| - i
  {
    if i + 1 < |log| && log[i + 1].rates == log[i].rates then RunEnd(log, i + 1) else i
  }

  ghost predicate OnlyCover(rows: seq<RateRow>, t: int, r: int) {
    && 0 <= r < |rows|
    && Covers(rows[r], t)
    && forall q :: 0 <= q < |rows| && Covers(rows[q], t) ==> q == r
  }

  /** A poll after `t` does not move the row that covers `t`. */
  lemma LaterPollKeepsCover(rows: seq<RateRow>, k: Key, p: Poll, t: int, r: int)
    requires Abut(rows, k) && OnlyCover(rows, t, r) && t < p.atTime
    ensures OnlyCover(Extend(rows, p), t, r)
    ensures Extend(rows, p)[r].rates == rows[r].rates
    ensures if r == |rows| - 1 && rows[r].rates == p.rates then
              Extend(rows, p)[r].lastPolledAt == Some(p.atTime)
                  && Extend(rows, p)[r].updateCadenceSeconds == Some(p.cadence)
            else
              Extend(rows, p)[r].lastPolledAt == rows[r].lastPolledAt
              && Extend(rows, p)[r].updateCadenceSeconds == rows[r].updateCadenceSeconds
  {
  }

  /** A poll at or before `t` makes the open row the one that covers `t`. */
  lemma PollTakesCover(rows: seq<RateRow>, k: Key, until: int, cadence: int, p: Poll, t: int)
    requires Abut(rows, k) && p.key == k && p.atTime <= t
    requires rows != [] ==> Ordered(rows, until, cadence) && until <= p.atTime
    ensures OnlyCover(Extend(rows, p), t, |Extend(rows, p)| - 1)
  {
    var after := Extend(rows, p);
    forall q | 0 <= q < |after| - 1 ensures !Covers(after[q], t) {
      if q + 1 < |rows| { assert rows[q].validTo == Some(rows[q + 1].validFrom); }
    }
  }

  lemma LastRunCovers(log: seq<Poll>, k: Key, t: int)
    requires OneKey(log, k) && NonDecreasing(log) && log != [] && log[|log| - 1].atTime <= t
    ensures var r, p := |Runs(log)| - 1, log[|log| - 1];
            && OnlyCover(Runs(log), t, r)
            && Runs(log)[r].rates == p.rates
            && Runs(log)[r].lastPolledAt == Some(p.atTime) && Runs(log)[r].updateCadenceSeconds == Some(p.cadence)
  {
    var n := |log| - 1;
    var init, p := log[..n], log[n];
    RunsAbut(init, k);
    if init != [] {
      RunsOrdered(init, k);
      assert init[n - 1].atTime <= p.atTime;
      PollTakesCover(Runs(init), k, init[n - 1].atTime, init[n - 1].cadence, p, t);
    } else {
      PollTakesCover(Runs(init), k, 0, 0, p, t);
    }
    RunsAbut(log, k);
    RunsOrdered(log, k);
  }

  /** The run of the latest observation at or before t, and no other, covers t. */
  lemma {:induction false} CoveringRun(log: seq<Poll>, k: Key, t: int, i: int) returns (r: int)
    requires OneKey(log, k) && NonDecreasing(log) && IsLatest(log, t, i)
    ensures OnlyCover(Runs(log), t, r)
    ensures Runs(log)[r].rates == log[i].rates
    ensures Runs(log)[r].lastPolledAt == Some(log[RunEnd(log, i)].atTime)
    ensures Runs(log)[r].updateCadenceSeconds == Some(log[RunEnd(log, i)].cadence)
    ensures r == |Runs(log)| - 1 <==> RunEnd(log, i) == |log| - 1
  {
    var n := |log| - 1;
    var init, p := log[..n], log[n];
    var rows := Runs(init);
    RunsAbut(init, k);
    if i == n {
      r := |Runs(log)| - 1;
      LastRunCovers(log, k, t);
    } else {
      r := CoveringRun(init, k, t, i);
      LaterPollKeepsCover(rows, k, p, t, r);
      RunEndSnoc(init, p, i);
      assert init + [p] == log;
    }
  }

  lemma RunEndSnoc(log: seq<Poll>, p: Poll, i: nat)
    requires i < |log|
    ensures RunEnd(log + [p], i) == if RunEnd(log, i) == |log| - 1 && p.rates == log[i].rates then |log|
            else RunEnd(log, i)
    decreases |log| - i
  {
    assert (log + [p])[i] == log[i];
    if i + 1 < |log| { RunEndSnoc(log, p, i + 1); }
  }

  lemma {:induction false} NoRunBeforeFirstPoll(log: seq<Poll>, k: Key, t: int)
    requires OneKey(log, k) && NonDecreasing(log)
    requires forall i :: 0 <= i < |log| ==> t < log[i].atTime
    ensures forall q :: 0 <= q < |Runs(log)| ==> !Covers(Runs(log)[q], t)
  {
    if log != [] {
      var init := log[..|log| - 1];
      NoRunBeforeFirstPoll(init, k, t);
      assert forall q :: 0 <= q < |Runs(init)| ==> Runs(log)[q].validFrom == Runs(init)[q].validFrom;
      RunsAbut(init, k);
    }
  }

  /** `ids` lists the polled rows of `k` in the order they were opened; they are the runs of `log`. */
  ghost predicate Lists(table: Table, k: Key, ids: seq<Id>, log: seq<Poll>) {
    && |ids| == |Runs(log)|
    && (forall i :: 0 <= i < |ids| ==> ids[i] in table && table[ids[i]] == Runs(log)[i])
    && (forall i, j :: 0 <= i < j < |ids| ==> ids[i] != ids[j])
    && (forall id :: id in table && IsPolled(table[id], k) ==> id in ids)
  }

  /** The fresh rows of `k` at `t`. */
  function FreshRows(table: Table, k: Key, t: int, tolerance: int): set<Id> {
    set id | id in table && IsFresh(table[id], k, t, tolerance)
  }

  /** Does the log itself vouch for a rate at t? The run of its latest observation at or before t must
      have been polled recently enough. */
  ghost predicate LogIsFresh(log: seq<Poll>, i: nat, t: int, tolerance: int)
    requires i < |log|
  {
    var last := log[RunEnd(log, i)];
    last.atTime + last.cadence * tolerance * SECOND >= t
  }

  /** `find_fresh_rate` answers from the compressed rows what the raw poll log would answer. */
  lemma FreshRowMatchesLog(table: Table, k: Key, ids: seq<Id>, log: seq<Poll>, t: int, tolerance: int, i: int)
    requires OneKey(log, k) && NonDecreasing(log) && Lists(table, k, ids, log)
    requires IsLatest(log, t, i)
    ensures LogIsFresh(log, i, t, tolerance) ==>
              exists id :: FreshRows(table, k, t, tolerance) == {id} && id in table && table[id].rates == log[i].rates
    ensures !LogIsFresh(log, i, t, tolerance) ==> FreshRows(table, k, t, tolerance) == {}
  {
    var r := CoveringRun(log, k, t, i);
    RunsAbut(log, k);
    var hits := FreshRows(table, k, t, tolerance);
    forall id | id in hits ensures id == ids[r] {
      var q :| 0 <= q < |ids| && ids[q] == id;
      assert Covers(Runs(log)[q], t);
    }
    assert IsFresh(table[ids[r]], k, t, tolerance) <==> LogIsFresh(log, i, t, tolerance);
    if LogIsFresh(log, i, t, tolerance) {
      assert hits == {ids[r]};
    }
  }

  lemma NothingFreshBeforeFirstPoll(table: Table, k: Key, ids: seq<Id>, log: seq<Poll>, t: int, tolerance: int)
    requires OneKey(log, k) && NonDecreasing(log) && Lists(table, k, ids, log)
    requires forall i :: 0 <= i < |log| ==> t < log[i].atTime
    ensures FreshRows(table, k, t, tolerance) == {}
  {
    NoRunBeforeFirstPoll(log, k, t);
    forall id | id in table && IsPolled(table[id], k) ensures !Covers(table[id], t) {
      var q :| 0 <= q < |ids| && ids[q] == id;
    }
  }

  ghost predicate DistinctStarts(rows: seq<RateRow>) {
    forall i, j :: 0 <= i < j < |rows| ==> rows[i].validFrom != rows[j].validFrom
  }

  /** The repository's header promises one polled row for each valid_from. Whatever the poll times, a poll breaks
      that exactly when its rates are new and a row of the pair already starts at its time. */
  lemma PolledStartsStayDistinctIff(rows: seq<RateRow>, p: Poll)
    requires rows != [] && DistinctStarts(rows)
    ensures DistinctStarts(Extend(rows, p)) <==>
            rows[|rows| - 1].rates == p.rates || forall i :: 0 <= i < |rows| ==> rows[i].validFrom != p.atTime
  {
    var n, after := |rows| - 1, Extend(rows, p);
    assert forall i :: 0 <= i <= n ==> after[i].validFrom == rows[i].validFrom;
    if rows[n].rates != p.rates { assert after[n + 1].validFrom == p.atTime; }
  }

  /** Does observation i open a run? */
  predicate Opens(log: seq<Poll>, i: nat)
    requires i < |log|
  {
    i == 0 || log[i].rates != log[i - 1].rates
  }

  lemma {:induction false} StartsAreOpenings(log: seq<Poll>, k: Key, t: int)
    requires OneKey(log, k)
    ensures (exists r :: 0 <= r < |Runs(log)| && Runs(log)[r].validFrom == t) <==>
            (exists i :: 0 <= i < |log| && Opens(log, i) && log[i].atTime == t)
  {
    if log != [] {
      var n := |log| - 1;
      var init, p := log[..n], log[n];
      StartsAreOpenings(init, k, t);
      RunsAbut(init, k);
      var rows, after := Runs(init), Runs(log);
      assert forall i :: 0 <= i < n ==> (Opens(log, i) <==> Opens(init, i));
      assert forall r :: 0 <= r < |rows| ==> after[r].validFrom == rows[r].validFrom;
      assert Opens(log, n) <==> |after| == |rows| + 1;
      if Opens(log, n) { assert after[|rows|].validFrom == p.atTime; }
    }
  }

  ghost predicate OpeningsDistinct(log: seq<Poll>) {
    forall i, j :: 0 <= i < j < |log| && Opens(log, i) && Opens(log, j) ==> log[i].atTime != log[j].atTime
  }

  lemma OpeningsNext(log: seq<Poll>)
    requires log != []
    ensures var n := |log| - 1;
            OpeningsDistinct(log) <==>
              OpeningsDistinct(log[..n])
                  && (Opens(log, n) ==> forall i :: 0 <= i < n && Opens(log[..n], i) ==> log[i].atTime != log[n].atTime)
  {
    var n := |log| - 1;
    assert forall i :: 0 <= i < n ==> (Opens(log, i) <==> Opens(log[..n], i)) && log[..n][i] == log[i];
  }

  lemma StartsNext(log: seq<Poll>, k: Key)
    requires OneKey(log, k) && |log| > 1
    ensures var n, rows := |log| - 1, Runs(log[..|log| - 1]);
            DistinctStarts(Runs(log)) <==>
              DistinctStarts(rows)
                  && (Opens(log, n) ==> forall r :: 0 <= r < |rows| ==> rows[r].validFrom != log[n].atTime)
  {
    var n := |log| - 1;
    RunsAbut(log[..n], k);
    ExtendKeepsStarts(Runs(log[..n]), log[n]);
    if DistinctStarts(Runs(log[..n])) { PolledStartsStayDistinctIff(Runs(log[..n]), log[n]); }
  }

  /** Over a whole log, in any order of poll times: the header's promise holds exactly when no two observations
      that changed the rates carry the same time. */
  lemma {:induction false} PolledStartsDistinctIff(log: seq<Poll>, k: Key)
    requires OneKey(log, k)
    ensures DistinctStarts(Runs(log)) <==> OpeningsDistinct(log)
  {
    if |log| > 1 {
      var n := |log| - 1;
      PolledStartsDistinctIff(log[..n], k);
      StartsAreOpenings(log[..n], k, log[n].atTime);
      OpeningsNext(log);
      StartsNext(log, k);
    }
  }

  lemma ExtendKeepsStarts(rows: seq<RateRow>, p: Poll)
    ensures DistinctStarts(Extend(rows, p)) ==> DistinctStarts(rows)
  {
    assert forall i :: 0 <= i < |rows| ==> Extend(rows, p)[i].validFrom == rows[i].validFrom;
  }

  // ---------------------------------------------------------------- polls that run backwards

  ghost predicate CoversOnce(rows: seq<RateRow>) {
    forall t, q, r :: 0 <= q < |rows| && 0 <= r < |rows| && Covers(rows[q], t) && Covers(rows[r], t) ==> q == r
  }

  /** Run i ends later than it starts, and run j, after it, starts before that end. */
  predicate Undercuts(rows: seq<RateRow>, i: int, j: int) {
    0 <= i && i + 1 < j < |rows| && rows[i].validFrom < rows[i + 1].validFrom
        && rows[j].validFrom < rows[i + 1].validFrom
  }

  ghost predicate NeverUndercut(rows: seq<RateRow>) {
    forall i, j :: !Undercuts(rows, i, j)
  }

  /** From any run that starts at or before t on, some run covers t. */
  lemma SomeLaterRunCovers(rows: seq<RateRow>, k: Key, j: nat, t: int) returns (q: nat)
    requires Abut(rows, k) && j < |rows| && rows[j].validFrom <= t
    ensures j <= q < |rows| && Covers(rows[q], t)
    decreases |rows| - j
  {
    q := j;
    if !Covers(rows[j], t) {
      assert rows[j].validTo == Some(rows[j + 1].validFrom);
      q := SomeLaterRunCovers(rows, k, j + 1, t);
    }
  }

  lemma UndercutOverlaps(rows: seq<RateRow>, k: Key, i: int, j: int)
    requires Abut(rows, k) && Undercuts(rows, i, j)
    ensures !CoversOnce(rows)
  {
    var t := if rows[i].validFrom >= rows[j].validFrom then rows[i].validFrom else rows[j].validFrom;
    assert rows[i].validTo == Some(rows[i + 1].validFrom);
    assert Covers(rows[i], t);
    var q := SomeLaterRunCovers(rows, k, j, t);
  }

  lemma NoLaterCover(rows: seq<RateRow>, k: Key, q: nat, r: nat, t: int)
    requires Abut(rows, k) && q < r < |rows| && !Undercuts(rows, q, r) && Covers(rows[q], t)
    ensures !Covers(rows[r], t)
  {
    assert rows[q].validTo == Some(rows[q + 1].validFrom);
  }

  lemma NeverUndercutCoversOnce(rows: seq<RateRow>, k: Key)
    requires Abut(rows, k) && NeverUndercut(rows)
    ensures CoversOnce(rows)
  {
    forall t, q, r | 0 <= q < |rows| && 0 <= r < |rows| && Covers(rows[q], t) && Covers(rows[r], t) ensures q == r {
      if q < r { NoLaterCover(rows, k, q, r, t); } else if r < q { NoLaterCover(rows, k, r, q, t); }
    }
  }

  /** Exactly when do the polled rows never overlap? Poll times in order are enough, but not needed. */
  lemma CoversOnceIff(rows: seq<RateRow>, k: Key)
    requires Abut(rows, k)
    ensures CoversOnce(rows) <==> NeverUndercut(rows)
  {
    if NeverUndercut(rows) {
      NeverUndercutCoversOnce(rows, k);
    } else {
      var i, j :| Undercuts(rows, i, j);
      UndercutOverlaps(rows, k, i, j);
    }
  }

  /** One backward poll is enough for two rows to cover the same instant. */
  lemma BackwardPollOverlaps(k: Key)
    ensures var log := [Poll(k, 1, Rates(None, None, 1.0), 60), Poll(k, 5, Rates(None, None, 2.0), 60),
            Poll(k, 3, Rates(None, None, 3.0), 60)];
            |Runs(log)| == 3 && Covers(Runs(log)[0], 4) && Covers(Runs(log)[2], 4)
  {
    var a, b, c := Poll(k, 1, Rates(None, None, 1.0), 60), Poll(k, 5, Rates(None, None, 2.0), 60),
        Poll(k, 3, Rates(None, None, 3.0), 60);
    assert [a][..0] == [] && [a, b][..1] == [a] && [a, b, c][..2] == [a, b];
    assert Runs([a]) == [OpenRow(a)];
    assert Runs([a, b]) == [OpenRow(a).(validTo := Some(5)), OpenRow(b)];
  }

  /** A backward poll can also bring back an earlier start: two rows that begin together, both live between. */
  lemma BackwardPollTies(k: Key)
    ensures var log := [Poll(k, 5, Rates(None, None, 1.0), 60), Poll(k, 7, Rates(None, None, 2.0), 60),
                        Poll(k, 5, Rates(None, None, 3.0), 60)];
            && |Runs(log)| == 3 && Runs(log)[0].validFrom == Runs(log)[2].validFrom
            && IsFresh(Runs(log)[0], k, 6, 2) && IsFresh(Runs(log)[2], k, 6, 2)
  {
    var a, b, c := Poll(k, 5, Rates(None, None, 1.0), 60), Poll(k, 7, Rates(None, None, 2.0), 60),
        Poll(k, 5, Rates(None, None, 3.0), 60);
    assert [a][..0] == [] && [a, b][..1] == [a] && [a, b, c][..2] == [a, b];
    assert Runs([a]) == [OpenRow(a)];
    assert Runs([a, b]) == [OpenRow(a).(validTo := Some(7)), OpenRow(b)];
  }

  /** Two polls at one instant with different rates: both rows start there, so the header's promise fails. */
  lemma SameInstantPollsShareStart(k: Key, t: int)
    ensures var a := Rates(None, None, 1.0); var b := Rates(None, None, 2.0);
            var rows := Runs([Poll(k, t, a, 60), Poll(k, t, b, 60)]);
            |rows| == 2 && rows[0].validFrom == rows[1].validFrom == t && rows[0].validTo == Some(t)
  {
    var a, b := Poll(k, t, Rates(None, None, 1.0), 60), Poll(k, t, Rates(None, None, 2.0), 60);
    assert [a, b][..1] == [a];
    assert [a][..0] == [];
    assert Runs([a]) == [OpenRow(a)];
  }
}
