/** Reprocessing a user: delete the rows, then enrich again what they are replayed as. */
module Replay {
  import opened Common
  import opened Domain
  import opened Decision
  import opened Enrichment
  import opened TransferRuns

  // ---------------------------------------------------------------- the replay order

  function TimeRanks(times: map<Id, int>): (ranks: map<Id, seq<int>>)
    ensures Untied(ranks)
  {
    var ranks := map id | id in times :: [times[id], id];
    assert forall id :: id in ranks ==> ranks[id][1] == id;
    ranks
  }

  predicate Before(times: map<Id, int>, i: Id, j: Id)
    requires i in times && j in times
  {
    times[i] < times[j] || (times[i] == times[j] && i < j)
  }

  /** ORDER BY time, id */
  function Ordered(times: map<Id, int>): (order: seq<Id>)
    ensures forall i :: 0 <= i < |order| ==> order[i] in times
    decreases times.Keys
  {
    if times == map[] then []
    else
      var ranks := TimeRanks(times);
      assert ranks.Keys == times.Keys;
      var first := Least(ranks);
      [first] + Ordered(times - {first})
  }

  lemma LeastIsBefore(times: map<Id, int>, j: Id)
    requires times != map[] && j in times && TimeRanks(times) != map[] && j != Least(TimeRanks(times))
    ensures Least(TimeRanks(times)) in times && Before(times, Least(TimeRanks(times)), j)
  {
    var ranks := TimeRanks(times);
    var first: Id := Least(ranks);
    assert LexLe(ranks[first], ranks[j]);
    LexPair(times[first], first, times[j], j);
  }

  /** Every id once, in strictly ascending (time, id) order. */
  lemma {:induction false} OrderedIsSorted(times: map<Id, int>)
    ensures forall id :: id in times ==> id in Ordered(times)
    ensures forall i, j :: 0 <= i < j < |Ordered(times)| ==> Before(times, Ordered(times)[i], Ordered(times)[j])
    decreases times.Keys
  {
    if times != map[] {
      assert TimeRanks(times).Keys == times.Keys;
      var first := Least(TimeRanks(times));
      var rest, order := Ordered(times - {first}), Ordered(times);
      OrderedIsSorted(times - {first});
      assert order == [first] + rest;
      forall id | id in times ensures id in order {
        if id != first { assert id in rest; }
      }
      forall k | 0 <= k < |rest| ensures Before(times, first, rest[k]) {
        LeastIsBefore(times, rest[k]);
      }
      PrependSorted(times, first, rest);
    }
  }

  /** Before is the strict order by time, then id. */
  lemma BeforeIsByTimeThenId(times: map<Id, int>, i: Id, j: Id)
    requires i in times && j in times
    ensures times[i] < times[j] ==> Before(times, i, j) && !Before(times, j, i)
    ensures times[i] == times[j] ==> (Before(times, i, j) <==> i < j)
  {
  }

  lemma PrependSorted(times: map<Id, int>, first: Id, rest: seq<Id>)
    requires first in times && forall k :: 0 <= k < |rest| ==> rest[k] in times && Before(times, first, rest[k])
    requires forall k :: 0 <= k < |rest| ==> rest[k] in times - {first}
    requires forall i, j :: 0 <= i < j < |rest| ==> Before(times - {first}, rest[i], rest[j])
    ensures forall i, j :: 0 <= i < j < |rest| + 1 ==> Before(times, ([first] + rest)[i], ([first] + rest)[j])
  {
    var order := [first] + rest;
    forall i, j | 0 <= i < j < |order| ensures Before(times, order[i], order[j]) {
      if i > 0 { assert Before(times - {first}, rest[i - 1], rest[j - 1]); }
    }
  }

  function TimesOf(rows: map<Id, Row>, u: Id): map<Id, int> {
    map id | id in rows && rows[id].userId == u :: rows[id].time
  }

  /** `select_for_user`: the user's rows in replay order. */
  function SelectForUser(rows: map<Id, Row>, u: Id): seq<Row> {
    var order := Ordered(TimesOf(rows, u));
    seq(|order|, i requires 0 <= i < |order| => assert order[i] in TimesOf(rows, u); rows[order[i]])
  }

  function EventsOf(rs: seq<Row>): seq<Event> {
    seq(|rs|, i requires 0 <= i < |rs| => ToNormalized(rs[i]))
  }

  /** The preserved fields of a user's rows, by id. */
  function EventMap(rows: map<Id, Row>, u: Id): map<Id, Event> {
    map id | id in rows && rows[id].userId == u :: ToNormalized(rows[id])
  }

  function EventTimes(events: map<Id, Event>): map<Id, int> {
    map id | id in events :: events[id].time
  }

  function InReplayOrder(events: map<Id, Event>): seq<Event> {
    var order := Ordered(EventTimes(events));
    seq(|order|, i requires 0 <= i < |order| => assert order[i] in EventTimes(events); events[order[i]])
  }

  lemma EventTimesAreRowTimes(rows: map<Id, Row>, u: Id)
    ensures EventTimes(EventMap(rows, u)) == TimesOf(rows, u)
  {
  }

  /** The replayed events are determined by the preserved fields alone. */
  lemma ReplayIsByPreservedFields(rows: map<Id, Row>, u: Id)
    ensures EventsOf(SelectForUser(rows, u)) == InReplayOrder(EventMap(rows, u))
  {
    EventTimesAreRowTimes(rows, u);
    var order := Ordered(TimesOf(rows, u));
    assert forall i :: 0 <= i < |order| ==> order[i] in TimesOf(rows, u);
  }

  // ---------------------------------------------------------------- deleting a user's rows

  function IdsOfUser(rows: map<Id, Row>, u: Id): set<Id> {
    set id | id in rows && rows[id].userId == u
  }

  /** ON DELETE SET NULL */
  function ClearLink(r: Row, gone: set<Id>): Row {
    if r.relatedTransactionId.Some? && r.relatedTransactionId.value in gone then r.(relatedTransactionId := None) else r
  }

  function WithoutUser(rows: map<Id, Row>, u: Id): map<Id, Row> {
    var gone := IdsOfUser(rows, u);
    map id | id in rows && id !in gone :: ClearLink(rows[id], gone)
  }

  /** Anomalies go with their rows. */
  function DeleteUser(db: Db, u: Id): Db {
    Db(WithoutUser(db.rows, u), map id | id in db.anomalies && id !in IdsOfUser(db.rows, u) :: db.anomalies[id])
  }

  ghost function Reprocess(env: Env, db: Db, u: Id): Db {
    Consume(env, DeleteUser(db, u), EventsOf(SelectForUser(db.rows, u)))
  }

  // ---------------------------------------------------------------- what a replay run does

  /** Events of one user, each id once, in the form a replay publishes them. */
  ghost predicate ReplayBatch(env: Env, events: seq<Event>, u: Id) {
    && (forall e :: e in events ==> e.userId == u && e.metadata.Some? && Processable(env, e))
    && (forall i, j :: 0 <= i < j < |events| ==> events[i].id != events[j].id)
  }

  function ById(events: seq<Event>): map<Id, Event> {
    if events == [] then map[] else ById(events[..|events| - 1])[events[|events| - 1].id := events[|events| - 1]]
  }

  /** Nothing of the user, and none of the ids to come, is stored. */
  ghost predicate ClearedFor(db: Db, events: seq<Event>, u: Id) {
    && Keyed(db.rows)
    && (forall id :: id in db.rows ==> db.rows[id].userId != u && id !in ById(events))
    && (forall id :: id in db.anomalies ==> id !in ById(events))
  }

  /** Claiming and enriching never change what a row is replayed as. */
  lemma RowReplaysItsEvent(env: Env, e: Event, d: Detection)
    requires Processable(env, e)
    ensures ToNormalized(RowFor(env, e, d)) == Replayed(e)
  {
  }

  /** Columns that a row may lack replay as a message can carry them. */
  lemma MissingColumnsReplay(r: Row)
    ensures r.cashbackAmountCents == None ==> ToNormalized(r).cashbackAmountCents == 0
    ensures r.operationCurrencyCode == None ==> ToNormalized(r).operationCurrencyCode == ""
    ensures r.metadata == None ==> ToNormalized(r).metadata == Some(map[])
    ensures ToNormalized(r).metadata.Some?
  {
  }

  lemma ClaimKeepsReplay(r: Row, claimant: Id, pair: PairBlock)
    ensures ToNormalized(ClaimedRow(r, claimant, pair)) == ToNormalized(r)
  {
  }

  lemma KeyedStep(env: Env, db: Db, e: Event)
    requires Keyed(db.rows)
    ensures Keyed(Enrich(env, db, e).rows)
  {
    if Processable(env, e) && Detect(env, db.rows, e).partner.Some? { PartnerIsCandidate(env, db.rows, e); }
  }

  /** One step adds its own event to the replay view of its user. */
  lemma StepStoresItsEvent(env: Env, db: Db, e: Event)
    requires Keyed(db.rows) && Processable(env, e) && e.metadata.Some? && e.id !in db.rows
    ensures EventMap(Enrich(env, db, e).rows, e.userId) == EventMap(db.rows, e.userId)[e.id := e]
  {
    var d := Detect(env, db.rows, e);
    RowReplaysItsEvent(env, e, d);
    StepRows(env, db, e);
    var row := RowFor(env, e, d);
    if d.partner.Some? {
      var p, pair := d.partner.value, d.block.value.pair.value;
      ClaimKeepsReplay(db.rows[p], e.id, pair);
      ClaimKeepsEventMap(db.rows, p, e.id, pair, e.userId);
      InsertAddsToEventMap(db.rows[p := ClaimedRow(db.rows[p], e.id, pair)], row, e);
    } else {
      InsertAddsToEventMap(db.rows, row, e);
    }
  }

  lemma ClaimKeepsEventMap(rows: map<Id, Row>, p: Id, claimant: Id, pair: PairBlock, u: Id)
    requires p in rows
    ensures EventMap(rows[p := ClaimedRow(rows[p], claimant, pair)], u) == EventMap(rows, u)
  {
  }

  lemma InsertAddsToEventMap(rows: map<Id, Row>, row: Row, e: Event)
    requires row.userId == e.userId && ToNormalized(row) == e
    ensures EventMap(rows[e.id := row], e.userId) == EventMap(rows, e.userId)[e.id := e]
  {
  }

  lemma StepRows(env: Env, db: Db, e: Event)
    requires Keyed(db.rows) && Processable(env, e) && e.id !in db.rows
    ensures var d := Detect(env, db.rows, e);
            var row := RowFor(env, e, d);
            && row.id == e.id && row.userId == e.userId
            && (if d.partner.Some? then
                  && d.partner.value in db.rows && db.rows[d.partner.value].userId == e.userId
                  && d.partner.value != e.id
                  && d.block.Some? && d.block.value.pair.Some?
                  && Enrich(env, db, e).rows
                     == db.rows[d.partner.value :=
                                  ClaimedRow(db.rows[d.partner.value], e.id, d.block.value.pair.value)][e.id := row]
                else Enrich(env, db, e).rows == db.rows[e.id := row])
  {
    if Detect(env, db.rows, e).partner.Some? { PartnerIsCandidate(env, db.rows, e); }
  }

  lemma {:induction false} ByIdMembers(events: seq<Event>)
    ensures forall id :: id in ById(events) ==> ById(events)[id] in events && ById(events)[id].id == id
    ensures forall e :: e in events ==> e.id in ById(events)
  {
    if events != [] {
      ByIdMembers(events[..|events| - 1]);
      assert events == events[..|events| - 1] + [events[|events| - 1]];
    }
  }

  lemma LastIsNew(init: seq<Event>, e: Event)
    requires forall i, j :: 0 <= i < j < |init + [e]| ==> (init + [e])[i].id != (init + [e])[j].id
    ensures e.id !in ById(init)
  {
    ByIdMembers(init);
    forall x | x in init ensures x.id != e.id {
      var i :| 0 <= i < |init| && init[i] == x;
      assert (init + [e])[i] == x && (init + [e])[|init|] == e;
    }
  }

  /** What was there before the replay is there unchanged; what is new is the replayed ids. */
  ghost predicate Extends(before: Db, after: Db, ids: set<Id>) {
    && (forall id :: id in before.rows ==> id in after.rows && after.rows[id] == before.rows[id])
    && (forall id :: id in after.rows ==> id in before.rows || id in ids)
    && (forall id :: id in before.anomalies ==> id in after.anomalies && after.anomalies[id] == before.anomalies[id])
    && (forall id :: id in after.anomalies ==> id in before.anomalies || id in ids)
  }

  /** After the replay the user's rows replay as exactly the events consumed; nobody else is affected. */
  lemma {:induction false} ReplayStoresEvents(env: Env, db: Db, events: seq<Event>, u: Id)
    requires ReplayBatch(env, events, u) && ClearedFor(db, events, u)
    ensures var after := Consume(env, db, events);
            && Keyed(after.rows)
            && EventMap(after.rows, u) == ById(events)
            && Extends(db, after, ById(events).Keys)
  {
    if events != [] {
      var init, e := events[..|events| - 1], events[|events| - 1];
      assert events == init + [e];
      ByIdMembers(init);
      ReplayStoresEvents(env, db, init, u);
      var mid := Consume(env, db, init);
      LastIsNew(init, e);
      assert e.id !in mid.rows;
      KeyedStep(env, mid, e);
      StepStoresItsEvent(env, mid, e);
      StepExtends(env, db, mid, e, ById(init).Keys);
    }
  }

  lemma StepExtends(env: Env, db: Db, mid: Db, e: Event, ids: set<Id>)
    requires Keyed(mid.rows) && Processable(env, e) && e.metadata.Some? && e.id !in mid.rows
    requires Extends(db, mid, ids) && e.id !in db.anomalies
    requires forall id :: id in db.rows ==> db.rows[id].userId != e.userId
    requires forall id :: id in db.anomalies ==> id !in ids
    ensures Extends(db, Enrich(env, mid, e), ids + {e.id})
  {
    StepRows(env, mid, e);
    StepAnomalies(env, mid, e);
  }

  lemma StepAnomalies(env: Env, db: Db, e: Event)
    requires Keyed(db.rows) && Processable(env, e)
    ensures var d := Detect(env, db.rows, e);
            forall id :: id != e.id && (d.partner.Some? ==> id != d.partner.value) ==>
              (id in Enrich(env, db, e).anomalies <==> id in db.anomalies)
              && (id in db.anomalies ==> Enrich(env, db, e).anomalies[id] == db.anomalies[id])
    ensures forall id :: id in Enrich(env, db, e).anomalies ==> id in db.anomalies || id == e.id
  {
  }

  // ---------------------------------------------------------------- the fixpoint

  /** Position by position, the replayed events are the preserved fields, in ascending order of (time, id). */
  lemma ReplayPositions(rows: map<Id, Row>, u: Id)
    requires Keyed(rows)
    ensures var order, events, all := Ordered(TimesOf(rows, u)), EventsOf(SelectForUser(rows, u)), EventMap(rows, u);
            && |order| == |events|
            && (forall i :: 0 <= i < |events| ==>
                order[i] in all && events[i] == all[order[i]] && events[i].id == order[i])
  {
    var order := Ordered(TimesOf(rows, u));
    assert forall i :: 0 <= i < |order| ==> order[i] in TimesOf(rows, u);
  }

  lemma ReplayIsBatch(env: Env, rows: map<Id, Row>, u: Id)
    requires Keyed(rows)
    requires forall id :: id in rows && rows[id].userId == u ==> Processable(env, ToNormalized(rows[id]))
    ensures var events := EventsOf(SelectForUser(rows, u));
            ReplayBatch(env, events, u) && ById(events) == EventMap(rows, u)
  {
    var order, events, all := Ordered(TimesOf(rows, u)), EventsOf(SelectForUser(rows, u)), EventMap(rows, u);
    ReplayPositions(rows, u);
    OrderedIsSorted(TimesOf(rows, u));
    EventsAreDistinct(rows, u);
    ByIdIs(events, order, all, TimesOf(rows, u).Keys);
  }

  lemma EventsAreDistinct(rows: map<Id, Row>, u: Id)
    requires Keyed(rows)
    ensures var events := EventsOf(SelectForUser(rows, u));
            forall i, j :: 0 <= i < j < |events| ==> events[i].id != events[j].id
  {
    var order, events := Ordered(TimesOf(rows, u)), EventsOf(SelectForUser(rows, u));
    ReplayPositions(rows, u);
    OrderedIsSorted(TimesOf(rows, u));
    forall i, j | 0 <= i < j < |events| ensures events[i].id != events[j].id {
      assert Before(TimesOf(rows, u), order[i], order[j]);
    }
  }

  lemma ByIdIs(events: seq<Event>, order: seq<Id>, all: map<Id, Event>, ids: set<Id>)
    requires |order| == |events| && all.Keys == ids && forall id :: id in ids ==> id in order
    requires forall i :: 0 <= i < |events| ==> order[i] in all && events[i] == all[order[i]] && events[i].id == order[i]
    ensures ById(events) == all
  {
    ByIdMembers(events);
    forall id | id in all ensures id in ById(events) {
      var i :| 0 <= i < |order| && order[i] == id;
      assert events[i] in events;
    }
  }

  lemma DeletedIsCleared(env: Env, db: Db, u: Id)
    requires Keyed(db.rows)
    requires forall id :: id in db.rows && db.rows[id].userId == u ==> Processable(env, ToNormalized(db.rows[id]))
    ensures ClearedFor(DeleteUser(db, u), EventsOf(SelectForUser(db.rows, u)), u)
  {
    ReplayIsBatch(env, db.rows, u);
  }

  /** Reprocessing keeps every id, preserves every replayed field and leaves everyone else alone. */
  lemma ReprocessPreserves(env: Env, db: Db, u: Id)
    requires Keyed(db.rows)
    requires forall id :: id in db.rows && db.rows[id].userId == u ==> Processable(env, ToNormalized(db.rows[id]))
    ensures var after := Reprocess(env, db, u);
            && Keyed(after.rows)
            && EventMap(after.rows, u) == EventMap(db.rows, u)
            && after.rows.Keys == db.rows.Keys
            && Extends(DeleteUser(db, u), after, IdsOfUser(db.rows, u))
  {
    var events := EventsOf(SelectForUser(db.rows, u));
    ReplayIsBatch(env, db.rows, u);
    DeletedIsCleared(env, db, u);
    ReplayStoresEvents(env, DeleteUser(db, u), events, u);
    assert EventMap(db.rows, u).Keys == IdsOfUser(db.rows, u);
    var after := Reprocess(env, db, u);
    SameKeys(db, after, u);
  }

  lemma SameKeys(db: Db, after: Db, u: Id)
    requires EventMap(after.rows, u) == EventMap(db.rows, u)
    requires Extends(DeleteUser(db, u), after, IdsOfUser(db.rows, u))
    ensures after.rows.Keys == db.rows.Keys
  {
    forall id | id in db.rows ensures id in after.rows {
      if id in IdsOfUser(db.rows, u) {
        assert id in EventMap(after.rows, u);
      } else {
        assert id in DeleteUser(db, u).rows;
      }
    }
  }

  lemma DeletingAgain(db: Db, after: Db, u: Id)
    requires EventMap(after.rows, u) == EventMap(db.rows, u) && after.rows.Keys == db.rows.Keys
    requires Extends(DeleteUser(db, u), after, IdsOfUser(db.rows, u))
    ensures DeleteUser(after, u) == DeleteUser(db, u)
  {
    assert IdsOfUser(after.rows, u) == EventMap(after.rows, u).Keys;
    assert IdsOfUser(db.rows, u) == EventMap(db.rows, u).Keys;
    assert DeleteUser(after, u).rows == DeleteUser(db, u).rows;
    assert DeleteUser(after, u).anomalies == DeleteUser(db, u).anomalies;
  }

  /** Reprocessing is a fixpoint: reprocessing what a reprocess produced changes nothing at all. */
  lemma ReprocessIsFixpoint(env: Env, db: Db, u: Id)
    requires Keyed(db.rows)
    requires forall id :: id in db.rows && db.rows[id].userId == u ==> Processable(env, ToNormalized(db.rows[id]))
    ensures Reprocess(env, Reprocess(env, db, u), u) == Reprocess(env, db, u)
  {
    var after := Reprocess(env, db, u);
    ReprocessPreserves(env, db, u);
    DeletingAgain(db, after, u);
    ReplayIsByPreservedFields(db.rows, u);
    ReplayIsByPreservedFields(after.rows, u);
  }

  /** It also restores the matching: links broken among the user's own rows, as a restore after a partial
      replay can leave them, are gone, provided everybody else's rows are in order. */
  lemma ReprocessRestoresCoherence(env: Env, db: Db, u: Id)
    requires Coherent(DeleteUser(db, u))
    ensures Coherent(Reprocess(env, db, u))
  {
    RunsStayCoherent(env, DeleteUser(db, u), EventsOf(SelectForUser(db.rows, u)));
  }

  /** A delete leaves no link to a deleted row, whatever the links were; all else on the other rows stays. */
  lemma DeleteLeavesNoDanglingLink(db: Db, u: Id, id: Id)
    requires id in DeleteUser(db, u).rows
    ensures var r := DeleteUser(db, u).rows[id];
            && id in db.rows && db.rows[id].userId != u
            && r == db.rows[id].(relatedTransactionId := r.relatedTransactionId)
            && match db.rows[id].relatedTransactionId
               case None => r.relatedTransactionId == None
               case Some(p) =>
                 if p in db.rows && db.rows[p].userId == u then r.relatedTransactionId == None
                 else r.relatedTransactionId == Some(p)
  {
  }

  lemma DeleteKeepsCoherence(db: Db, u: Id)
    requires Coherent(db)
    ensures Coherent(DeleteUser(db, u))
  {
    var rows, gone := DeleteUser(db, u).rows, IdsOfUser(db.rows, u);
    forall id | id in rows ensures LinkOk(rows, id) && rows[id] == db.rows[id] {
      assert LinkOk(db.rows, id);
    }
  }

  // ---------------------------------------------------------------- nothing but the preserved fields matters

  function OfUser(rows: map<Id, Row>, u: Id): map<Id, Row> {
    map id | id in rows && rows[id].userId == u :: rows[id]
  }

  function AnomaliesOf(db: Db, u: Id): map<Id, AnomalyView> {
    map id | id in db.anomalies && id in IdsOfUser(db.rows, u) :: db.anomalies[id]
  }

  /** Detection reads the rows of the event's user only. */
  lemma DetectionIsPerUser(env: Env, a: map<Id, Row>, b: map<Id, Row>, e: Event)
    requires OfUser(a, e.userId) == OfUser(b, e.userId) && (e.id in a <==> e.id in b)
    ensures Detect(env, a, e) == Detect(env, b, e)
  {
    assert Candidates(env, a, e) == Candidates(env, b, e) by {
      forall id ensures (id in a && IsCandidate(env, e, a[id])) <==> (id in b && IsCandidate(env, e, b[id])) {
        assert id in OfUser(a, e.userId) <==> id in OfUser(b, e.userId);
        assert id in OfUser(a, e.userId) ==> OfUser(a, e.userId)[id] == OfUser(b, e.userId)[id];
      }
      CandidatesFrom(env, a, b, e);
      CandidatesFrom(env, b, a, e);
    }
  }

  lemma CandidatesFrom(env: Env, a: map<Id, Row>, b: map<Id, Row>, e: Event)
    requires OfUser(a, e.userId) == OfUser(b, e.userId)
    ensures Candidates(env, a, e) <= Candidates(env, b, e)
  {
    forall c | c in Candidates(env, a, e) ensures c in Candidates(env, b, e) {
      var id :| id in a && IsCandidate(env, e, a[id]) && c == Score(env, e, LegOfRow(a[id]));
      assert id in OfUser(a, e.userId);
      assert id in OfUser(b, e.userId) && b[id] == a[id];
    }
  }

  lemma StepIsPerUser(env: Env, a: Db, b: Db, e: Event)
    requires Keyed(a.rows) && Keyed(b.rows) && Processable(env, e) && e.id !in a.rows && e.id !in b.rows
    requires e.id !in a.anomalies && e.id !in b.anomalies
    requires OfUser(a.rows, e.userId) == OfUser(b.rows, e.userId)
             && AnomaliesOf(a, e.userId) == AnomaliesOf(b, e.userId)
    ensures OfUser(Enrich(env, a, e).rows, e.userId) == OfUser(Enrich(env, b, e).rows, e.userId)
    ensures AnomaliesOf(Enrich(env, a, e), e.userId) == AnomaliesOf(Enrich(env, b, e), e.userId)
  {
    DetectionIsPerUser(env, a.rows, b.rows, e);
    StepView(env, a, e);
    StepView(env, b, e);
  }

  /** The user's part of the tables after a step, from the user's part before. */
  lemma StepView(env: Env, db: Db, e: Event)
    requires Keyed(db.rows) && Processable(env, e) && e.id !in db.rows && e.id !in db.anomalies
    ensures var d := Detect(env, db.rows, e);
            var mine, noted := OfUser(db.rows, e.userId), AnomaliesOf(db, e.userId);
            var row := RowFor(env, e, d);
            && (d.partner.Some? ==> d.block.Some? && d.block.value.pair.Some?)
            && OfUser(Enrich(env, db, e).rows, e.userId)
               == (if d.partner.Some? then ClaimIn(mine, d.partner.value, e.id, d.block.value.pair.value)
                   else mine)[e.id := row]
            && AnomaliesOf(Enrich(env, db, e), e.userId) == StepAnomaliesOf(noted, e.id, d)
  {
    StepRows(env, db, e);
    var d, u := Detect(env, db.rows, e), e.userId;
    var row := RowFor(env, e, d);
    if d.partner.Some? {
      ClaimView(db.rows, d.partner.value, e.id, d.block.value.pair.value, row, u);
    } else {
      InsertOfUser(db.rows, e.id, row, u);
      UserIdsAfter(db.rows, db.rows, e.id, row, u);
    }
    StepAnomaliesView(env, db, e);
    AnomaliesRestrict(db, Enrich(env, db, e), u, e.id, d);
  }

  lemma ClaimView(rows: map<Id, Row>, p: Id, id: Id, pair: PairBlock, row: Row, u: Id)
    requires p in rows && rows[p].userId == u && row.userId == u
    ensures var after := rows[p := ClaimedRow(rows[p], id, pair)][id := row];
            && OfUser(after, u) == ClaimIn(OfUser(rows, u), p, id, pair)[id := row]
            && IdsOfUser(after, u) == IdsOfUser(rows, u) + {id}
  {
    var claimed := rows[p := ClaimedRow(rows[p], id, pair)];
    ClaimOfUser(rows, p, id, pair, u);
    InsertOfUser(claimed, id, row, u);
    UserIdsAfter(rows, claimed, id, row, u);
  }

  lemma StepAnomaliesView(env: Env, db: Db, e: Event)
    requires Keyed(db.rows) && Processable(env, e) && e.id !in db.anomalies
    ensures Enrich(env, db, e).anomalies == StepAnomaliesOf(db.anomalies, e.id, Detect(env, db.rows, e))
  {
  }

  function StepAnomaliesOf(anomalies: map<Id, AnomalyView>, id: Id, d: Detection): map<Id, AnomalyView> {
    var kept := if d.partner.Some? then DropUnpaired(anomalies, {id, d.partner.value}) else anomalies;
    if d.anomaly.Some? then kept[id := d.anomaly.value] else kept
  }

  lemma ClaimOfUser(rows: map<Id, Row>, p: Id, claimant: Id, pair: PairBlock, u: Id)
    requires p in rows && rows[p].userId == u
    ensures OfUser(rows[p := ClaimedRow(rows[p], claimant, pair)], u) == ClaimIn(OfUser(rows, u), p, claimant, pair)
  {
  }

  lemma InsertOfUser(rows: map<Id, Row>, id: Id, row: Row, u: Id)
    requires row.userId == u
    ensures OfUser(rows[id := row], u) == OfUser(rows, u)[id := row]
  {
  }

  lemma UserIdsAfter(rows: map<Id, Row>, claimed: map<Id, Row>, id: Id, row: Row, u: Id)
    requires row.userId == u && claimed.Keys == rows.Keys
    requires forall i :: i in rows ==> claimed[i].userId == rows[i].userId
    ensures IdsOfUser(claimed[id := row], u) == IdsOfUser(rows, u) + {id}
  {
  }

  lemma AnomaliesRestrict(db: Db, after: Db, u: Id, id: Id, d: Detection)
    requires id !in db.anomalies && IdsOfUser(after.rows, u) == IdsOfUser(db.rows, u) + {id}
    requires after.anomalies == StepAnomaliesOf(db.anomalies, id, d)
    ensures AnomaliesOf(after, u) == StepAnomaliesOf(AnomaliesOf(db, u), id, d)
  {
  }

  /** The state a replay reaches before one more event of the batch. */
  lemma ReplayReaches(env: Env, db: Db, init: seq<Event>, e: Event, u: Id)
    requires ReplayBatch(env, init + [e], u) && ClearedFor(db, init + [e], u)
    ensures var mid := Consume(env, db, init); Keyed(mid.rows) && e.id !in mid.rows && e.id !in mid.anomalies
  {
    var events := init + [e];
    assert events[..|init|] == init && events[|init|] == e;
    assert ReplayBatch(env, init, u);
    ByIdMembers(init);
    ReplayStoresEvents(env, db, init, u);
    LastIsNew(init, e);
  }

  /** Two tables that agree on a user's preserved fields reprocess to the same rows and anomalies for that user,
      whatever else they hold. */
  lemma {:induction false} ReplayDependsOnEventsOnly(env: Env, a: Db, b: Db, events: seq<Event>, u: Id)
    requires ReplayBatch(env, events, u) && ClearedFor(a, events, u) && ClearedFor(b, events, u)
    ensures OfUser(Consume(env, a, events).rows, u) == OfUser(Consume(env, b, events).rows, u)
    ensures AnomaliesOf(Consume(env, a, events), u) == AnomaliesOf(Consume(env, b, events), u)
  {
    if events != [] {
      var init, e := events[..|events| - 1], events[|events| - 1];
      assert events == init + [e];
      ReplayDependsOnEventsOnly(env, a, b, init, u);
      ReplayReaches(env, a, init, e, u);
      ReplayReaches(env, b, init, e, u);
      StepIsPerUser(env, Consume(env, a, init), Consume(env, b, init), e);
    }
  }

  lemma ReprocessDependsOnPreservedFieldsOnly(env: Env, a: Db, b: Db, u: Id)
    requires Keyed(a.rows) && Keyed(b.rows) && EventMap(a.rows, u) == EventMap(b.rows, u)
    requires forall id :: id in a.rows && a.rows[id].userId == u ==> Processable(env, ToNormalized(a.rows[id]))
    ensures OfUser(Reprocess(env, a, u).rows, u) == OfUser(Reprocess(env, b, u).rows, u)
    ensures AnomaliesOf(Reprocess(env, a, u), u) == AnomaliesOf(Reprocess(env, b, u), u)
  {
    ReplayIsByPreservedFields(a.rows, u);
    ReplayIsByPreservedFields(b.rows, u);
    forall id | id in b.rows && b.rows[id].userId == u ensures Processable(env, ToNormalized(b.rows[id])) {
      assert id in EventMap(b.rows, u) && EventMap(a.rows, u)[id] == ToNormalized(b.rows[id]);
    }
    ReplayIsBatch(env, a.rows, u);
    DeletedIsCleared(env, a, u);
    DeletedIsCleared(env, b, u);
    ReplayDependsOnEventsOnly(env, DeleteUser(a, u), DeleteUser(b, u), EventsOf(SelectForUser(a.rows, u)), u);
  }
}
