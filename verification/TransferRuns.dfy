/** What every run of enrichment steps keeps: links form a matching, anomalies stay coherent, and
    redelivery changes nothing. */
module TransferRuns {
  import opened Common
  import opened Domain
  import opened Decision
  import opened Enrichment

  /** metadata.layer.transfer */
  function TransferOf(r: Row): Option<TransferBlock> {
    if r.metadata.Some? && r.metadata.value.layer.Some? then r.metadata.value.layer.value.transfer else None
  }

  function PairOf(r: Row): Option<PairBlock> {
    if TransferOf(r).Some? then TransferOf(r).value.pair else None
  }

  function FlagsIn(r: Row): Option<RowBlock> {
    if TransferOf(r).Some? then TransferOf(r).value.row else None
  }

  /** One leg's amount is the other's operation amount, or, where an operation amount is missing, the amounts are
      equal. */
  predicate AmountsAgree(a: Row, b: Row) {
    || b.operationAmountCents == Some(a.amountCents)
    || a.operationAmountCents == Some(b.amountCents)
    || (a.amountCents == b.amountCents && (a.operationAmountCents.None? || b.operationAmountCents.None?))
  }

  /** Two rows that may be the legs of one transfer. */
  ghost predicate LegsMatch(a: Row, b: Row) {
    && a.id != b.id
    && a.userId == b.userId
    && a.accountId != b.accountId
    && a.direction != b.direction && a.direction != Zero && b.direction != Zero
    && a.mcc == Some("4829") && b.mcc == Some("4829")
    && -2_000_000 <= a.time - b.time <= 2_000_000
    && AmountsAgree(a, b)
    && PairOf(a).Some? && PairOf(a) == PairOf(b)
  }

  /** The row's link, if any, is returned by a matching partner; a transfer is exactly a linked row. */
  ghost predicate LinkOk(rows: map<Id, Row>, id: Id)
    requires id in rows
  {
    && (rows[id].specialCategory == Some(Transfer) <==> rows[id].relatedTransactionId.Some?)
    && (rows[id].relatedTransactionId.Some? ==>
          var p := rows[id].relatedTransactionId.value;
          && p in rows
          && rows[p].relatedTransactionId == Some(id)
          && LegsMatch(rows[id], rows[p]))
  }

  /** The links form a matching. */
  ghost predicate Matching(rows: map<Id, Row>) {
    Keyed(rows) && forall id :: id in rows ==> LinkOk(rows, id)
  }

  /** Every anomaly belongs to a stored row, and no linked row is reported as unpaired. */
  ghost predicate AnomaliesOk(db: Db) {
    forall id :: id in db.anomalies ==>
      id in db.rows && (db.rows[id].relatedTransactionId.Some? ==> !IsUnpaired(db.anomalies[id].reason))
  }

  ghost predicate Coherent(db: Db) {
    Matching(db.rows) && AnomaliesOk(db)
  }

  /** A claim links the incoming row and its partner, and leaves every other row alone. */
  lemma ClaimKeepsMatching(rows: map<Id, Row>, p: Id, pair: PairBlock, row: Row)
    requires Matching(rows) && p in rows && rows[p].relatedTransactionId.None? && row.id !in rows
    requires row.relatedTransactionId == Some(p) && row.specialCategory == Some(Transfer)
    requires LegsMatch(row, ClaimedRow(rows[p], row.id, pair))
    ensures Matching(ClaimIn(rows, p, row.id, pair)[row.id := row])
  {
    var after := ClaimIn(rows, p, row.id, pair)[row.id := row];
    forall id | id in after ensures LinkOk(after, id) {
      if id != row.id && id != p {
        assert LinkOk(rows, id);
        assert rows[id].relatedTransactionId != Some(p);
      }
    }
  }

  lemma PlainInsertKeepsMatching(rows: map<Id, Row>, row: Row)
    requires Matching(rows) && row.id !in rows && row.relatedTransactionId.None? && row.specialCategory.None?
    ensures Matching(rows[row.id := row])
  {
    var after := rows[row.id := row];
    forall id | id in after ensures LinkOk(after, id) {
      if id != row.id { assert LinkOk(rows, id); }
    }
  }

  /** A detected pair meets every condition of a match. */
  lemma DetectedLegsMatch(env: Env, rows: map<Id, Row>, e: Event)
    requires Keyed(rows) && Processable(env, e) && Detect(env, rows, e).partner.Some?
    ensures var d := Detect(env, rows, e);
            var p := d.partner.value;
            && p in rows && rows[p].relatedTransactionId.None? && e.id !in rows
            && d.block.Some? && d.block.value.pair.Some?
            && LegsMatch(RowFor(env, e, d), ClaimedRow(rows[p], e.id, d.block.value.pair.value))
  {
    PartnerIsCandidate(env, rows, e);
  }

  lemma EnrichKeepsMatching(env: Env, db: Db, e: Event)
    requires Matching(db.rows)
    ensures Matching(Enrich(env, db, e).rows)
  {
    if Processable(env, e) {
      var d := Detect(env, db.rows, e);
      if d.partner.Some? {
        DetectedLegsMatch(env, db.rows, e);
        ClaimKeepsMatching(db.rows, d.partner.value, d.block.value.pair.value, RowFor(env, e, d));
      } else if e.id !in db.rows {
        PlainInsertKeepsMatching(db.rows, RowFor(env, e, d));
      }
    }
  }

  lemma EnrichKeepsAnomaliesOk(env: Env, db: Db, e: Event)
    requires Coherent(db)
    ensures AnomaliesOk(Enrich(env, db, e))
  {
    if Processable(env, e) {
      var d := Detect(env, db.rows, e);
      if d.partner.Some? { PartnerIsCandidate(env, db.rows, e); }
    }
  }

  /** A step removes no report but of an unpaired leg, and that only of the two legs it links. */
  lemma OtherReportsStay(env: Env, db: Db, e: Event, id: Id)
    requires id in db.anomalies
    requires var d := Detect(env, db.rows, e);
             var reason := db.anomalies[id].reason;
             || (!reason.UnpairedFromDescription? && !reason.UnpairedToDescription?)
             || (id != e.id && d.partner != Some(id))
    ensures id in Enrich(env, db, e).anomalies && Enrich(env, db, e).anomalies[id] == db.anomalies[id]
  {
  }

  /** On first delivery the anomaly table's conflict clause never drops the step's record. */
  lemma FirstDeliveryRecordsAnomaly(env: Env, db: Db, e: Event)
    requires Coherent(db) && Processable(env, e) && Detect(env, db.rows, e).anomaly.Some?
    ensures e.id !in db.anomalies
    ensures e.id in Enrich(env, db, e).anomalies
            && Enrich(env, db, e).anomalies[e.id] == Detect(env, db.rows, e).anomaly.value
  {
  }

  /** The matching and the anomaly table's coherence hold after any sequence of events. */
  lemma {:induction false} RunsStayCoherent(env: Env, db: Db, events: seq<Event>)
    requires Coherent(db)
    ensures Coherent(Consume(env, db, events))
  {
    if events != [] {
      var init, e := events[..|events| - 1], events[|events| - 1];
      RunsStayCoherent(env, db, init);
      EnrichKeepsMatching(env, Consume(env, db, init), e);
      EnrichKeepsAnomaliesOk(env, Consume(env, db, init), e);
    }
  }

  // ---------------------------------------------------------------- the transfer metadata

  /** Was the row examined when it was stored? Its own columns tell. */
  predicate WasExamined(r: Row) {
    r.source == "monobank" && r.mcc == Some("4829") && r.direction != Zero
  }

  /** A freshly stored row has a transfer block exactly when its event was examined. */
  lemma FreshBlockIffExamined(env: Env, db: Db, e: Event)
    requires Keyed(db.rows) && Processable(env, e) && e.id !in db.rows
    ensures e.id in Enrich(env, db, e).rows
    ensures TransferOf(Enrich(env, db, e).rows[e.id]).Some? <==> Examined(db.rows, e)
  {
    if Detect(env, db.rows, e).partner.Some? { PartnerIsCandidate(env, db.rows, e); }
    DetectionBlock(env, db.rows, e);
    BlockIsStored(env, e, Detect(env, db.rows, e));
  }

  lemma DetectionBlock(env: Env, rows: map<Id, Row>, e: Event)
    ensures var d := Detect(env, rows, e);
            && (d.block.Some? <==> Examined(rows, e))
            && (d.block.Some? ==> d.block.value.row.Some? && (d.block.value.pair.Some? <==> d.partner.Some?))
            && (d.partner.Some? ==> d.block.Some?)
  {
  }

  lemma BlockIsStored(env: Env, e: Event, d: Detection)
    requires Processable(env, e)
    ensures TransferOf(RowFor(env, e, d)) == d.block
  {
  }

  /** The block's two halves: the flags of a row that was examined, the evidence of a row that is linked. */
  ghost predicate BlockOk(r: Row) {
    (FlagsIn(r).Some? <==> WasExamined(r)) && (PairOf(r).Some? <==> r.relatedTransactionId.Some?)
  }

  ghost predicate BlocksOk(rows: map<Id, Row>) {
    forall id :: id in rows ==> BlockOk(rows[id])
  }

  lemma ClaimKeepsBlockOk(r: Row, claimant: Id, pair: PairBlock)
    requires BlockOk(r)
    ensures BlockOk(ClaimedRow(r, claimant, pair))
  {
  }

  lemma NewRowBlockOk(env: Env, rows: map<Id, Row>, e: Event)
    requires Processable(env, e) && e.id !in rows
    ensures BlockOk(RowFor(env, e, Detect(env, rows, e)))
  {
    DetectionBlock(env, rows, e);
    BlockIsStored(env, e, Detect(env, rows, e));
  }

  lemma EnrichKeepsBlocksOk(env: Env, db: Db, e: Event)
    requires Keyed(db.rows) && BlocksOk(db.rows)
    ensures BlocksOk(Enrich(env, db, e).rows)
  {
    if Processable(env, e) && e.id !in db.rows {
      var d := Detect(env, db.rows, e);
      NewRowBlockOk(env, db.rows, e);
      if d.partner.Some? {
        PartnerIsCandidate(env, db.rows, e);
        ClaimKeepsBlockOk(db.rows[d.partner.value], e.id, d.block.value.pair.value);
      }
    } else if Processable(env, e) {
      RedeliveryChangesNothing(env, db, e);
    }
  }

  /** After any sequence of events: flags on exactly the rows that were examined, pair evidence on exactly the
      linked ones. A linked row that was never examined has the evidence without the flags. */
  lemma {:induction false} RunsKeepBlocksOk(env: Env, db: Db, events: seq<Event>)
    requires Coherent(db) && BlocksOk(db.rows)
    ensures BlocksOk(Consume(env, db, events).rows)
  {
    if events != [] {
      var init, e := events[..|events| - 1], events[|events| - 1];
      RunsKeepBlocksOk(env, db, init);
      RunsStayCoherent(env, db, init);
      EnrichKeepsBlocksOk(env, Consume(env, db, init), e);
    }
  }

  // ---------------------------------------------------------------- at-least-once equals exactly-once

  lemma RedeliveryChangesNothing(env: Env, db: Db, e: Event)
    requires e.id in db.rows
    ensures Enrich(env, db, e) == db
  {
  }

  lemma EnrichedRowsRemain(env: Env, db: Db, e: Event)
    ensures Enrich(env, db, e).rows.Keys == db.rows.Keys + (if Processable(env, e) then {e.id} else {})
  {
  }

  function EventIds(events: seq<Event>): set<Id> {
    set e | e in events :: e.id
  }

  /** The sequence with every later delivery of an id removed. */
  function FirstDeliveries(events: seq<Event>): seq<Event> {
    if events == [] then []
    else
      var init, e := events[..|events| - 1], events[|events| - 1];
      if e.id in EventIds(init) then FirstDeliveries(init) else FirstDeliveries(init) + [e]
  }

  lemma {:induction false} ConsumedIdsAreStored(env: Env, db: Db, events: seq<Event>)
    ensures forall e :: e in events && Processable(env, e) ==> e.id in Consume(env, db, events).rows
  {
    if events != [] {
      var init, e := events[..|events| - 1], events[|events| - 1];
      ConsumedIdsAreStored(env, db, init);
      EnrichedRowsRemain(env, Consume(env, db, init), e);
      assert events == init + [e];
    }
  }

  /** Deliveries of one id agree on whether the event can be enriched, as repeated deliveries of one message do. */
  ghost predicate Redeliveries(env: Env, events: seq<Event>) {
    forall a, b :: a in events && b in events && a.id == b.id ==> (Processable(env, a) <==> Processable(env, b))
  }

  /** Any at-least-once delivery leaves the same rows, links, metadata and anomalies as exactly-once delivery. */
  lemma {:induction false} AtLeastOnceIsExactlyOnce(env: Env, db: Db, events: seq<Event>)
    requires Redeliveries(env, events)
    ensures Consume(env, db, events) == Consume(env, db, FirstDeliveries(events))
  {
    if events != [] {
      var init, e := events[..|events| - 1], events[|events| - 1];
      AtLeastOnceIsExactlyOnce(env, db, init);
      ConsumedIdsAreStored(env, db, init);
      if e.id in EventIds(init) {
        var x :| x in init && x.id == e.id;
        assert x in events && e in events;
        if Processable(env, e) { RedeliveryChangesNothing(env, Consume(env, db, init), e); }
      } else {
        assert (FirstDeliveries(init) + [e])[..|FirstDeliveries(init)|] == FirstDeliveries(init);
      }
    }
  }
}
