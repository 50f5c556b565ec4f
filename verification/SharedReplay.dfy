/** A replay consumed among everything else: redeliveries and other users' messages in between do not show. */
module SharedReplay {
  import opened Common
  import opened Domain
  import opened Decision
  import opened Enrichment
  import opened TransferRuns
  import opened Replay

  /** The messages of one user, in order. */
  function EventsFor(events: seq<Event>, u: Id): seq<Event> {
    if events == [] then []
    else
      var before := EventsFor(events[..|events| - 1], u);
      var e := events[|events| - 1];
      if e.userId == u then before + [e] else before
  }

  lemma {:induction false} EventsForMembers(events: seq<Event>, u: Id)
    ensures forall e :: e in EventsFor(events, u) <==> e in events && e.userId == u
  {
    if events != [] {
      EventsForMembers(events[..|events| - 1], u);
      assert events == events[..|events| - 1] + [events[|events| - 1]];
    }
  }

  lemma {:induction false} FirstDeliveriesMembers(events: seq<Event>)
    ensures forall e :: e in FirstDeliveries(events) ==> e in events
    ensures EventIds(FirstDeliveries(events)) == EventIds(events)
  {
    if events != [] {
      var init, e := events[..|events| - 1], events[|events| - 1];
      FirstDeliveriesMembers(init);
      assert events == init + [e];
      EventIdsSnoc(init, e);
      if e.id !in EventIds(init) { EventIdsSnoc(FirstDeliveries(init), e); }
    }
  }

  lemma EventIdsSnoc(init: seq<Event>, e: Event)
    ensures EventIds(init + [e]) == EventIds(init) + {e.id}
  {
    forall id | id in EventIds(init) ensures id in EventIds(init + [e]) {
      var x :| x in init && x.id == id;
      assert x in init + [e];
    }
    assert e in init + [e];
  }

  /** Another user's event changes nothing of this user's. */
  lemma OtherUserStep(env: Env, db: Db, e: Event, u: Id)
    requires Keyed(db.rows) && e.userId != u
    ensures OfUser(Enrich(env, db, e).rows, u) == OfUser(db.rows, u)
    ensures AnomaliesOf(Enrich(env, db, e), u) == AnomaliesOf(db, u)
  {
    if Processable(env, e) && e.id !in db.rows {
      OtherUserRows(env, db, e, u);
      StepAnomalies(env, db, e);
      SameAnomalies(db, Enrich(env, db, e), u);
    }
  }

  lemma OtherUserRows(env: Env, db: Db, e: Event, u: Id)
    requires Keyed(db.rows) && e.userId != u && Processable(env, e) && e.id !in db.rows
    ensures OfUser(Enrich(env, db, e).rows, u) == OfUser(db.rows, u)
    ensures IdsOfUser(Enrich(env, db, e).rows, u) == IdsOfUser(db.rows, u)
    ensures e.id !in IdsOfUser(db.rows, u)
    ensures var p := Detect(env, db.rows, e).partner; p.Some? ==> p.value !in IdsOfUser(db.rows, u)
  {
    StepRows(env, db, e);
    var d := Detect(env, db.rows, e);
    var row := RowFor(env, e, d);
    if d.partner.Some? {
      var p := d.partner.value;
      var claimed := ClaimedRow(db.rows[p], e.id, d.block.value.pair.value);
      ForeignWrite(db.rows, p, claimed, u);
      ForeignWrite(db.rows[p := claimed], e.id, row, u);
    } else {
      ForeignWrite(db.rows, e.id, row, u);
    }
  }

  /** Writing another user's row where there was none, or another user's. */
  lemma ForeignWrite(rows: map<Id, Row>, id: Id, row: Row, u: Id)
    requires row.userId != u && (id in rows ==> rows[id].userId != u)
    ensures OfUser(rows[id := row], u) == OfUser(rows, u) && IdsOfUser(rows[id := row], u) == IdsOfUser(rows, u)
  {
  }

  lemma SameAnomalies(db: Db, after: Db, u: Id)
    requires IdsOfUser(after.rows, u) == IdsOfUser(db.rows, u)
    requires forall id :: id in IdsOfUser(db.rows, u) ==>
               (id in after.anomalies <==> id in db.anomalies)
                   && (id in db.anomalies ==> after.anomalies[id] == db.anomalies[id])
    ensures AnomaliesOf(after, u) == AnomaliesOf(db, u)
  {
  }

  /** Rows and anomalies come from the events consumed. */
  lemma {:induction false} ConsumedOrigins(env: Env, db: Db, events: seq<Event>)
    requires Keyed(db.rows)
    ensures var after := Consume(env, db, events);
            && Keyed(after.rows)
            && after.rows.Keys <= db.rows.Keys + EventIds(events)
            && after.anomalies.Keys <= db.anomalies.Keys + EventIds(events)
  {
    if events != [] {
      var init, e := events[..|events| - 1], events[|events| - 1];
      ConsumedOrigins(env, db, init);
      var mid := Consume(env, db, init);
      KeyedStep(env, mid, e);
      EnrichedRowsRemain(env, mid, e);
      if Processable(env, e) { StepAnomalies(env, mid, e); }
      assert events == init + [e];
      EventIdsSnoc(init, e);
    }
  }

  /** The user's messages, first deliveries only, are a batch nobody else's message interferes with. */
  ghost predicate Carries(env: Env, db: Db, events: seq<Event>, u: Id) {
    var mine := FirstDeliveries(EventsFor(events, u));
    && ReplayBatch(env, mine, u) && ClearedFor(db, mine, u)
    && forall e :: e in events && e.userId != u ==> e.id !in ById(mine)
  }

  lemma BatchInit(env: Env, db: Db, before: seq<Event>, e: Event, u: Id)
    requires ReplayBatch(env, before + [e], u) && ClearedFor(db, before + [e], u)
    ensures ReplayBatch(env, before, u) && ClearedFor(db, before, u)
    ensures ById(before).Keys <= ById(before + [e]).Keys
  {
    assert (before + [e])[..|before|] == before;
    ByIdMembers(before);
    ByIdMembers(before + [e]);
  }

  lemma MineNext(init: seq<Event>, e: Event, u: Id)
    ensures var before, mine := FirstDeliveries(EventsFor(init, u)), FirstDeliveries(EventsFor(init + [e], u));
            mine == before || mine == before + [e]
  {
    var events, theirs := init + [e], EventsFor(init, u);
    assert events[..|init|] == init && events[|init|] == e;
    if e.userId == u { assert (theirs + [e])[..|theirs|] == theirs; }
  }

  lemma CarriesPrefix(env: Env, db: Db, init: seq<Event>, e: Event, u: Id)
    requires Carries(env, db, init + [e], u)
    ensures Carries(env, db, init, u)
  {
    var before, mine := FirstDeliveries(EventsFor(init, u)), FirstDeliveries(EventsFor(init + [e], u));
    MineNext(init, e, u);
    if mine != before { BatchInit(env, db, before, e, u); }
    forall x | x in init && x.userId != u ensures x.id !in ById(before) {
      assert x in init + [e];
    }
  }

  /** A new message of the user meets tables that hold nothing under its id. */
  lemma NewMessageIsNew(env: Env, db: Db, init: seq<Event>, e: Event, u: Id)
    requires Carries(env, db, init + [e], u) && e.userId == u && e.id !in EventIds(EventsFor(init, u))
    ensures var mid := Consume(env, db, init); Keyed(mid.rows) && e.id !in mid.rows && e.id !in mid.anomalies
    ensures FirstDeliveries(EventsFor(init + [e], u)) == FirstDeliveries(EventsFor(init, u)) + [e]
  {
    var events, theirs := init + [e], EventsFor(init, u);
    assert events[..|init|] == init && events[|init|] == e;
    assert (theirs + [e])[..|theirs|] == theirs;
    var mine := FirstDeliveries(EventsFor(events, u));
    assert e in mine;
    ByIdMembers(mine);
    ConsumedOrigins(env, db, init);
    EventsForMembers(init, u);
    forall x | x in init ensures x.id != e.id {
      assert x in events;
      if x.userId == u { assert x in theirs; }
    }
  }

  /** A repeated message of the user finds its row. */
  lemma RepeatedMessageIsStored(env: Env, db: Db, init: seq<Event>, e: Event, u: Id)
    requires Carries(env, db, init, u) && e.id in EventIds(EventsFor(init, u))
    ensures e.id in Consume(env, db, init).rows
  {
    FirstDeliveriesMembers(EventsFor(init, u));
    EventsForMembers(init, u);
    var x :| x in FirstDeliveries(EventsFor(init, u)) && x.id == e.id;
    ConsumedIdsAreStored(env, db, init);
    assert x in init && Processable(env, x);
  }

  ghost predicate SameForUser(a: Db, b: Db, u: Id) {
    OfUser(a.rows, u) == OfUser(b.rows, u) && AnomaliesOf(a, u) == AnomaliesOf(b, u)
  }

  /** However the batch is delivered, the user's part of the tables is that of the batch alone. */
  lemma {:induction false} InterleavingDoesNotShow(env: Env, db: Db, events: seq<Event>, u: Id)
    requires Carries(env, db, events, u)
    ensures SameForUser(Consume(env, db, events), Consume(env, db, FirstDeliveries(EventsFor(events, u))), u)
  {
    if events != [] {
      var init, e := events[..|events| - 1], events[|events| - 1];
      assert events == init + [e];
      CarriesPrefix(env, db, init, e, u);
      InterleavingDoesNotShow(env, db, init, u);
      ConsumedOrigins(env, db, init);
      if e.userId != u {
        OtherUserStep(env, Consume(env, db, init), e, u);
      } else {
        OwnStep(env, db, init, e, u);
      }
    }
  }

  lemma OwnStep(env: Env, db: Db, init: seq<Event>, e: Event, u: Id)
    requires Carries(env, db, init + [e], u) && Carries(env, db, init, u) && e.userId == u
    requires SameForUser(Consume(env, db, init), Consume(env, db, FirstDeliveries(EventsFor(init, u))), u)
    ensures SameForUser(Consume(env, db, init + [e]), Consume(env, db, FirstDeliveries(EventsFor(init + [e], u))), u)
  {
    var events, theirs := init + [e], EventsFor(init, u);
    var before := FirstDeliveries(theirs);
    assert events[..|init|] == init && events[|init|] == e;
    assert (theirs + [e])[..|theirs|] == theirs;
    if e.id in EventIds(theirs) {
      RepeatedMessageIsStored(env, db, init, e, u);
      RedeliveryChangesNothing(env, Consume(env, db, init), e);
    } else {
      NewMessageIsNew(env, db, init, e, u);
      assert (before + [e])[..|before|] == before;
      ReplayReaches(env, db, before, e, u);
      StepIsPerUser(env, Consume(env, db, init), Consume(env, db, before), e);
    }
  }

  /** Did the consumer take the user's replay: every replayed event, in order, with repeats and other users'
      messages anywhere in between? */
  ghost predicate TookReplay(env: Env, rows: map<Id, Row>, u: Id, consumed: seq<Event>) {
    && FirstDeliveries(EventsFor(consumed, u)) == EventsOf(SelectForUser(rows, u))
    && (forall e :: e in consumed && e.userId != u ==> e.id !in IdsOfUser(rows, u))
    && (forall id :: id in rows && rows[id].userId == u ==> Processable(env, ToNormalized(rows[id])))
  }

  /** Then the user's part of the tables is that of the reprocess. */
  lemma SharedReplayIsReprocess(env: Env, db: Db, u: Id, consumed: seq<Event>)
    requires Keyed(db.rows) && TookReplay(env, db.rows, u, consumed)
    ensures SameForUser(Consume(env, DeleteUser(db, u), consumed), Reprocess(env, db, u), u)
  {
    ReplayIsBatch(env, db.rows, u);
    DeletedIsCleared(env, db, u);
    assert EventMap(db.rows, u).Keys == IdsOfUser(db.rows, u);
    InterleavingDoesNotShow(env, DeleteUser(db, u), consumed, u);
  }
}
