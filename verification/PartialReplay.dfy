/** A restore after the consumer had taken one leg of a pair only. */
module PartialReplay {
  import opened Common
  import opened Domain
  import opened Decision
  import opened Enrichment
  import opened TransferRuns
  import opened ArrivalOrder
  import opened Replay
  import opened ReprocessJob
  import Conversion

  /** Whichever leg of a linked pair comes back alone, the restore leaves the other one pointing at it in vain. */
  lemma HalfReplayBreaksPair(env: Env, before: Db, u: Id, id: Id)
    requires Coherent(before) && id in before.rows && before.rows[id].userId == u
    requires before.rows[id].relatedTransactionId.Some? && Processable(env, ToNormalized(before.rows[id]))
    ensures !Coherent(AfterRestore(env, before, u, [ToNormalized(before.rows[id])]))
  {
    var e, cleared := ToNormalized(before.rows[id]), DeleteUser(before, u);
    var p := before.rows[id].relatedTransactionId.value;
    assert LinkOk(before.rows, id);
    assert Consume(env, cleared, [e]) == Enrich(env, cleared, e) by {
      assert [e][..0] == [];
    }
    EnrichedRowsRemain(env, cleared, e);
    assert p !in cleared.rows && p != id;
    FailedRunIsCoherentIff(env, before, u, [e]);
    assert !PairsCameBackWhole(before.rows, u, Enrich(env, cleared, e).rows.Keys);
  }

  /** Two legs delivered to empty tables that find each other: a linked pair in good order. */
  lemma PairOnEmptyTables(env: Env, a: Event, b: Event)
    requires Processable(env, a) && Processable(env, b) && a.id != b.id && a.source == MONOBANK && Finds(env, b, a)
    ensures var before := Enrich(env, Enrich(env, Db(map[], map[]), a), b);
            before == PairedDb(env, Db(map[], map[]), a, b) && Coherent(before)
  {
    var empty := Db(map[], map[]);
    DeliverPair(env, empty, a, b);
    EnrichKeepsMatching(env, empty, a);
    EnrichKeepsAnomaliesOk(env, empty, a);
    EnrichKeepsMatching(env, Enrich(env, empty, a), b);
    EnrichKeepsAnomaliesOk(env, Enrich(env, empty, a), b);
  }

  lemma ExampleLegsPair() returns (env: Env, a: Event, b: Event)
    ensures a.id == 1 && b.id == 2 && a.userId == 0 && b.userId == 0 && a.accountId == 1 && a.source == MONOBANK
    ensures env.accounts.Keys == {1, 2} && forall e, currency :: env.convert(e, currency).Some?
    ensures Processable(env, a) && Processable(env, b) && Finds(env, b, a)
  {
    var account, nothing := Account("black", "UAH"), Conversion.Converted(map[], map[]);
    env := Env(map[1 := account, 2 := account], map[], map[], (e, currency) => Some(nothing));
    a := ExampleLeg(1, Expense, Some(500));
    b := ExampleLeg(2, Income, Some(500));
    assert PairButForAmounts(env, b, a) && AmountMatches(LegOfEvent(b), LegOfEvent(a));
    FindsIsAmounts(env, b, a);
  }

  /** Two legs that pair, whose replay stops after the first. */
  lemma RestoreCanBreakPair() returns (env: Env, before: Db, consumed: seq<Event>)
    ensures Coherent(before) && before.rows.Keys == {1, 2} && before.rows[1].relatedTransactionId == Some(2)
    ensures consumed == [ToNormalized(before.rows[1])]
    ensures !Coherent(AfterRestore(env, before, 0, consumed))
  {
    var a, b;
    env, a, b := ExampleLegsPair();
    before := StoredPair(env, a, b);
    consumed := [ToNormalized(before.rows[1])];
    HalfReplayBreaksPair(env, before, 0, 1);
  }

  lemma StoredPair(env: Env, a: Event, b: Event) returns (before: Db)
    requires Processable(env, a) && Processable(env, b) && a.id != b.id && a.source == MONOBANK && Finds(env, b, a)
    requires forall e, currency :: env.convert(e, currency).Some?
    ensures Coherent(before) && before.rows.Keys == {a.id, b.id}
    ensures var r := before.rows[a.id];
            r.userId == a.userId && r.relatedTransactionId == Some(b.id) && Processable(env, ToNormalized(r))
  {
    before := PairedDb(env, Db(map[], map[]), a, b);
    PairOnEmptyTables(env, a, b);
    PairedRowOf(env, Db(map[], map[]), a, b);
    FirstRowOf(env, Db(map[], map[]), a, b);
    CanBeReplayed(env, before.rows[a.id]);
  }

  lemma CanBeReplayed(env: Env, r: Row)
    requires r.accountId in env.accounts && forall e, currency :: env.convert(e, currency).Some?
    ensures Processable(env, ToNormalized(r))
  {
  }

  lemma FirstRowOf(env: Env, db: Db, a: Event, b: Event)
    requires Processable(env, a) && Processable(env, b) && a.id != b.id
    ensures PairedDb(env, db, a, b).rows.Keys == db.rows.Keys + {a.id, b.id}
    ensures var r := PairedDb(env, db, a, b).rows[a.id]; r.userId == a.userId && r.accountId == a.accountId
  {
  }

  /** Nobody else's row points at one of the user's, so a delete clears no link. */
  lemma NoLinkToUser(rows: map<Id, Row>, left: map<Id, Row>, u: Id, id: Id)
    requires Matching(left) && id in left && left[id].userId != u
    requires forall i :: i in left ==> i in rows && rows[i] == left[i]
    ensures ClearLink(left[id], IdsOfUser(rows, u)) == left[id]
  {
    assert LinkOk(left, id);
  }

  /** The rows restored are the user's. */
  lemma RowsForgetRestore(before: map<Id, Row>, left: map<Id, Row>, u: Id)
    requires Keyed(before) && Matching(left)
    ensures WithoutUser(RestoreInto(left, SelectForUser(before, u)), u) == WithoutUser(left, u)
  {
    var back := RestoreInto(left, SelectForUser(before, u));
    forall id
      ensures id in back && back[id].userId != u <==> id in left && left[id].userId != u
      ensures id in left ==> id in back && back[id] == left[id]
    {
      RestoredRow(before, left, u, id);
    }
    forall id | id in left && left[id].userId != u
      ensures ClearLink(left[id], IdsOfUser(back, u)) == left[id] == ClearLink(left[id], IdsOfUser(left, u))
    {
      NoLinkToUser(back, left, u, id);
      NoLinkToUser(left, left, u, id);
    }
  }

  lemma AnomaliesForgetRestore(before: map<Id, Row>, left: Db, u: Id)
    requires Keyed(before) && AnomaliesOk(left)
    ensures var back := RestoreInto(left.rows, SelectForUser(before, u));
            DeleteUser(Db(back, left.anomalies), u).anomalies == DeleteUser(left, u).anomalies
  {
    var back := RestoreInto(left.rows, SelectForUser(before, u));
    forall id | id in left.anomalies ensures id in IdsOfUser(back, u) <==> id in IdsOfUser(left.rows, u) {
      RestoredRow(before, left.rows, u, id);
    }
  }

  /** Deleting the user again leaves what deleting would have left before the restore. */
  lemma DeleteForgetsRestore(env: Env, before: Db, u: Id, consumed: seq<Event>)
    requires Coherent(before)
    ensures DeleteUser(AfterRestore(env, before, u, consumed), u) ==
            DeleteUser(Consume(env, DeleteUser(before, u), consumed), u)
  {
    var left := Consume(env, DeleteUser(before, u), consumed);
    DeleteKeepsCoherence(before, u);
    RunsStayCoherent(env, DeleteUser(before, u), consumed);
    RowsForgetRestore(before.rows, left.rows, u);
    AnomaliesForgetRestore(before.rows, left, u);
  }

  /** Whatever links a failed run left behind, a reprocess that completes puts them in order. */
  lemma ReprocessRepairs(env: Env, before: Db, u: Id, consumed: seq<Event>)
    requires Coherent(before)
    ensures Coherent(Reprocess(env, AfterRestore(env, before, u, consumed), u))
  {
    DeleteKeepsCoherence(before, u);
    RunsStayCoherent(env, DeleteUser(before, u), consumed);
    DeleteKeepsCoherence(Consume(env, DeleteUser(before, u), consumed), u);
    DeleteForgetsRestore(env, before, u, consumed);
    ReprocessRestoresCoherence(env, AfterRestore(env, before, u, consumed), u);
  }

  // ---------------------------------------------------------------- a count reached too early

  lemma FirstEventOf(env: Env, db: Db, e: Event)
    requires db.rows == map[] && Processable(env, e)
    ensures IdsOfUser(Enrich(env, db, e).rows, e.userId) == {e.id} && Keyed(Enrich(env, db, e).rows)
  {
    EnrichedRowsRemain(env, db, e);
    assert Candidates(env, db.rows, e) == {};
    StoredLeg(env, e, Detect(env, db.rows, e));
  }

  lemma TakenOne(batches: seq<seq<Event>>, e: Event)
    requires |batches| >= 2 && batches[0] == [e] && batches[1] == []
    ensures Taken(batches, 1) == [e] && Taken(batches, 2) == [e]
  {
    assert Taken(batches, 0) == [];
  }

  /** A row that the snapshot does not have makes up the count: the wait ends, the verification misses the
      snapshot's row, and the run fails, whatever the consumer would have brought next. */
  lemma ExtraRowFailsRun(env: Env, before: Db, u: Id, extra: Event, batches: seq<seq<Event>>, failsAt: Option<nat>)
    requires Keyed(before.rows) && (forall id :: id in before.rows ==> before.rows[id].userId == u)
    requires |IdsOfUser(before.rows, u)| == 1 && extra.userId == u && extra.id !in before.rows
             && Processable(env, extra)
    requires |batches| >= 2 && batches[0] == [extra] && batches[1] == []
    ensures !Completes(env, before, u, batches, failsAt)
  {
    var db := DeleteUser(before, u);
    assert db.rows == map[];
    TakenOne(batches, extra);
    assert Consume(env, db, [extra]) == Enrich(env, db, extra) by { assert [extra][..0] == []; }
    FirstEventOf(env, db, extra);
    assert StoredAt(env, db, u, batches, 1) == {extra.id} && StoredAt(env, db, u, batches, 2) == {extra.id};
    assert CatchesUpAt(env, db, u, 1, batches, 1);
    forall p: nat | CompletesAt(env, before, u, batches, p) ensures p == 1 {
      CatchUpIsUnique(env, db, u, 1, batches, p, 1);
    }
    var id := Pick(IdsOfUser(before.rows, u));
    assert !(IdsOfUser(before.rows, u) <= {extra.id});
  }

  /** Such a run, in which the missing row would have been back a poll later. */
  lemma EarlyCountCanFailRun() returns (env: Env, before: Db, batches: seq<seq<Event>>)
    ensures Keyed(before.rows) && IdsOfUser(before.rows, 0) == {1}
    ensures !Completes(env, before, 0, batches, None)
    ensures |batches| == 3 && |batches[2]| == 1 && batches[2][0].id == 1 && Processable(env, batches[2][0])
  {
    var a, b;
    env, a, b := ExampleLegsPair();
    before := Enrich(env, Db(map[], map[]), a);
    FirstEventOf(env, Db(map[], map[]), a);
    EnrichedRowsRemain(env, Db(map[], map[]), a);
    assert forall id :: id in before.rows ==> id == 1 && id in IdsOfUser(before.rows, 0);
    batches := [[b], [], [a]];
    ExtraRowFailsRun(env, before, 0, b, batches, None);
  }
}
