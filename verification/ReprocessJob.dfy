/** The router, the staging drain and the reprocess job, as they change the shared tables and the topic. */
module ReprocessJob {
  import opened Common
  import opened Domain
  import opened Decision
  import opened Enrichment
  import opened TransferRuns
  import opened Replay
  import opened SharedReplay

  datatype Backup = Backup(userId: Id, data: seq<Row>)
  datatype StagedRow = StagedRow(id: Id, userId: Id, payload: Event)
  datatype Outcome = Skipped | Completed | Failed

  const CATCHUP_POLL_INTERVAL_S: real := 2.0
  const CATCHUP_TIMEOUT_S: real := 300.0

  // ---------------------------------------------------------------- staging, on values

  /** SELECT ... WHERE user_id = u ORDER BY created_at */
  function StagedFor(staging: seq<StagedRow>, u: Id): seq<StagedRow> {
    if staging == [] then []
    else (if staging[0].userId == u then [staging[0]] else []) + StagedFor(staging[1..], u)
  }

  /** DELETE ... WHERE id = id */
  function WithoutStaged(staging: seq<StagedRow>, id: Id): seq<StagedRow> {
    if staging == [] then []
    else (if staging[0].id == id then [] else [staging[0]]) + WithoutStaged(staging[1..], id)
  }

  /** Rows stand in the order in which they were staged. */
  ghost predicate InStagingOrder(staging: seq<StagedRow>) {
    forall i, j :: 0 <= i < j < |staging| ==> staging[i].id < staging[j].id
  }

  function Payloads(rows: seq<StagedRow>): seq<Event> {
    seq(|rows|, i requires 0 <= i < |rows| => rows[i].payload)
  }

  lemma PayloadsNext(rows: seq<StagedRow>, n: nat)
    requires n < |rows|
    ensures Payloads(rows[..n + 1]) == Payloads(rows[..n]) + [rows[n].payload]
  {
  }

  lemma {:induction false} WithoutAbsent(staging: seq<StagedRow>, id: Id)
    requires forall s :: s in staging ==> s.id != id
    ensures WithoutStaged(staging, id) == staging
  {
    if staging != [] { WithoutAbsent(staging[1..], id); }
  }

  lemma {:induction false} StagedForMembers(staging: seq<StagedRow>, u: Id)
    ensures forall s :: s in StagedFor(staging, u) <==> s in staging && s.userId == u
  {
    if staging != [] { StagedForMembers(staging[1..], u); }
  }

  lemma {:induction false} WithoutStagedMembers(staging: seq<StagedRow>, id: Id)
    requires InStagingOrder(staging)
    ensures forall s :: s in WithoutStaged(staging, id) ==> s in staging
    ensures InStagingOrder(WithoutStaged(staging, id))
  {
    if staging != [] {
      var rest := WithoutStaged(staging[1..], id);
      WithoutStagedMembers(staging[1..], id);
      forall i | 0 <= i < |rest| ensures staging[0].id < rest[i].id {
        assert rest[i] in staging[1..];
      }
    }
  }

  lemma {:induction false} SelectAfterDelete(staging: seq<StagedRow>, id: Id, u: Id)
    ensures StagedFor(WithoutStaged(staging, id), u) == WithoutStaged(StagedFor(staging, u), id)
  {
    if staging != [] {
      SelectAfterDelete(staging[1..], id, u);
      var s, rest, mine := staging[0], WithoutStaged(staging[1..], id), StagedFor(staging[1..], u);
      assert ([s] + rest)[1..] == rest && ([s] + mine)[1..] == mine;
      assert [] + rest == rest && [] + mine == mine;
      assert WithoutStaged(staging, id) == if s.id == id then rest else [s] + rest;
      assert StagedFor(staging, u) == if s.userId == u then [s] + mine else mine;
      assert [] + WithoutStaged(mine, id) == WithoutStaged(mine, id);
      assert [] + StagedFor(rest, u) == StagedFor(rest, u);
    }
  }

  lemma SameIdSameRow(staging: seq<StagedRow>, a: StagedRow, b: StagedRow)
    requires InStagingOrder(staging) && a in staging && b in staging && a.id == b.id
    ensures a == b
  {
  }

  lemma {:induction false} StagedForDistinct(staging: seq<StagedRow>, u: Id)
    requires InStagingOrder(staging)
    ensures InStagingOrder(StagedFor(staging, u))
  {
    if staging != [] {
      StagedForDistinct(staging[1..], u);
      StagedForMembers(staging[1..], u);
      var mine := StagedFor(staging[1..], u);
      forall i | 0 <= i < |mine| ensures staging[0].id < mine[i].id {
        assert mine[i] in staging[1..];
      }
    }
  }

  /** Deleting the user's first staged row leaves the user's other rows... */
  lemma DeleteFirstOfUser(staging: seq<StagedRow>, u: Id)
    requires InStagingOrder(staging) && StagedFor(staging, u) != []
    ensures StagedFor(WithoutStaged(staging, StagedFor(staging, u)[0].id), u) == StagedFor(staging, u)[1..]
  {
    var mine := StagedFor(staging, u);
    SelectAfterDelete(staging, mine[0].id, u);
    StagedForDistinct(staging, u);
    forall s | s in mine[1..] ensures s.id != mine[0].id {
      var i :| 1 <= i < |mine| && mine[i] == s;
    }
    WithoutAbsent(mine[1..], mine[0].id);
  }

  /** ... and everybody else's. */
  lemma DeleteFirstKeepsOthers(staging: seq<StagedRow>, u: Id, v: Id)
    requires InStagingOrder(staging) && StagedFor(staging, u) != [] && v != u
    ensures StagedFor(WithoutStaged(staging, StagedFor(staging, u)[0].id), v) == StagedFor(staging, v)
  {
    var first, theirs := StagedFor(staging, u)[0], StagedFor(staging, v);
    SelectAfterDelete(staging, first.id, v);
    StagedForMembers(staging, u);
    StagedForMembers(staging, v);
    forall s | s in theirs ensures s.id != first.id {
      if s.id == first.id { SameIdSameRow(staging, s, first); }
    }
    WithoutAbsent(theirs, first.id);
  }

  /** `done` of the user's rows are gone, and nothing else. */
  ghost predicate Drained(before: seq<StagedRow>, after: seq<StagedRow>, u: Id, done: nat) {
    var mine := StagedFor(before, u);
    && done <= |mine| && InStagingOrder(after)
    && (forall s :: s in after ==> s in before)
    && StagedFor(after, u) == mine[done..]
    && (forall v :: v != u ==> StagedFor(after, v) == StagedFor(before, v))
  }

  /** One deletion of a drain. */
  lemma DrainStep(before: seq<StagedRow>, staging: seq<StagedRow>, u: Id, done: nat)
    requires Drained(before, staging, u, done) && done < |StagedFor(before, u)|
    ensures Drained(before, WithoutStaged(staging, StagedFor(before, u)[done].id), u, done + 1)
  {
    var mine := StagedFor(before, u);
    WithoutStagedMembers(staging, mine[done].id);
    DeleteFirstOfUser(staging, u);
    assert mine[done..][1..] == mine[done + 1..];
    forall v | v != u ensures StagedFor(WithoutStaged(staging, mine[done].id), v) == StagedFor(before, v) {
      DeleteFirstKeepsOthers(staging, u, v);
    }
  }

  // ---------------------------------------------------------------- restoring, on values

  /** Re-inserting saved rows, each ON CONFLICT DO NOTHING. */
  function RestoreInto(rows: map<Id, Row>, saved: seq<Row>): map<Id, Row> {
    if saved == [] then rows
    else InsertNew(RestoreInto(rows, saved[..|saved| - 1]), saved[|saved| - 1].id, saved[|saved| - 1])
  }

  lemma {:induction false} RestoreKeeps(rows: map<Id, Row>, saved: seq<Row>)
    ensures forall id :: id in rows ==> id in RestoreInto(rows, saved) && RestoreInto(rows, saved)[id] == rows[id]
    ensures forall r :: r in saved ==> r.id in RestoreInto(rows, saved)
    ensures forall id :: id in RestoreInto(rows, saved) && id !in rows ==> RestoreInto(rows, saved)[id] in saved
    ensures Keyed(rows) ==> Keyed(RestoreInto(rows, saved))
  {
    if saved != [] {
      var init, r := saved[..|saved| - 1], saved[|saved| - 1];
      RestoreKeeps(rows, init);
      assert saved == init + [r];
      forall x | x in saved ensures x.id in RestoreInto(rows, saved) {
        assert x in init || x == r;
      }
    }
  }

  /** Restoring right after the delete puts every row back exactly as it was. */
  lemma RestoreUndoesDelete(rows: map<Id, Row>, u: Id)
    requires Matching(rows)
    ensures RestoreInto(WithoutUser(rows, u), SelectForUser(rows, u)) == rows
  {
    var saved, left := SelectForUser(rows, u), WithoutUser(rows, u);
    RestoreKeeps(left, saved);
    SnapshotMembers(rows, u);
    forall id | id in left ensures left[id] == rows[id] {
      assert LinkOk(rows, id);
    }
    var back := RestoreInto(left, saved);
    forall id | id in rows ensures id in back && back[id] == rows[id] {
      if id in IdsOfUser(rows, u) {
        assert rows[id] in saved;
        assert back[id] in saved;
      }
    }
    forall id | id in back ensures id in rows {
      if id !in left { assert back[id] in saved; }
    }
  }

  /** What to check before a restore, from the backup and the ids then stored: no linked row of the backup came
      back without its partner. */
  ghost predicate PairsCameBackWhole(before: map<Id, Row>, u: Id, stored: set<Id>) {
    forall id :: id in before && before[id].userId == u && before[id].relatedTransactionId.Some? && id in stored ==>
      before[id].relatedTransactionId.value in stored
  }

  /** A restored table is what was left, and beside it the rows of the backup that were missing. */
  lemma RestoredRow(before: map<Id, Row>, left: map<Id, Row>, u: Id, id: Id)
    requires Keyed(before)
    ensures var back := RestoreInto(left, SelectForUser(before, u));
            && (id in left ==> id in back && back[id] == left[id])
            && (id !in left ==> (id in back <==> id in before && before[id].userId == u))
            && (id !in left && id in back ==> back[id] == before[id])
  {
    RestoreKeeps(left, SelectForUser(before, u));
    SnapshotMembers(before, u);
    if id in before && before[id].userId == u { assert before[id] in SelectForUser(before, u); }
    var back := RestoreInto(left, SelectForUser(before, u));
    if id !in left && id in back {
      assert back[id] in SelectForUser(before, u);
      assert back[id].id == id by { RestoredIds(left, SelectForUser(before, u), id); }
    }
  }

  lemma {:induction false} RestoredIds(rows: map<Id, Row>, saved: seq<Row>, id: Id)
    requires id in RestoreInto(rows, saved) && id !in rows
    ensures RestoreInto(rows, saved)[id].id == id
  {
    var init, r := saved[..|saved| - 1], saved[|saved| - 1];
    if id in RestoreInto(rows, init) { RestoredIds(rows, init, id); }
  }

  lemma WholePairsRestore(before: map<Id, Row>, left: map<Id, Row>, u: Id)
    requires Matching(before) && Matching(left) && PairsCameBackWhole(before, u, left.Keys)
    ensures Matching(RestoreInto(left, SelectForUser(before, u)))
  {
    var back := RestoreInto(left, SelectForUser(before, u));
    RestoreKeeps(left, SelectForUser(before, u));
    forall id | id in back ensures LinkOk(back, id) {
      RestoredRow(before, left, u, id);
      if id in left {
        assert LinkOk(left, id);
        if left[id].relatedTransactionId.Some? { RestoredRow(before, left, u, left[id].relatedTransactionId.value); }
      } else {
        assert LinkOk(before, id);
        if before[id].relatedTransactionId.Some? {
          var p := before[id].relatedTransactionId.value;
          assert LinkOk(before, p);
          RestoredRow(before, left, u, p);
        }
      }
    }
  }

  lemma BrokenPairStaysBroken(before: map<Id, Row>, left: map<Id, Row>, u: Id, id: Id)
    requires Matching(before) && Matching(left) && id in before && id in left && before[id].userId == u
    requires before[id].relatedTransactionId.Some? && before[id].relatedTransactionId.value !in left
    ensures var back, p := RestoreInto(left, SelectForUser(before, u)), before[id].relatedTransactionId.value;
            && p in back && id in back && back[p].relatedTransactionId == Some(id)
                && back[id].relatedTransactionId != Some(p)
            && !LinkOk(back, p)
  {
    var p := before[id].relatedTransactionId.value;
    assert LinkOk(before, id) && LinkOk(left, id);
    RestoredRow(before, left, u, p);
    RestoredRow(before, left, u, id);
  }

  /** A restore leaves the links a matching exactly when no linked row came back without its partner. Otherwise
      the partner is restored with a link that nobody returns. */
  lemma RestoreKeepsMatchingIff(before: map<Id, Row>, left: map<Id, Row>, u: Id)
    requires Matching(before) && Matching(left)
    ensures Matching(RestoreInto(left, SelectForUser(before, u))) <==> PairsCameBackWhole(before, u, left.Keys)
  {
    if PairsCameBackWhole(before, u, left.Keys) {
      WholePairsRestore(before, left, u);
    } else {
      var id :| id in before && before[id].userId == u && before[id].relatedTransactionId.Some? && id in left.Keys
                && before[id].relatedTransactionId.value !in left.Keys;
      BrokenPairStaysBroken(before, left, u, id);
    }
  }

  /** The anomalies stay in order in any case. */
  lemma RestoreKeepsAnomaliesOk(before: map<Id, Row>, left: Db, u: Id)
    requires Keyed(before) && AnomaliesOk(left)
    ensures AnomaliesOk(Db(RestoreInto(left.rows, SelectForUser(before, u)), left.anomalies))
  {
    RestoreKeeps(left.rows, SelectForUser(before, u));
  }

  /** The tables after a failed run that consumed this much. */
  ghost function AfterRestore(env: Env, before: Db, u: Id, consumed: seq<Event>): Db {
    var left := Consume(env, DeleteUser(before, u), consumed);
    Db(RestoreInto(left.rows, SelectForUser(before.rows, u)), left.anomalies)
  }

  /** The outcome of a failed run: coherent exactly when the consumer had brought back no half of a pair. */
  lemma FailedRunIsCoherentIff(env: Env, before: Db, u: Id, consumed: seq<Event>)
    requires Coherent(before)
    ensures Coherent(AfterRestore(env, before, u, consumed)) <==>
            PairsCameBackWhole(before.rows, u, Consume(env, DeleteUser(before, u), consumed).rows.Keys)
  {
    var left := Consume(env, DeleteUser(before, u), consumed);
    DeleteKeepsCoherence(before, u);
    RunsStayCoherent(env, DeleteUser(before, u), consumed);
    RestoreKeepsMatchingIff(before.rows, left.rows, u);
    RestoreKeepsAnomaliesOk(before.rows, left, u);
  }

  /** The snapshot holds exactly the user's rows. */
  lemma SnapshotMembers(rows: map<Id, Row>, u: Id)
    requires Keyed(rows)
    ensures forall r: Row :: r in SelectForUser(rows, u) <==> r.id in rows && r.userId == u && rows[r.id] == r
  {
    var order := Ordered(TimesOf(rows, u));
    OrderedIsSorted(TimesOf(rows, u));
    forall r: Row | r.id in rows && r.userId == u && rows[r.id] == r ensures r in SelectForUser(rows, u) {
      assert r.id in TimesOf(rows, u);
      var i :| 0 <= i < |order| && order[i] == r.id;
      assert SelectForUser(rows, u)[i] == r;
    }
    forall r | r in SelectForUser(rows, u) ensures r.id in rows && r.userId == u && rows[r.id] == r {
      var i :| 0 <= i < |order| && SelectForUser(rows, u)[i] == r;
      assert order[i] in TimesOf(rows, u);
    }
  }

  lemma {:induction false} ConsumeAppend(env: Env, db: Db, a: seq<Event>, b: seq<Event>)
    ensures Consume(env, Consume(env, db, a), b) == Consume(env, db, a + b)
  {
    if b == [] {
      assert a + b == a;
    } else {
      ConsumeAppend(env, db, a, b[..|b| - 1]);
      assert (a + b)[..|a + b| - 1] == a + b[..|b| - 1];
    }
  }

  lemma {:induction false} ConsumeNeverDeletes(env: Env, db: Db, events: seq<Event>)
    ensures db.rows.Keys <= Consume(env, db, events).rows.Keys
  {
    if events != [] { ConsumeNeverDeletes(env, db, events[..|events| - 1]); }
  }

  // ---------------------------------------------------------------- the actors

  // ---------------------------------------------------------------- when a run completes

  /** Everything the consumer takes during the first k batches; past the last batch it takes nothing. */
  function Taken(batches: seq<seq<Event>>, k: nat): seq<Event> {
    if k == 0 then [] else Taken(batches, k - 1) + (if k - 1 < |batches| then batches[k - 1] else [])
  }

  /** The user's rows stored after the first k batches. */
  ghost function StoredAt(env: Env, db: Db, u: Id, batches: seq<seq<Event>>, k: nat): set<Id> {
    IdsOfUser(Consume(env, db, Taken(batches, k)).rows, u)
  }

  /** The wait returns at poll p: no poll for nothing, and otherwise the first of 150 that counts enough rows. */
  ghost predicate CatchesUpAt(env: Env, db: Db, u: Id, expected: nat, batches: seq<seq<Event>>, p: nat) {
    if expected == 0 then p == 0
    else
      && 1 <= p <= MAX_POLLS && |StoredAt(env, db, u, batches, p)| >= expected
      && forall q :: 1 <= q < p ==> |StoredAt(env, db, u, batches, q)| < expected
  }

  ghost predicate NeverCatchesUp(env: Env, db: Db, u: Id, expected: nat, batches: seq<seq<Event>>) {
    expected > 0 && forall q :: 1 <= q <= MAX_POLLS ==> |StoredAt(env, db, u, batches, q)| < expected
  }

  predicate PublishFails(events: nat, failsAt: Option<nat>) {
    failsAt.Some? && failsAt.value < events
  }

  /** A run completes when every event was published and the rows found at the verification, one batch after the
      count was reached, include the whole snapshot. */
  ghost predicate Completes(env: Env, before: Db, u: Id, batches: seq<seq<Event>>, failsAt: Option<nat>) {
    && !PublishFails(|IdsOfUser(before.rows, u)|, failsAt)
    && exists p: nat :: CompletesAt(env, before, u, batches, p)
  }

  ghost predicate CompletesAt(env: Env, before: Db, u: Id, batches: seq<seq<Event>>, p: nat) {
    var mine, db := IdsOfUser(before.rows, u), DeleteUser(before, u);
    CatchesUpAt(env, db, u, |mine|, batches, p) && mine <= StoredAt(env, db, u, batches, p + 1)
  }

  /** As long as nothing but the snapshot's own rows comes in, a run completes exactly when every one of them is
      back by some poll. */
  lemma CompletesIffAllBack(env: Env, before: Db, u: Id, batches: seq<seq<Event>>, failsAt: Option<nat>)
    requires forall k :: StoredAt(env, DeleteUser(before, u), u, batches, k) <= IdsOfUser(before.rows, u)
    ensures Completes(env, before, u, batches, failsAt) <==>
            && !PublishFails(|IdsOfUser(before.rows, u)|, failsAt)
            && exists k: nat :: k <= MAX_POLLS
                 && StoredAt(env, DeleteUser(before, u), u, batches, k) == IdsOfUser(before.rows, u)
  {
    var mine, db := IdsOfUser(before.rows, u), DeleteUser(before, u);
    if Completes(env, before, u, batches, failsAt) {
      var p: nat :| CompletesAt(env, before, u, batches, p);
      SubsetOfSameSize(StoredAt(env, db, u, batches, p), mine);
      assert StoredAt(env, db, u, batches, p) == mine;
    }
    if !PublishFails(|mine|, failsAt) {
      if k: nat :| k <= MAX_POLLS && StoredAt(env, db, u, batches, k) == mine {
        StoredAtFirst(env, before, u, batches);
        var p := FirstCatchUp(env, db, u, |mine|, batches, k);
        SubsetOfSameSize(StoredAt(env, db, u, batches, p), mine);
        StoredStays(env, db, u, batches, p);
        assert CompletesAt(env, before, u, batches, p);
      }
    }
  }

  /** A row that is back by a poll at which the count had not been reached before: the wait ends by then. */
  lemma {:induction false} FirstCatchUp(env: Env, db: Db, u: Id, expected: nat, batches: seq<seq<Event>>, k: nat)
    returns (p: nat)
    requires k <= MAX_POLLS && |StoredAt(env, db, u, batches, k)| >= expected && (k == 0 ==> expected == 0)
    ensures p <= k && CatchesUpAt(env, db, u, expected, batches, p)
  {
    if expected == 0 {
      p := 0;
    } else if q :| 1 <= q < k && |StoredAt(env, db, u, batches, q)| >= expected {
      p := FirstCatchUp(env, db, u, expected, batches, q);
    } else {
      p := k;
    }
  }

  lemma SubsetOfSameSize(a: set<Id>, b: set<Id>)
    requires a <= b
    ensures |a| <= |b| && (|a| == |b| ==> a == b)
  {
    assert b == a + (b - a);
  }

  /** Nothing is stored right after the delete. */
  lemma StoredAtFirst(env: Env, before: Db, u: Id, batches: seq<seq<Event>>)
    ensures StoredAt(env, DeleteUser(before, u), u, batches, 0) == {}
  {
  }

  /** The consumer stores rows and deletes none. */
  lemma StoredStays(env: Env, db: Db, u: Id, batches: seq<seq<Event>>, k: nat)
    ensures StoredAt(env, db, u, batches, k) <= StoredAt(env, db, u, batches, k + 1)
  {
    var more := if k < |batches| then batches[k] else [];
    ConsumeAppend(env, db, Taken(batches, k), more);
    UserRowsStay(env, Consume(env, db, Taken(batches, k)), more, u);
  }

  lemma {:induction false} UserRowsStay(env: Env, db: Db, events: seq<Event>, u: Id)
    ensures IdsOfUser(db.rows, u) <= IdsOfUser(Consume(env, db, events).rows, u)
  {
    if events != [] { UserRowsStay(env, db, events[..|events| - 1], u); }
  }

  /** One event for each row of the user. */
  lemma ReplayCount(rows: map<Id, Row>, u: Id)
    requires Keyed(rows)
    ensures |EventsOf(SelectForUser(rows, u))| == |IdsOfUser(rows, u)|
  {
    OrderedIsSorted(TimesOf(rows, u));
    var order := Ordered(TimesOf(rows, u));
    forall i, j | 0 <= i < j < |order| ensures order[i] != order[j] {
      assert Before(TimesOf(rows, u), order[i], order[j]);
    }
    DistinctSize(order);
    assert SetOf(order) == IdsOfUser(rows, u);
  }

  class Pipeline {
    const store: EnrichmentStore
    var locks: set<Id>
    var advisory: set<Id>
    var backups: seq<Backup>
    var staging: seq<StagedRow>
    var nextStaged: Id
    var topic: seq<Event>
    var notified: seq<Id>

    ghost predicate Valid()
      reads this, store
    {
      && Keyed(store.rows)
      && InStagingOrder(staging)
      && forall s :: s in staging ==> s.id < nextStaged
    }

    constructor (tables: EnrichmentStore)
      requires Keyed(tables.rows)
      ensures Valid() && store == tables
    {
      store := tables;
      locks, advisory, backups, staging, nextStaged, topic, notified := {}, {}, [], [], 0, [], [];
    }

    /** `_route`: stage while the user's lock row is there, publish otherwise. Either way the event is kept. */
    method Route(e: Event)
      requires Valid()
      modifies this`staging, this`nextStaged, this`topic
      ensures Valid()
      ensures if e.userId in locks
              then staging == old(staging) + [StagedRow(old(nextStaged), e.userId, e)] && topic == old(topic)
              else topic == old(topic) + [e] && staging == old(staging)
    {
      if e.userId in locks {
        staging := staging + [StagedRow(nextStaged, e.userId, e)];
        nextStaged := nextStaged + 1;
      } else {
        topic := topic + [e];
      }
    }

    /** `drain_for_user`: publish, then delete, row by row. The drain may stop at row `stopAt`: either its publish
        fails, or the process dies after publishing and before deleting. Whatever happens, the user's staged
        events are split between the published ones and those still staged, in order. */
    method DrainForUser(u: Id, stopAt: nat, diesAfterPublish: bool) returns (drained: nat)
      requires Valid()
      modifies this`staging, this`topic
      ensures Valid()
      ensures var mine := StagedFor(old(staging), u);
              && drained == (if stopAt < |mine| then stopAt else |mine|)
              && Drained(old(staging), staging, u, drained)
              && topic == old(topic) + Payloads(mine[..drained])
                          + (if stopAt < |mine| && diesAfterPublish then [mine[stopAt].payload] else [])
    {
      var rows := StagedFor(staging, u);
      drained := 0;
      while drained < |rows|
        invariant 0 <= drained <= |rows| && drained <= stopAt
        invariant Drained(old(staging), staging, u, drained)
        invariant topic == old(topic) + Payloads(rows[..drained])
      {
        if drained == stopAt {
          if diesAfterPublish {
            topic := topic + [rows[drained].payload];
          }
          return;
        }
        topic := topic + [rows[drained].payload];
        PayloadsNext(rows, drained);
        DrainStep(old(staging), staging, u, drained);
        staging := WithoutStaged(staging, rows[drained].id);
        drained := drained + 1;
      }
    }

    /** INSERT INTO reprocessing_backups; returns the ids saved. */
    method SnapshotTransactions(u: Id) returns (ids: set<Id>)
      requires Valid()
      modifies this`backups
      ensures backups == old(backups) + [Backup(u, SelectForUser(store.rows, u))]
      ensures ids == IdsOfUser(store.rows, u)
    {
      var rows := SelectForUser(store.rows, u);
      backups := backups + [Backup(u, rows)];
      SnapshotMembers(store.rows, u);
      ids := set r | r in rows :: r.id;
      assert forall id :: id in IdsOfUser(store.rows, u) ==> store.rows[id] in rows;
    }

    method DeleteUserTransactions(u: Id)
      requires Valid()
      modifies store
      ensures Valid() && store.View() == DeleteUser(old(store.View()), u)
    {
      var gone := IdsOfUser(store.rows, u);
      store.anomalies := map id | id in store.anomalies && id !in gone :: store.anomalies[id];
      store.rows := WithoutUser(store.rows, u);
    }

    /** Publishes the replay events in order; an undeliverable one raises after those before it are out. */
    method PublishNormalizedEvents(events: seq<Event>, failsAt: Option<nat>) returns (ok: bool)
      modifies this`topic
      ensures ok <==> failsAt.None? || failsAt.value >= |events|
      ensures topic == old(topic) + (if ok then events else events[..failsAt.value])
    {
      for i := 0 to |events|
        invariant failsAt.Some? ==> i <= failsAt.value
        invariant topic == old(topic) + events[..i]
      {
        if failsAt == Some(i) {
          return false;
        }
        assert events[..i + 1] == events[..i] + [events[i]];
        topic := topic + [events[i]];
      }
      assert events[..|events|] == events;
      return true;
    }

    /** Meanwhile the enrichment consumer works through a batch of messages, whichever they are. */
    method Elapse(env: Env, batches: seq<seq<Event>>, k: nat) returns (ghost consumed: seq<Event>)
      requires Valid()
      modifies store
      ensures Valid() && store.View() == Consume(env, old(store.View()), consumed)
      ensures consumed == if k < |batches| then batches[k] else []
    {
      consumed := [];
      if k < |batches| {
        var batch := batches[k];
        for i := 0 to |batch|
          invariant Valid() && store.View() == Consume(env, old(store.View()), batch[..i])
        {
          assert batch[..i + 1][..i] == batch[..i];
          store.Run(env, batch[i]);
        }
        assert batch[..|batch|] == batch;
        consumed := batch;
      }
    }

    /** Polls until the user's row count reaches the number published, at most 150 times. */
    method WaitForPipelineCatchup(env: Env, u: Id, expected: nat, batches: seq<seq<Event>>)
      returns (ok: bool, polls: nat)
      requires Valid()
      modifies store
      ensures Valid() && store.View() == Consume(env, old(store.View()), Taken(batches, polls))
      ensures ok ==> CatchesUpAt(env, old(store.View()), u, expected, batches, polls)
      ensures !ok ==> polls == MAX_POLLS && NeverCatchesUp(env, old(store.View()), u, expected, batches)
    {
      polls := 0;
      if expected == 0 {
        return true, 0;
      }
      var elapsed := 0.0;
      while elapsed < CATCHUP_TIMEOUT_S
        invariant elapsed == polls as real * CATCHUP_POLL_INTERVAL_S && polls <= MAX_POLLS
        invariant Valid() && store.View() == Consume(env, old(store.View()), Taken(batches, polls))
        invariant forall q :: 1 <= q <= polls ==> |StoredAt(env, old(store.View()), u, batches, q)| < expected
        decreases MAX_POLLS - polls
      {
        ghost var more := Elapse(env, batches, polls);
        ConsumeAppend(env, old(store.View()), Taken(batches, polls), more);
        var actual := |IdsOfUser(store.rows, u)|;
        polls := polls + 1;
        if actual >= expected {
          return true, polls;
        }
        elapsed := elapsed + CATCHUP_POLL_INTERVAL_S;
      }
      ok := false;
    }

    /** The latest backup of a user. */
    function LatestBackup(u: Id, n: nat): Option<seq<Row>>
      requires n <= |backups|
      reads this`backups
    {
      if n == 0 then None
      else if backups[n - 1].userId == u then Some(backups[n - 1].data)
      else LatestBackup(u, n - 1)
    }

    /** Re-inserts the latest backup; without one it raises. */
    method RestoreFromBackup(u: Id) returns (ok: bool)
      requires Valid()
      modifies store
      ensures Valid() && store.anomalies == old(store.anomalies)
      ensures match LatestBackup(u, |backups|)
              case None => !ok && store.rows == old(store.rows)
              case Some(saved) => ok && store.rows == RestoreInto(old(store.rows), saved)
    {
      var latest := LatestBackup(u, |backups|);
      if latest.None? {
        return false;
      }
      var saved := latest.value;
      for i := 0 to |saved|
        invariant Valid() && store.anomalies == old(store.anomalies)
        invariant store.rows == RestoreInto(old(store.rows), saved[..i])
      {
        assert saved[..i + 1][..i] == saved[..i];
        store.rows := InsertNew(store.rows, saved[i].id, saved[i]);
      }
      assert saved[..|saved|] == saved;
      return true;
    }

    /** One transaction: drop the lock row, release the advisory lock, notify. */
    method ReleaseLockAtomic(u: Id)
      modifies this`locks, this`advisory, this`notified
      ensures locks == old(locks) - {u} && advisory == old(advisory) - {u} && notified == old(notified) + [u]
    {
      locks := locks - {u};
      advisory := advisory - {u};
      notified := notified + [u];
    }

    /** `reprocess_user`, run without crashing while the pipeline consumes `batches` in the background (anything at
        all, not only the replayed events) and the publish may fail at one event. The run ends within 150
        polls; unless the lock row was missing it releases the lock, notifies, and leaves every id of the
        snapshot stored. `Completes` says when it completes and when it fails: extra rows that let the count arrive
        early cannot fake success. If the user's messages among those consumed are the replay, with repeats and other
        users' messages anywhere in between, the user's rows and anomalies are those of the reprocess. */
    method ReprocessUser(env: Env, u: Id, batches: seq<seq<Event>>, publishFailsAt: Option<nat>)
      returns (outcome: Outcome, polls: nat, ghost consumed: seq<Event>)
      requires Valid()
      modifies this, store
      ensures Valid() && staging == old(staging) && nextStaged == old(nextStaged)
      ensures polls <= MAX_POLLS
      ensures u !in old(locks) ==> (
                && outcome == Skipped && polls == 0 && consumed == [] && store.View() == old(store.View())
                && locks == old(locks) && advisory == old(advisory) && backups == old(backups)
                && topic == old(topic) && notified == old(notified))
      ensures u in old(locks) ==> (
                && outcome != Skipped && locks == old(locks) - {u} && u !in advisory
                && notified == old(notified) + [u]
                && backups == old(backups) + [Backup(u, SelectForUser(old(store.rows), u))]
                && IdsOfUser(old(store.rows), u) <= store.rows.Keys
                && topic == old(topic) + PublishedPart(EventsOf(SelectForUser(old(store.rows), u)), publishFailsAt))
      ensures u in old(locks) ==>
                RunEnds(env, old(store.View()), u, batches, publishFailsAt, outcome, polls, consumed, store.View())
      ensures outcome == Completed ==> GivesReprocess(env, old(store.View()), u, consumed, store.View())
      ensures outcome == Failed ==> CoherentIffWhole(env, old(store.View()), u, consumed, store.View())
    {
      polls, consumed := 0, [];
      if u !in locks {
        return Skipped, 0, [];
      }
      advisory := advisory + {u};
      outcome, polls, consumed := RunLocked(env, u, batches, publishFailsAt);
      RunConsequences(env, old(store.View()), u, batches, publishFailsAt, outcome, polls, consumed, store.View());
      ReleaseLockAtomic(u);
    }

    /** Backup, read, delete. */
    method BackupAndDelete(u: Id) returns (snapshotIds: set<Id>, events: seq<Event>)
      requires Valid()
      modifies this`backups, store
      ensures Valid() && store.View() == DeleteUser(old(store.View()), u)
      ensures backups == old(backups) + [Backup(u, SelectForUser(old(store.rows), u))]
      ensures snapshotIds == IdsOfUser(old(store.rows), u) && |events| == |snapshotIds|
      ensures events == EventsOf(SelectForUser(old(store.rows), u))
    {
      snapshotIds := SnapshotTransactions(u);
      var rows := SelectForUser(store.rows, u);
      events := EventsOf(rows);
      ReplayCount(store.rows, u);
      DeleteUserTransactions(u);
    }

    /** From the backup to the outcome, under the user's advisory lock. */
    method RunLocked(env: Env, u: Id, batches: seq<seq<Event>>, publishFailsAt: Option<nat>)
      returns (outcome: Outcome, polls: nat, ghost consumed: seq<Event>)
      requires Valid() && u in advisory
      modifies this`backups, this`topic, store
      ensures Valid() && polls <= MAX_POLLS && outcome != Skipped
      ensures backups == old(backups) + [Backup(u, SelectForUser(old(store.rows), u))]
      ensures topic == old(topic) + PublishedPart(EventsOf(SelectForUser(old(store.rows), u)), publishFailsAt)
      ensures RunEnds(env, old(store.View()), u, batches, publishFailsAt, outcome, polls, consumed, store.View())
    {
      var snapshotIds, events := BackupAndDelete(u);
      var ok, k;
      ok, polls, k := ReplayAndVerify(env, u, snapshotIds, events, batches, publishFailsAt);
      if !ok {
        Recover(env, u, batches, k, old(store.View()));
      }
      outcome, consumed := if ok then Completed else Failed, Taken(batches, if ok then k else k + 1);
      EndsAsDecided(env, old(store.View()), u, batches, publishFailsAt, ok, polls, k, store.View());
    }

    /** The recovery: the latest backup, which is this run's own, goes back over whatever is there by then. */
    method Recover(env: Env, u: Id, batches: seq<seq<Event>>, k: nat, ghost before: Db)
      requires Valid() && Keyed(before.rows)
      requires backups != [] && backups[|backups| - 1] == Backup(u, SelectForUser(before.rows, u))
      requires store.View() == Consume(env, DeleteUser(before, u), Taken(batches, k))
      modifies store
      ensures Valid() && store.View() == AfterRestore(env, before, u, Taken(batches, k + 1))
      ensures IdsOfUser(before.rows, u) <= store.rows.Keys
    {
      ghost var late := Elapse(env, batches, k);
      ConsumeAppend(env, DeleteUser(before, u), Taken(batches, k), late);
      RestoredIdsPresent(before.rows, u, store.rows);
      var restored := RestoreFromBackup(u);
      assert restored;
    }

    /** Are all the snapshot's ids back? */
    method VerifySnapshot(u: Id, snapshotIds: set<Id>) returns (ok: bool)
      requires Valid()
      ensures ok <==> snapshotIds <= IdsOfUser(store.rows, u)
    {
      var missing := set id | id in snapshotIds && id !in IdsOfUser(store.rows, u);
      ok := missing == {};
      assert forall id :: id in snapshotIds ==> (id in missing <==> id !in IdsOfUser(store.rows, u));
    }

    /** The post-DELETE zone: publish, wait, verify. False stands for any exception raised in it, decided when the
        consumer had taken k batches. */
    method ReplayAndVerify(env: Env, u: Id, snapshotIds: set<Id>, events: seq<Event>, batches: seq<seq<Event>>,
                           failsAt: Option<nat>)
      returns (ok: bool, polls: nat, k: nat)
      requires Valid()
      modifies this`topic, store
      ensures Valid() && store.View() == Consume(env, old(store.View()), Taken(batches, k))
      ensures polls <= MAX_POLLS && k <= MAX_POLLS + 1
      ensures topic == old(topic) + PublishedPart(events, failsAt)
      ensures Decided(env, old(store.View()), u, snapshotIds, |events|, batches, failsAt, ok, polls, k)
    {
      polls, k := 0, 0;
      ok := PublishNormalizedEvents(events, failsAt);
      if ok {
        ok, polls, k := WaitAndVerify(env, u, snapshotIds, |events|, batches);
      }
    }

    method WaitAndVerify(env: Env, u: Id, snapshotIds: set<Id>, expected: nat, batches: seq<seq<Event>>)
      returns (ok: bool, polls: nat, k: nat)
      requires Valid()
      modifies store
      ensures Valid() && store.View() == Consume(env, old(store.View()), Taken(batches, k))
      ensures polls <= MAX_POLLS && k <= MAX_POLLS + 1
      ensures Decided(env, old(store.View()), u, snapshotIds, expected, batches, None, ok, polls, k)
    {
      ok, polls := WaitForPipelineCatchup(env, u, expected, batches);
      k := polls;
      if ok {
        CatchUpIsUnique(env, old(store.View()), u, expected, batches, polls, polls);
        ghost var more := Elapse(env, batches, polls);
        ConsumeAppend(env, old(store.View()), Taken(batches, polls), more);
        k := polls + 1;
        ok := VerifySnapshot(u, snapshotIds);
      }
    }
  }

  /** How the zone ends: at a publish that fails, at a timeout, or at the verification. */
  ghost predicate Decided(env: Env, db: Db, u: Id, snapshotIds: set<Id>, expected: nat, batches: seq<seq<Event>>,
                          failsAt: Option<nat>, ok: bool, polls: nat, k: nat)
  {
    if PublishFails(expected, failsAt) then !ok && polls == k == 0
    else if NeverCatchesUp(env, db, u, expected, batches) then !ok && polls == k == MAX_POLLS
    else
      && CatchesUpAt(env, db, u, expected, batches, polls) && k == polls + 1
      && (ok <==> snapshotIds <= StoredAt(env, db, u, batches, k))
  }

  lemma CatchUpIsUnique(env: Env, db: Db, u: Id, expected: nat, batches: seq<seq<Event>>, p: nat, q: nat)
    requires CatchesUpAt(env, db, u, expected, batches, p) && CatchesUpAt(env, db, u, expected, batches, q)
    ensures p == q && !NeverCatchesUp(env, db, u, expected, batches)
  {
  }

  /** The zone of this run: its own snapshot, counted and verified. */
  ghost predicate RunDecided(env: Env, before: Db, u: Id, batches: seq<seq<Event>>, failsAt: Option<nat>,
                             ok: bool, polls: nat, k: nat)
  {
    var mine := IdsOfUser(before.rows, u);
    Decided(env, DeleteUser(before, u), u, mine, |mine|, batches, failsAt, ok, polls, k)
  }

  lemma SuccessCompletes(env: Env, before: Db, u: Id, batches: seq<seq<Event>>, failsAt: Option<nat>,
                         polls: nat, k: nat)
    requires RunDecided(env, before, u, batches, failsAt, true, polls, k)
    ensures Completes(env, before, u, batches, failsAt)
  {
    assert CompletesAt(env, before, u, batches, polls);
  }

  lemma CompletesSucceeds(env: Env, before: Db, u: Id, batches: seq<seq<Event>>, failsAt: Option<nat>, ok: bool,
                          polls: nat, k: nat, p: nat)
    requires RunDecided(env, before, u, batches, failsAt, ok, polls, k)
    requires !PublishFails(|IdsOfUser(before.rows, u)|, failsAt) && CompletesAt(env, before, u, batches, p)
    ensures ok
  {
    CompletesWhere(env, before, u, batches, p, polls);
  }

  lemma CompletionIsDecided(env: Env, before: Db, u: Id, batches: seq<seq<Event>>, failsAt: Option<nat>,
                            ok: bool, polls: nat, k: nat)
    requires RunDecided(env, before, u, batches, failsAt, ok, polls, k)
    ensures ok <==> Completes(env, before, u, batches, failsAt)
  {
    if ok {
      SuccessCompletes(env, before, u, batches, failsAt, polls, k);
    } else if Completes(env, before, u, batches, failsAt) {
      var p: nat :| CompletesAt(env, before, u, batches, p);
      CompletesSucceeds(env, before, u, batches, failsAt, ok, polls, k, p);
    }
  }

  lemma CompletesWhere(env: Env, before: Db, u: Id, batches: seq<seq<Event>>, p: nat, polls: nat)
    requires CompletesAt(env, before, u, batches, p)
    ensures !NeverCatchesUp(env, DeleteUser(before, u), u, |IdsOfUser(before.rows, u)|, batches)
    ensures CatchesUpAt(env, DeleteUser(before, u), u, |IdsOfUser(before.rows, u)|, batches, polls) ==> p == polls
  {
    var mine, db := IdsOfUser(before.rows, u), DeleteUser(before, u);
    CatchUpIsUnique(env, db, u, |mine|, batches, p, p);
    if CatchesUpAt(env, db, u, |mine|, batches, polls) { CatchUpIsUnique(env, db, u, |mine|, batches, p, polls); }
  }

  /** How a run ends that found its lock row, and on what tables. */
  ghost predicate RunEnds(env: Env, before: Db, u: Id, batches: seq<seq<Event>>, failsAt: Option<nat>,
                          outcome: Outcome, polls: nat, consumed: seq<Event>, after: Db)
  {
    && (outcome == Completed <==> Completes(env, before, u, batches, failsAt))
    && (outcome == Completed ==>
          && consumed == Taken(batches, polls + 1)
          && after == Consume(env, DeleteUser(before, u), consumed)
          && IdsOfUser(before.rows, u) <= IdsOfUser(after.rows, u))
    && (outcome == Failed ==>
          && (exists k: nat :: k <= MAX_POLLS + 2 && consumed == Taken(batches, k))
          && after == AfterRestore(env, before, u, consumed))
    && IdsOfUser(before.rows, u) <= after.rows.Keys
  }

  lemma EndsAsDecided(env: Env, before: Db, u: Id, batches: seq<seq<Event>>, failsAt: Option<nat>, ok: bool,
                      polls: nat, k: nat, after: Db)
    requires Keyed(before.rows) && k <= MAX_POLLS + 1
    requires RunDecided(env, before, u, batches, failsAt, ok, polls, k)
    requires after == if ok then Consume(env, DeleteUser(before, u), Taken(batches, k))
                      else AfterRestore(env, before, u, Taken(batches, k + 1))
    ensures RunEnds(env, before, u, batches, failsAt, if ok then Completed else Failed, polls,
                    Taken(batches, if ok then k else k + 1), after)
  {
    CompletionIsDecided(env, before, u, batches, failsAt, ok, polls, k);
    if !ok {
      RestoredIdsPresent(before.rows, u, Consume(env, DeleteUser(before, u), Taken(batches, k + 1)).rows);
    }
  }

  /** The reprocess is the outcome if the consumer took the replay, among whatever else. */
  ghost predicate GivesReprocess(env: Env, before: Db, u: Id, consumed: seq<Event>, after: Db) {
    && (consumed == EventsOf(SelectForUser(before.rows, u)) ==> after == Reprocess(env, before, u))
    && (TookReplay(env, before.rows, u, consumed) ==> SameForUser(after, Reprocess(env, before, u), u))
  }

  /** A failed run leaves tables in order exactly when no half of a pair had come back. */
  ghost predicate CoherentIffWhole(env: Env, before: Db, u: Id, consumed: seq<Event>, after: Db) {
    Coherent(before) ==>
      (Coherent(after) <==> PairsCameBackWhole(before.rows, u, Consume(env, DeleteUser(before, u), consumed).rows.Keys))
  }

  lemma RunConsequences(env: Env, before: Db, u: Id, batches: seq<seq<Event>>, failsAt: Option<nat>, outcome: Outcome,
                        polls: nat, consumed: seq<Event>, after: Db)
    requires Keyed(before.rows) && RunEnds(env, before, u, batches, failsAt, outcome, polls, consumed, after)
    ensures outcome == Completed ==> GivesReprocess(env, before, u, consumed, after)
    ensures outcome == Failed ==> CoherentIffWhole(env, before, u, consumed, after)
  {
    ReplayedShares(env, before, u, consumed);
    FailedRunCoherence(env, before, u, consumed);
  }

  lemma FailedRunCoherence(env: Env, before: Db, u: Id, consumed: seq<Event>)
    ensures Coherent(before) ==>
              (Coherent(AfterRestore(env, before, u, consumed)) <==>
               PairsCameBackWhole(before.rows, u, Consume(env, DeleteUser(before, u), consumed).rows.Keys))
  {
    if Coherent(before) { FailedRunIsCoherentIff(env, before, u, consumed); }
  }

  lemma ReplayedShares(env: Env, before: Db, u: Id, consumed: seq<Event>)
    requires Keyed(before.rows)
    ensures TookReplay(env, before.rows, u, consumed) ==>
              SameForUser(Consume(env, DeleteUser(before, u), consumed), Reprocess(env, before, u), u)
  {
    if TookReplay(env, before.rows, u, consumed) { SharedReplayIsReprocess(env, before, u, consumed); }
  }

  lemma RestoredIdsPresent(before: map<Id, Row>, u: Id, left: map<Id, Row>)
    requires Keyed(before)
    ensures IdsOfUser(before, u) <= RestoreInto(left, SelectForUser(before, u)).Keys
  {
    SnapshotMembers(before, u);
    RestoreKeeps(left, SelectForUser(before, u));
    assert forall id :: id in IdsOfUser(before, u) ==> before[id] in SelectForUser(before, u);
  }

  /** What reaches the topic when the publish fails at one event. */
  function PublishedPart(events: seq<Event>, failsAt: Option<nat>): seq<Event> {
    if failsAt.Some? && failsAt.value < |events| then events[..failsAt.value] else events
  }

  /** A run that fails before anything was consumed leaves the rows exactly as it found them. */
  lemma FailedRunRollsBack(env: Env, before: Db, u: Id)
    requires Coherent(before)
    ensures AfterRestore(env, before, u, []).rows == before.rows
  {
    RestoreUndoesDelete(before.rows, u);
  }
}
