/** Any number of legs may arrive in any order, as long as each finds at most one other. */
module ManyLegs {
  import opened Common
  import opened Domain
  import opened Decision
  import opened Enrichment
  import opened TransferRuns
  import opened ArrivalOrder

  /** A new Monobank event, with no candidate in the table. */
  ghost predicate IsNew(env: Env, db: Db, e: Event) {
    && e.source == MONOBANK && Processable(env, e)
    && e.id !in db.rows && e.id !in db.anomalies && Alone(env, db.rows, e)
  }

  /** New events with symmetric amounts, of which each finds at most one other. */
  ghost predicate Sparse(env: Env, db: Db, events: set<Event>) {
    && (forall e :: e in events ==> IsNew(env, db, e))
    && (forall a, b :: a in events && b in events && a.id == b.id ==> a == b)
    && (forall a, b :: a in events && b in events ==> AmountsSymmetric(LegOfEvent(a), LegOfEvent(b)))
    && (forall a, b, c :: a in events && b in events && c in events && Finds(env, a, b) && Finds(env, a, c) ==> b == c)
  }

  ghost predicate FindsNone(env: Env, events: set<Event>, e: Event) {
    forall x :: x in events ==> !Finds(env, e, x)
  }

  ghost predicate Delivered(events: set<Event>, id: Id) {
    exists e :: e in events && e.id == id
  }

  function At(anomalies: map<Id, AnomalyView>, id: Id): Option<AnomalyView> {
    if id in anomalies then Some(anomalies[id]) else None
  }

  function PairBlockOf(env: Env, e: Event, mate: Event): PairBlock {
    PairBlock(Classify(env, e.userId, LegOfEvent(e), LegOfEvent(mate)), false)
  }

  function PairedRow(env: Env, e: Event, mate: Event): Row
    requires Processable(env, e)
  {
    var block := TransferBlock(Some(FlagsOf(env, e)), Some(PairBlockOf(env, e, mate)));
    RowFor(env, e, Detection(Some(mate.id), None, Some(block)))
  }

  function CanaryAbout(env: Env, owner: Event, other: Event): AnomalyView {
    AnomalyView({other.id}, MismatchReason(env, LegOfEvent(owner), LegOfEvent(other)))
  }

  predicate Agree(env: Env, a: Event, b: Event) {
    DescriptionsConsistent(env, LegOfEvent(a), LegOfEvent(b))
  }

  // ---------------------------------------------------------------- the outcome, with no word about the order

  /** The row of an event, by whether it finds another among the events. */
  ghost predicate RowIs(env: Env, db: Db, events: set<Event>, row: Row, e: Event) {
    && Processable(env, e)
    && (FindsNone(env, events, e) ==> row == RowFor(env, e, Detect(env, db.rows, e)))
    && (forall p :: p in events && Finds(env, e, p) ==> row == PairedRow(env, e, p))
  }

  ghost predicate RowsDescribed(env: Env, db: Db, events: set<Event>, rows: map<Id, Row>) {
    && (forall id :: id in rows <==> id in db.rows || Delivered(events, id))
    && (forall id :: id in db.rows ==> rows[id] == db.rows[id])
    && (forall e :: e in events ==> StoredAs(env, db, events, rows, e))
  }

  ghost predicate StoredAs(env: Env, db: Db, events: set<Event>, rows: map<Id, Row>, e: Event) {
    e.id in rows && RowIs(env, db, events, rows[e.id], e)
  }

  /** A pair that disagrees has one canary, on either of the two; a pair that agrees has no anomaly. */
  ghost predicate PairAnomalies(env: Env, a: Event, b: Event, ofA: Option<AnomalyView>, ofB: Option<AnomalyView>) {
    if Agree(env, a, b) then ofA == ofB == None
    else
      || (ofA == Some(CanaryAbout(env, a, b)) && ofB == None)
      || (ofA == None && ofB == Some(CanaryAbout(env, b, a)))
  }

  ghost predicate AnomalyIs(env: Env, db: Db, events: set<Event>, anomalies: map<Id, AnomalyView>, e: Event) {
    && (FindsNone(env, events, e) ==> At(anomalies, e.id) == Detect(env, db.rows, e).anomaly)
    && (forall p :: p in events && Finds(env, e, p) ==>
          PairAnomalies(env, e, p, At(anomalies, e.id), At(anomalies, p.id)))
  }

  ghost predicate AnomaliesDescribed(env: Env, db: Db, events: set<Event>, anomalies: map<Id, AnomalyView>) {
    && (forall id :: !Delivered(events, id) ==> At(anomalies, id) == At(db.anomalies, id))
    && (forall e :: e in events ==> AnomalyIs(env, db, events, anomalies, e))
  }

  ghost predicate Described(env: Env, db: Db, events: set<Event>, x: Db) {
    RowsDescribed(env, db, events, x.rows) && AnomaliesDescribed(env, db, events, x.anomalies)
  }

  // ---------------------------------------------------------------- one more event

  lemma SparseSubset(env: Env, db: Db, events: set<Event>, e: Event)
    requires Sparse(env, db, events + {e})
    ensures Sparse(env, db, events) && IsNew(env, db, e)
    ensures e !in events ==> !Delivered(events, e.id)
  {
    assert e in events + {e};
    assert forall x :: x in events ==> x in events + {e};
  }

  lemma MatesFindEachOther(env: Env, a: Event, b: Event)
    requires a.source == b.source == MONOBANK && AmountsSymmetric(LegOfEvent(a), LegOfEvent(b))
    ensures Finds(env, a, b) <==> Finds(env, b, a)
    ensures Finds(env, a, b) ==> a.userId == b.userId && PairBlockOf(env, a, b) == PairBlockOf(env, b, a)
    ensures Finds(env, a, b) ==> Agree(env, a, b) == Agree(env, b, a)
    ensures Finds(env, a, b) ==> CanaryAbout(env, a, b).reason == CanaryAbout(env, b, a).reason
  {
    FindsIsSymmetric(env, a, b);
  }

  lemma NotItself(env: Env, e: Event)
    ensures !Finds(env, e, e)
  {
  }

  lemma DeliveredNext(events: set<Event>, e: Event, id: Id)
    ensures Delivered(events + {e}, id) <==> Delivered(events, id) || id == e.id
  {
    if Delivered(events, id) {
      var x :| x in events && x.id == id;
      assert x in events + {e};
    }
    assert e in events + {e};
  }

  /** An event that does not find the new one is described as before. */
  lemma RowStays(env: Env, db: Db, events: set<Event>, row: Row, e: Event, x: Event)
    requires !Finds(env, x, e) && RowIs(env, db, events, row, x)
    ensures RowIs(env, db, events + {e}, row, x)
  {
    assert FindsNone(env, events + {e}, x) ==> FindsNone(env, events, x) by {
      assert forall y :: y in events ==> y in events + {e};
    }
  }

  lemma AnomalyStays(env: Env, db: Db, events: set<Event>, before: map<Id, AnomalyView>, after: map<Id, AnomalyView>,
                     e: Event, x: Event)
    requires !Finds(env, x, e) && AnomalyIs(env, db, events, before, x) && At(after, x.id) == At(before, x.id)
    requires forall y :: y in events && Finds(env, x, y) ==> At(after, y.id) == At(before, y.id)
    ensures AnomalyIs(env, db, events + {e}, after, x)
  {
    assert FindsNone(env, events + {e}, x) ==> FindsNone(env, events, x) by {
      assert forall y :: y in events ==> y in events + {e};
    }
  }

  /** Every stored event can be read off its row. */
  lemma DescribedLeg(env: Env, db: Db, events: set<Event>, row: Row, y: Event)
    requires RowIs(env, db, events, row, y)
    ensures LegOfRow(row) == LegOfEvent(y) && row.userId == y.userId && row.mcc == y.mcc
  {
    if FindsNone(env, events, y) {
      StoredLeg(env, y, Detect(env, db.rows, y));
    } else {
      var p :| p in events && Finds(env, y, p);
      var block := TransferBlock(Some(FlagsOf(env, y)), Some(PairBlockOf(env, y, p)));
      StoredLeg(env, y, Detection(Some(p.id), None, Some(block)));
    }
  }

  /** So a candidate of a new event is one of the events it finds. */
  lemma CandidateIsFound(env: Env, db: Db, events: set<Event>, rows: map<Id, Row>, e: Event, id: Id) returns (y: Event)
    requires IsNew(env, db, e) && RowsDescribed(env, db, events, rows)
    requires id in rows && IsCandidate(env, e, rows[id])
    requires e.mcc == Some(WIRE_TRANSFER) && e.direction != Zero && !FlagsOf(env, e).ibanStatus.Unlinked?
    ensures y in events && y.id == id && Finds(env, e, y)
  {
    assert id !in db.rows;
    assert Delivered(events, id);
    y :| y in events && y.id == id;
    assert StoredAs(env, db, events, rows, y);
    DescribedLeg(env, db, events, rows[id], y);
    NotFoundNotCandidate(env, y, rows[id], e);
  }

  // ---------------------------------------------------------------- ... that finds none of the others

  /** It is examined as on the original table. */
  lemma LoneDetectionStays(env: Env, db: Db, events: set<Event>, rows: map<Id, Row>, e: Event)
    requires IsNew(env, db, e) && RowsDescribed(env, db, events, rows)
    requires !Delivered(events, e.id) && FindsNone(env, events, e)
    ensures e.id !in rows && Detect(env, rows, e) == Detect(env, db.rows, e) && Detect(env, db.rows, e).partner.None?
  {
    LoneDetection(env, db.rows, e);
    if Examined(db.rows, e) && !FlagsOf(env, e).ibanStatus.Unlinked? {
      forall id | id in rows ensures !IsCandidate(env, e, rows[id]) {
        if IsCandidate(env, e, rows[id]) { var y := CandidateIsFound(env, db, events, rows, e, id); }
      }
      assert Candidates(env, rows, e) == {} && Candidates(env, db.rows, e) == {};
    }
    DetectionReadsCandidates(env, rows, db.rows, e);
  }

  ghost predicate FoundByNone(env: Env, events: set<Event>, e: Event) {
    forall x :: x in events ==> !Finds(env, x, e)
  }

  lemma LoneRows(env: Env, db: Db, events: set<Event>, rows: map<Id, Row>, e: Event)
    requires RowsDescribed(env, db, events, rows) && FindsNone(env, events, e) && FoundByNone(env, events, e)
    requires e.id !in rows && Processable(env, e)
    ensures RowsDescribed(env, db, events + {e}, rows[e.id := RowFor(env, e, Detect(env, db.rows, e))])
  {
    var all, after := events + {e}, rows[e.id := RowFor(env, e, Detect(env, db.rows, e))];
    NotItself(env, e);
    forall id ensures id in after <==> id in db.rows || Delivered(all, id) { DeliveredNext(events, e, id); }
    forall x | x in all ensures StoredAs(env, db, all, after, x) {
      if x in events {
        assert StoredAs(env, db, events, rows, x);
        RowStays(env, db, events, rows[x.id], e, x);
      }
    }
  }

  lemma LoneAnomalies(env: Env, db: Db, events: set<Event>, anomalies: map<Id, AnomalyView>, e: Event)
    requires AnomaliesDescribed(env, db, events, anomalies) && FindsNone(env, events, e) && FoundByNone(env, events, e)
    requires !Delivered(events, e.id) && e.id !in db.anomalies
    ensures e.id !in anomalies
    ensures var d := Detect(env, db.rows, e);
            var after := if d.anomaly.Some? then anomalies[e.id := d.anomaly.value] else anomalies;
            AnomaliesDescribed(env, db, events + {e}, after)
  {
    var all, d := events + {e}, Detect(env, db.rows, e);
    var after := if d.anomaly.Some? then anomalies[e.id := d.anomaly.value] else anomalies;
    assert At(anomalies, e.id) == At(db.anomalies, e.id);
    NotItself(env, e);
    forall id | !Delivered(all, id) ensures At(after, id) == At(db.anomalies, id) { DeliveredNext(events, e, id); }
    forall x | x in all ensures AnomalyIs(env, db, all, after, x) {
      if x in events { AnomalyStays(env, db, events, anomalies, after, e, x); }
    }
  }

  lemma LoneIsMutual(env: Env, db: Db, events: set<Event>, e: Event)
    requires Sparse(env, db, events + {e}) && FindsNone(env, events, e)
    ensures FoundByNone(env, events, e)
  {
    forall x | x in events ensures !Finds(env, x, e) {
      assert x in events + {e} && e in events + {e};
      assert IsNew(env, db, x) && IsNew(env, db, e);
      MatesFindEachOther(env, e, x);
    }
  }

  lemma LoneStep(env: Env, db: Db, events: set<Event>, x: Db, e: Event)
    requires Sparse(env, db, events + {e}) && Described(env, db, events, x) && e !in events && FindsNone(env, events, e)
    ensures Described(env, db, events + {e}, Enrich(env, x, e))
  {
    SparseSubset(env, db, events, e);
    LoneIsMutual(env, db, events, e);
    LoneDetectionStays(env, db, events, x.rows, e);
    LoneAnomalies(env, db, events, x.anomalies, e);
    LoneRows(env, db, events, x.rows, e);
    PlainStep(env, x, e);
  }

  // ---------------------------------------------------------------- ... that finds one of them

  /** `p` and `e` find each other, and no other event has to do with either. */
  ghost predicate NewPair(env: Env, db: Db, events: set<Event>, e: Event, p: Event) {
    && p in events && e !in events && IsNew(env, db, e) && IsNew(env, db, p) && !Delivered(events, e.id)
    && Finds(env, e, p) && Finds(env, p, e) && FindsNone(env, events, p)
    && Others(env, events, e, p)
  }

  ghost predicate Others(env: Env, events: set<Event>, e: Event, p: Event) {
    forall x :: x in events && x != p ==> Apart(env, x, e) && Apart(env, x, p)
  }

  predicate Apart(env: Env, x: Event, y: Event) {
    x.id != y.id && !Finds(env, x, y) && !Finds(env, y, x)
  }

  lemma MateIsLone(env: Env, db: Db, events: set<Event>, e: Event, p: Event)
    requires Sparse(env, db, events + {e}) && e !in events && p in events && Finds(env, e, p)
    ensures NewPair(env, db, events, e, p)
  {
    var all := events + {e};
    SparseSubset(env, db, events, e);
    assert e in all && p in all;
    assert IsNew(env, db, p);
    MatesFindEachOther(env, e, p);
    NotItself(env, p);
    forall x | x in events && x != p ensures Apart(env, x, e) && Apart(env, x, p) {
      assert x in all && IsNew(env, db, x);
      MatesFindEachOther(env, e, x);
      MatesFindEachOther(env, p, x);
    }
  }

  /** `after` differs from `before` in the rows of e and p only. */
  ghost predicate Rewrites(before: map<Id, Row>, after: map<Id, Row>, e: Id, p: Id) {
    && (forall id :: id in after <==> id in before || id == e || id == p)
    && (forall id :: id in before && id != e && id != p ==> after[id] == before[id])
  }

  lemma PairKeys(db: Db, events: set<Event>, rows: map<Id, Row>, after: map<Id, Row>, e: Event, p: Event)
    requires p in events && Rewrites(rows, after, e.id, p.id) && e.id !in db.rows && p.id !in db.rows
    requires forall id :: id in rows <==> id in db.rows || Delivered(events, id)
    requires forall id :: id in db.rows ==> rows[id] == db.rows[id]
    ensures forall id :: id in after <==> id in db.rows || Delivered(events + {e}, id)
    ensures forall id :: id in db.rows ==> after[id] == db.rows[id]
  {
    assert Delivered(events, p.id);
    forall id ensures id in after <==> id in db.rows || Delivered(events + {e}, id) { DeliveredNext(events, e, id); }
  }

  lemma PairRows(env: Env, db: Db, events: set<Event>, rows: map<Id, Row>, after: map<Id, Row>, e: Event, p: Event)
    requires RowsDescribed(env, db, events, rows) && p in events && Others(env, events, e, p)
    requires e.id !in db.rows && p.id !in db.rows && Rewrites(rows, after, e.id, p.id)
    requires StoredAs(env, db, events + {e}, after, e) && StoredAs(env, db, events + {e}, after, p)
    ensures RowsDescribed(env, db, events + {e}, after)
  {
    PairKeys(db, events, rows, after, e, p);
    forall x | x in events + {e} ensures StoredAs(env, db, events + {e}, after, x) {
      if x != e && x != p { OtherRow(env, db, events, rows, after, e, p, x); }
    }
  }

  lemma OtherRow(env: Env, db: Db, events: set<Event>, rows: map<Id, Row>, after: map<Id, Row>, e: Event, p: Event,
                 x: Event)
    requires RowsDescribed(env, db, events, rows) && Others(env, events, e, p) && x in events && x != p
    requires Rewrites(rows, after, e.id, p.id)
    ensures StoredAs(env, db, events + {e}, after, x)
  {
    assert Apart(env, x, e) && Apart(env, x, p) && StoredAs(env, db, events, rows, x);
    RowStays(env, db, events, rows[x.id], e, x);
  }

  lemma PairedRowsAre(env: Env, db: Db, events: set<Event>, e: Event, p: Event)
    requires NewPair(env, db, events, e, p)
    ensures RowIs(env, db, events + {e}, PairedRow(env, e, p), e)
            && RowIs(env, db, events + {e}, PairedRow(env, p, e), p)
    ensures e.id != p.id
  {
    NotItself(env, e);
    NotItself(env, p);
    assert p in events + {e} && e in events + {e};
    forall x | x in events + {e} && Finds(env, e, x) ensures x == p {
      assert x != p && x != e ==> Apart(env, x, e) && Apart(env, x, p);
    }
    forall x | x in events + {e} && Finds(env, p, x) ensures x == e {
      assert x != p && x != e ==> Apart(env, x, e) && Apart(env, x, p);
    }
  }

  lemma PairAnomaliesNext(env: Env, db: Db, events: set<Event>, anomalies: map<Id, AnomalyView>,
                          after: map<Id, AnomalyView>, e: Event, p: Event)
    requires AnomaliesDescribed(env, db, events, anomalies) && p in events && Others(env, events, e, p)
    requires forall id :: id != e.id && id != p.id ==> At(after, id) == At(anomalies, id)
    requires AnomalyIs(env, db, events + {e}, after, e) && AnomalyIs(env, db, events + {e}, after, p)
    requires FindsNone(env, events, p)
    ensures AnomaliesDescribed(env, db, events + {e}, after)
  {
    var all := events + {e};
    assert Delivered(events, p.id);
    forall id | !Delivered(all, id) ensures At(after, id) == At(db.anomalies, id) { DeliveredNext(events, e, id); }
    forall x | x in all ensures AnomalyIs(env, db, all, after, x) {
      if x != e && x != p { OtherAnomaly(env, db, events, anomalies, after, e, p, x); }
    }
  }

  lemma OtherAnomaly(env: Env, db: Db, events: set<Event>, anomalies: map<Id, AnomalyView>, after: map<Id, AnomalyView>,
                     e: Event, p: Event, x: Event)
    requires AnomaliesDescribed(env, db, events, anomalies) && Others(env, events, e, p) && x in events && x != p
    requires forall id :: id != e.id && id != p.id ==> At(after, id) == At(anomalies, id)
    ensures AnomalyIs(env, db, events + {e}, after, x)
  {
    assert Apart(env, x, e) && Apart(env, x, p);
    forall y | y in events && Finds(env, x, y) ensures At(after, y.id) == At(anomalies, y.id) {
      assert y != p ==> Apart(env, y, e) && Apart(env, y, p);
    }
    AnomalyStays(env, db, events, anomalies, after, e, x);
  }

  lemma PairAnomaliesAre(env: Env, db: Db, events: set<Event>, after: map<Id, AnomalyView>, e: Event, p: Event)
    requires NewPair(env, db, events, e, p) && Agree(env, e, p) == Agree(env, p, e) && At(after, p.id) == None
    requires At(after, e.id) == if Agree(env, e, p) then None else Some(CanaryAbout(env, e, p))
    ensures AnomalyIs(env, db, events + {e}, after, e) && AnomalyIs(env, db, events + {e}, after, p)
  {
    NotItself(env, e);
    NotItself(env, p);
    assert p in events + {e} && e in events + {e};
    forall x | x in events + {e} && Finds(env, e, x) ensures x == p {
      assert x != p && x != e ==> Apart(env, x, e) && Apart(env, x, p);
    }
    forall x | x in events + {e} && Finds(env, p, x) ensures x == e {
      assert x != p && x != e ==> Apart(env, x, e) && Apart(env, x, p);
    }
  }

  /** The table without p's row, to which p could have been delivered last. */
  function WithoutRow(x: Db, id: Id): Db {
    Db(x.rows - {id}, x.anomalies - {id})
  }

  lemma MateWasLast(env: Env, x: Db, p: Event, d: Detection)
    requires Processable(env, p) && p.id in x.rows && x.rows[p.id] == RowFor(env, p, d)
             && At(x.anomalies, p.id) == d.anomaly
    ensures StoredPlain(env, WithoutRow(x, p.id), p, d) == x
  {
  }

  /** The step links the two, whenever p had been stored. */
  lemma PairStepEnrich(env: Env, db: Db, events: set<Event>, x: Db, e: Event, p: Event)
    requires Described(env, db, events, x) && NewPair(env, db, events, e, p)
    ensures Enrich(env, x, e) == PairedDb(env, WithoutRow(x, p.id), p, e)
  {
    var m, d := WithoutRow(x, p.id), Detect(env, db.rows, p);
    MateIsStored(env, db, events, x, e, p);
    LoneDetection(env, db.rows, p);
    assert Examined(db.rows, p);
    MateWasLast(env, x, p, d);
    AloneButForMate(env, db, events, x.rows, e, p);
    PairedRowsAre(env, db, events, e, p);
    DeliverSecond(env, m, p, d, e);
  }

  lemma CandidateIsMate(env: Env, db: Db, events: set<Event>, rows: map<Id, Row>, e: Event, p: Event, id: Id)
    requires RowsDescribed(env, db, events, rows) && NewPair(env, db, events, e, p)
    requires id in rows && IsCandidate(env, e, rows[id])
    ensures id == p.id
  {
    var y := CandidateIsFound(env, db, events, rows, e, id);
    assert y != p ==> Apart(env, y, e);
  }

  lemma AloneButForMate(env: Env, db: Db, events: set<Event>, rows: map<Id, Row>, e: Event, p: Event)
    requires RowsDescribed(env, db, events, rows) && NewPair(env, db, events, e, p)
    ensures Alone(env, rows - {p.id}, e)
  {
    forall id | id in rows - {p.id} ensures !IsCandidate(env, e, rows[id]) {
      if IsCandidate(env, e, rows[id]) { CandidateIsMate(env, db, events, rows, e, p, id); }
    }
  }

  /** Both rows and at most one anomaly written over a table that lacks p's. */
  function WithPairWritten(m: Db, e: Id, rowE: Row, p: Id, rowP: Row, canary: Option<AnomalyView>): Db {
    Db(m.rows[p := rowP][e := rowE], if canary.Some? then m.anomalies[e := canary.value] else m.anomalies)
  }

  lemma PairedDbIsWritten(env: Env, m: Db, e: Event, p: Event)
    requires Processable(env, e) && Processable(env, p) && PairBlockOf(env, e, p) == PairBlockOf(env, p, e)
    ensures PairedDb(env, m, p, e) ==
            WithPairWritten(m, e.id, PairedRow(env, e, p), p.id, PairedRow(env, p, e), CanaryOf(env, e, p))
  {
  }

  lemma PairWritten(x: Db, e: Id, rowE: Row, p: Id, rowP: Row, canary: Option<AnomalyView>)
    requires p in x.rows && p != e && e !in x.anomalies
    ensures var after := WithPairWritten(WithoutRow(x, p), e, rowE, p, rowP, canary);
            && Rewrites(x.rows, after.rows, e, p) && after.rows[e] == rowE && after.rows[p] == rowP
            && (forall id :: id != e && id != p ==> At(after.anomalies, id) == At(x.anomalies, id))
            && At(after.anomalies, p) == None && At(after.anomalies, e) == canary
  {
  }

  /** The two rows rewritten, and the two anomalies. */
  lemma PairIsDescribed(env: Env, db: Db, events: set<Event>, x: Db, after: Db, e: Event, p: Event)
    requires Described(env, db, events, x) && NewPair(env, db, events, e, p) && Agree(env, e, p) == Agree(env, p, e)
    requires Rewrites(x.rows, after.rows, e.id, p.id)
    requires after.rows[e.id] == PairedRow(env, e, p) && after.rows[p.id] == PairedRow(env, p, e)
    requires forall id :: id != e.id && id != p.id ==> At(after.anomalies, id) == At(x.anomalies, id)
    requires At(after.anomalies, p.id) == None && At(after.anomalies, e.id) == CanaryOf(env, e, p)
    ensures Described(env, db, events + {e}, after)
  {
    PairedRowsAre(env, db, events, e, p);
    PairAnomaliesAre(env, db, events, after.anomalies, e, p);
    PairRows(env, db, events, x.rows, after.rows, e, p);
    PairAnomaliesNext(env, db, events, x.anomalies, after.anomalies, e, p);
  }

  lemma PairStep(env: Env, db: Db, events: set<Event>, x: Db, e: Event, p: Event)
    requires Described(env, db, events, x) && NewPair(env, db, events, e, p)
    requires PairBlockOf(env, e, p) == PairBlockOf(env, p, e) && Agree(env, e, p) == Agree(env, p, e)
    ensures Described(env, db, events + {e}, Enrich(env, x, e))
  {
    PairStepEnrich(env, db, events, x, e, p);
    PairedRowsAre(env, db, events, e, p);
    PairedDbIsWritten(env, WithoutRow(x, p.id), e, p);
    MateIsStored(env, db, events, x, e, p);
    PairWritten(x, e.id, PairedRow(env, e, p), p.id, PairedRow(env, p, e), CanaryOf(env, e, p));
    PairIsDescribed(env, db, events, x, Enrich(env, x, e), e, p);
  }

  lemma MateIsStored(env: Env, db: Db, events: set<Event>, x: Db, e: Event, p: Event)
    requires Described(env, db, events, x) && NewPair(env, db, events, e, p)
    ensures p.id in x.rows && e.id !in x.rows && e.id !in x.anomalies
    ensures At(x.anomalies, p.id) == Detect(env, db.rows, p).anomaly
    ensures Processable(env, p) && x.rows[p.id] == RowFor(env, p, Detect(env, db.rows, p))
  {
    assert StoredAs(env, db, events, x.rows, p) && AnomalyIs(env, db, events, x.anomalies, p);
    assert At(x.anomalies, e.id) == At(db.anomalies, e.id);
  }

  // ---------------------------------------------------------------- any sequence of them

  ghost predicate DistinctEvents(events: seq<Event>) {
    forall i, j :: 0 <= i < j < |events| ==> events[i] != events[j]
  }

  lemma NothingYet(env: Env, db: Db)
    ensures Described(env, db, {}, db)
  {
  }

  /** Whatever the order of delivery, the tables end up as described. */
  lemma {:induction false} RunIsDescribed(env: Env, db: Db, events: seq<Event>)
    requires DistinctEvents(events) && Sparse(env, db, SetOf(events))
    ensures Described(env, db, SetOf(events), Consume(env, db, events))
  {
    if events == [] {
      NothingYet(env, db);
      assert SetOf(events) == {};
    } else {
      var init, e := events[..|events| - 1], events[|events| - 1];
      var before := SetOf(init);
      assert events == init + [e];
      SetOfSnoc(init, e);
      SparseSubset(env, db, before, e);
      RunIsDescribed(env, db, init);
      assert e !in init;
      NextIsDescribed(env, db, before, Consume(env, db, init), e);
    }
  }

  lemma NextIsDescribed(env: Env, db: Db, events: set<Event>, x: Db, e: Event)
    requires Sparse(env, db, events + {e}) && Described(env, db, events, x) && e !in events
    ensures Described(env, db, events + {e}, Enrich(env, x, e))
  {
    if FindsNone(env, events, e) {
      LoneStep(env, db, events, x, e);
    } else {
      var p :| p in events && Finds(env, e, p);
      MateIsLone(env, db, events, e, p);
      assert e in events + {e} && p in events + {e};
      MatesFindEachOther(env, e, p);
      PairStep(env, db, events, x, e, p);
    }
  }

  /** A canary about the same pair, on either of the two. */
  ghost predicate CanaryMoved(x: map<Id, AnomalyView>, y: map<Id, AnomalyView>, a: Id, b: Id) {
    && a in x && b !in x && a !in y && b in y
    && x[a].candidates == {b} && y[b].candidates == {a}
    && x[a].reason == y[b].reason && x[a].reason.DescriptionConsistencyMismatch?
  }

  /** Same rows, links and metadata; same anomalies, except which of a pair owns its canary. */
  ghost predicate SameUpToCanaryOwners(x: Db, y: Db) {
    && x.rows == y.rows
    && forall id :: At(x.anomalies, id) == At(y.anomalies, id)
                 || exists p :: CanaryMoved(x.anomalies, y.anomalies, id, p)
                     || CanaryMoved(x.anomalies, y.anomalies, p, id)
  }

  lemma SameRow(env: Env, db: Db, events: set<Event>, r: Row, s: Row, e: Event)
    requires RowIs(env, db, events, r, e) && RowIs(env, db, events, s, e)
    ensures r == s
  {
    if !FindsNone(env, events, e) { var p :| p in events && Finds(env, e, p); }
  }

  lemma SameAnomaly(env: Env, db: Db, events: set<Event>, x: map<Id, AnomalyView>, y: map<Id, AnomalyView>, e: Event)
    requires Sparse(env, db, events) && e in events
    requires AnomalyIs(env, db, events, x, e) && AnomalyIs(env, db, events, y, e)
    ensures At(x, e.id) == At(y, e.id) || exists p :: CanaryMoved(x, y, e.id, p) || CanaryMoved(x, y, p, e.id)
  {
    if !FindsNone(env, events, e) {
      var p :| p in events && Finds(env, e, p);
      assert IsNew(env, db, e) && IsNew(env, db, p);
      MatesFindEachOther(env, e, p);
      assert PairAnomalies(env, e, p, At(x, e.id), At(x, p.id)) && PairAnomalies(env, e, p, At(y, e.id), At(y, p.id));
      if At(x, e.id) != At(y, e.id) {
        assert CanaryMoved(x, y, e.id, p.id) || CanaryMoved(x, y, p.id, e.id);
      }
    }
  }

  lemma DescribedAlike(env: Env, db: Db, events: set<Event>, x: Db, y: Db)
    requires Sparse(env, db, events) && Described(env, db, events, x) && Described(env, db, events, y)
    ensures SameUpToCanaryOwners(x, y)
  {
    forall id | id in x.rows ensures id in y.rows && x.rows[id] == y.rows[id] {
      if id !in db.rows {
        assert Delivered(events, id);
        var e :| e in events && e.id == id;
        assert StoredAs(env, db, events, x.rows, e) && StoredAs(env, db, events, y.rows, e);
        SameRow(env, db, events, x.rows[id], y.rows[id], e);
      }
    }
    assert x.rows.Keys == y.rows.Keys;
    forall id ensures At(x.anomalies, id) == At(y.anomalies, id)
                   || exists p :: CanaryMoved(x.anomalies, y.anomalies, id, p)
                       || CanaryMoved(x.anomalies, y.anomalies, p, id) {
      if Delivered(events, id) {
        var e :| e in events && e.id == id;
        SameAnomaly(env, db, events, x.anomalies, y.anomalies, e);
      }
    }
  }

  /** Every permutation of a sparse list of events ends in the same tables, up to which leg of a pair owns a
      canary. */
  lemma AnyOrderWillDo(env: Env, db: Db, a: seq<Event>, b: seq<Event>)
    requires DistinctEvents(a) && multiset(a) == multiset(b) && Sparse(env, db, SetOf(a))
    ensures SameUpToCanaryOwners(Consume(env, db, a), Consume(env, db, b))
  {
    SamePermuted(a, b);
    RunIsDescribed(env, db, a);
    RunIsDescribed(env, db, b);
    DescribedAlike(env, db, SetOf(a), Consume(env, db, a), Consume(env, db, b));
  }

  lemma SamePermuted(a: seq<Event>, b: seq<Event>)
    requires DistinctEvents(a) && multiset(a) == multiset(b)
    ensures SetOf(a) == SetOf(b) && DistinctEvents(b)
  {
    forall e ensures e in a <==> e in b { assert e in multiset(a) <==> e in multiset(b); }
    forall i, j | 0 <= i < j < |b| ensures b[i] != b[j] {
      if b[i] == b[j] {
        assert b == b[..i] + [b[i]] + b[i + 1..j] + [b[j]] + b[j + 1..];
        assert multiset(b)[b[i]] >= 2;
        MultiplicityOfDistinct(a, b[i]);
      }
    }
  }
}
