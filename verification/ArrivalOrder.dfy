/** The two legs of a transfer may arrive in either order. */
module ArrivalOrder {
  import opened Common
  import opened Domain
  import opened Descriptions
  import opened Decision
  import opened Enrichment
  import opened TransferRuns
  import Conversion

  /** Swapping the roles of the legs does not change the amount predicate's answer. The guard to check: it
      fails only if one leg alone lacks an operation amount, the amounts are equal, and the other leg's
      operation amount is a different one. */
  predicate AmountsSymmetric(a: Leg, b: Leg) {
    && (a.operationAmountCents.None? && b.operationAmountCents.Some? && a.amountCents == b.amountCents ==>
          b.operationAmountCents.value == a.amountCents)
    && (b.operationAmountCents.None? && a.operationAmountCents.Some? && a.amountCents == b.amountCents ==>
          a.operationAmountCents.value == b.amountCents)
  }

  lemma AmountMatchesIsSymmetricIff(a: Leg, b: Leg)
    ensures (AmountMatches(a, b) <==> AmountMatches(b, a)) <==> AmountsSymmetric(a, b)
  {
  }

  /** With an operation amount missing on one side, one leg may find the other and not be found by it. */
  lemma MissingOperationAmountBreaksSymmetry(a: Leg, b: Leg)
    requires a.amountCents == b.amountCents == 500 && a.operationAmountCents.None? && b.operationAmountCents == Some(12)
    ensures AmountMatches(a, b) && !AmountMatches(b, a)
  {
  }

  /** Would `incoming` find `other`, stored and unclaimed? */
  predicate Finds(env: Env, incoming: Event, other: Event) {
    var i, o := LegOfEvent(incoming), LegOfEvent(other);
    && incoming.source == MONOBANK && incoming.mcc == Some(WIRE_TRANSFER) && incoming.direction != Zero
    && !FlagsOf(env, incoming).ibanStatus.Unlinked?
    && other.userId == incoming.userId && other.direction == Opposite(incoming.direction)
    && other.mcc == Some(WIRE_TRANSFER) && other.accountId != incoming.accountId
    && AmountMatches(i, o)
    && incoming.time - PAIR_WINDOW <= other.time <= incoming.time + PAIR_WINDOW
    && IsConsistent(env, incoming.userId, i, o)
  }

  /** The amount predicate, the IBAN filter with its short-circuit and the evidence level are symmetric. */
  lemma FindsIsSymmetric(env: Env, a: Event, b: Event)
    requires a.source == b.source == MONOBANK && AmountsSymmetric(LegOfEvent(a), LegOfEvent(b))
    ensures Finds(env, a, b) <==> Finds(env, b, a)
    ensures Finds(env, a, b) ==>
            Classify(env, a.userId, LegOfEvent(a), LegOfEvent(b)) ==
                Classify(env, a.userId, LegOfEvent(b), LegOfEvent(a))
    ensures Finds(env, a, b) ==>
            DescriptionsConsistent(env, LegOfEvent(a), LegOfEvent(b)) ==
                DescriptionsConsistent(env, LegOfEvent(b), LegOfEvent(a))
    ensures Finds(env, a, b) ==>
            MismatchReason(env, LegOfEvent(a), LegOfEvent(b)) == MismatchReason(env, LegOfEvent(b), LegOfEvent(a))
  {
    AmountMatchesIsSymmetricIff(LegOfEvent(a), LegOfEvent(b));
  }

  /** No stored row is a candidate for the event. */
  ghost predicate Alone(env: Env, rows: map<Id, Row>, e: Event) {
    forall id :: id in rows ==> !IsCandidate(env, e, rows[id])
  }

  /** The row of an event that formed no pair, and its anomaly if there is one. */
  function StoredPlain(env: Env, db: Db, e: Event, d: Detection): Db
    requires Processable(env, e)
  {
    Db(db.rows[e.id := RowFor(env, e, d)],
       if d.anomaly.Some? then db.anomalies[e.id := d.anomaly.value] else db.anomalies)
  }

  lemma PlainStep(env: Env, db: Db, e: Event)
    requires Processable(env, e) && e.id !in db.rows && e.id !in db.anomalies && Detect(env, db.rows, e).partner.None?
    ensures Enrich(env, db, e) == StoredPlain(env, db, e, Detect(env, db.rows, e))
  {
  }

  lemma LoneDetection(env: Env, rows: map<Id, Row>, e: Event)
    requires Alone(env, rows, e) && e.id !in rows
    ensures var d := Detect(env, rows, e);
            && d.partner.None? && (d.anomaly.Some? ==> IsUnpaired(d.anomaly.value.reason))
            && (d.block.Some? ==> d.block == Some(TransferBlock(Some(FlagsOf(env, e)), None)))
            && (d.block.None? <==> !Examined(rows, e))
  {
    assert Candidates(env, rows, e) == {};
  }

  /** A leg with no candidate is stored plain, with at most an unpaired anomaly. */
  lemma LoneLeg(env: Env, db: Db, e: Event)
    requires Processable(env, e) && Alone(env, db.rows, e) && e.id !in db.rows && e.id !in db.anomalies
    ensures var d := Detect(env, db.rows, e);
            && d.partner.None? && (d.anomaly.Some? ==> IsUnpaired(d.anomaly.value.reason))
            && (d.block.Some? ==> d.block == Some(TransferBlock(Some(FlagsOf(env, e)), None)))
            && (d.block.None? <==> !Examined(db.rows, e))
            && Enrich(env, db, e) == StoredPlain(env, db, e, d)
  {
    LoneDetection(env, db.rows, e);
    PlainStep(env, db, e);
  }

  /** A wire transfer without a candidate is reported exactly when its description says which way it went, unless
      its IBAN leads outside and the phrase is a known one. */
  lemma LoneLegReportedIff(env: Env, rows: map<Id, Row>, e: Event)
    requires Alone(env, rows, e) && Examined(rows, e)
    ensures var flags, d := FlagsOf(env, e), Detect(env, rows, e);
            && (d.anomaly.Some? <==>
                (&& e.description.Some? && (FROM_PREFIX <= e.description.value || TO_PREFIX <= e.description.value)
                                      && !(flags.ibanStatus.Unlinked? && flags.descriptionMatched)))
            && (d.anomaly.Some? ==>
                  && d.anomaly.value.candidates == {}
                  && d.anomaly.value.reason == if FROM_PREFIX <= e.description.value
                                               then UnpairedFromDescription(e.description.value)
                                               else UnpairedToDescription(e.description.value))
  {
    assert Candidates(env, rows, e) == {};
  }

  /** With the first leg stored plain, the second one finds it and nothing else. */
  lemma SecondLegPairs(env: Env, rows: map<Id, Row>, a: Event, rowA: Row, b: Event)
    requires Alone(env, rows, b) && b.id !in rows && a.id !in rows && a.id != b.id && Finds(env, b, a)
    requires LegOfRow(rowA) == LegOfEvent(a) && rowA.userId == a.userId && rowA.mcc == a.mcc
             && rowA.relatedTransactionId.None?
    ensures var i, o := LegOfEvent(b), LegOfEvent(a);
            Detect(env, rows[a.id := rowA], b) ==
            Detection(Some(a.id),
                      if DescriptionsConsistent(env, i, o) then None
                          else Some(AnomalyView({a.id}, MismatchReason(env, i, o))),
                      Some(TransferBlock(Some(FlagsOf(env, b)), Some(PairBlock(Classify(env, b.userId, i, o), false)))))
  {
    var after, c := rows[a.id := rowA], Score(env, b, LegOfEvent(a));
    assert Candidates(env, after, b) == {c} by {
      assert a.id in after && IsCandidate(env, b, after[a.id]);
      forall x | x in Candidates(env, after, b) ensures x == c {
        var id :| id in after && IsCandidate(env, b, after[id]) && x == Score(env, b, LegOfRow(after[id]));
        assert id == a.id;
      }
    }
  }

  /** Both legs stored, linked to each other; `canary` is recorded on `second` if there is one. */
  ghost function PairedDb(env: Env, db: Db, first: Event, second: Event): Db
    requires Processable(env, first) && Processable(env, second)
  {
    var i, o := LegOfEvent(second), LegOfEvent(first);
    var pair := PairBlock(Classify(env, second.userId, i, o), false);
    Db(db.rows[first.id := RowFor(env, first,
        Detection(Some(second.id), None, Some(TransferBlock(Some(FlagsOf(env, first)), Some(pair)))))]
              [second.id := RowFor(env, second,
                  Detection(Some(first.id), None, Some(TransferBlock(Some(FlagsOf(env, second)), Some(pair)))))],
       if DescriptionsConsistent(env, i, o) then db.anomalies
       else db.anomalies[second.id := AnomalyView({first.id}, MismatchReason(env, i, o))])
  }

  lemma DeliverPair(env: Env, db: Db, a: Event, b: Event)
    requires a.id !in db.anomalies && b.id !in db.anomalies
    requires Processable(env, a) && Processable(env, b)
    requires a.id != b.id && a.id !in db.rows && b.id !in db.rows
    requires Alone(env, db.rows, a) && Alone(env, db.rows, b)
    requires a.source == MONOBANK && Finds(env, b, a)
    ensures Enrich(env, Enrich(env, db, a), b) == PairedDb(env, db, a, b)
  {
    LoneLeg(env, db, a);
    assert Examined(db.rows, a);
    var dA := Detect(env, db.rows, a);
    DeliverSecond(env, db, a, dA, b);
  }

  /** The event columns of a stored row are those of the event. */
  lemma StoredLeg(env: Env, e: Event, d: Detection)
    requires Processable(env, e)
    ensures var r := RowFor(env, e, d);
            && LegOfRow(r) == LegOfEvent(e) && r.id == e.id && r.userId == e.userId && r.mcc == e.mcc
            && r.relatedTransactionId == d.partner && r.source == e.source
  {
  }

  function CanaryOf(env: Env, second: Event, first: Event): Option<AnomalyView> {
    var i, o := LegOfEvent(second), LegOfEvent(first);
    if DescriptionsConsistent(env, i, o) then None else Some(AnomalyView({first.id}, MismatchReason(env, i, o)))
  }

  lemma DeliverSecond(env: Env, db: Db, a: Event, dA: Detection, b: Event)
    requires a.id !in db.anomalies && b.id !in db.anomalies && Processable(env, a) && Processable(env, b)
    requires a.id != b.id && a.id !in db.rows && b.id !in db.rows
    requires Alone(env, db.rows, b) && Finds(env, b, a)
    requires dA.partner.None? && dA.block == Some(TransferBlock(Some(FlagsOf(env, a)), None))
    requires dA.anomaly.Some? ==> IsUnpaired(dA.anomaly.value.reason)
    ensures Enrich(env, StoredPlain(env, db, a, dA), b) == PairedDb(env, db, a, b)
  {
    var rowA := RowFor(env, a, dA);
    var noted := if dA.anomaly.Some? then db.anomalies[a.id := dA.anomaly.value] else db.anomalies;
    StoredLeg(env, a, dA);
    SecondLegPairs(env, db.rows, a, rowA, b);
    var pair := PairBlock(Classify(env, b.userId, LegOfEvent(b), LegOfEvent(a)), false);
    ClaimStep(env, Db(db.rows[a.id := rowA], noted), b, a.id, Some(FlagsOf(env, b)), pair, CanaryOf(env, b, a));
    AutoResolves(db.anomalies, a.id, b.id, dA.anomaly);
    ClaimedIsPaired(env, db, a, dA, b);
  }

  lemma AutoResolves(anomalies: map<Id, AnomalyView>, a: Id, b: Id, unpaired: Option<AnomalyView>)
    requires a !in anomalies && b !in anomalies && (unpaired.Some? ==> IsUnpaired(unpaired.value.reason))
    ensures DropUnpaired(if unpaired.Some? then anomalies[a := unpaired.value] else anomalies, {b, a}) == anomalies
  {
  }

  lemma ClaimedIsPaired(env: Env, db: Db, a: Event, dA: Detection, b: Event)
    requires Processable(env, a) && Processable(env, b) && a.id != b.id
    requires dA.partner.None? && dA.block == Some(TransferBlock(Some(FlagsOf(env, a)), None))
    ensures var pair := PairBlock(Classify(env, b.userId, LegOfEvent(b), LegOfEvent(a)), false);
            var canary, rowA := CanaryOf(env, b, a), RowFor(env, a, dA);
            Db(db.rows[a.id := rowA][a.id := ClaimedRow(rowA, b.id, pair)]
                      [b.id := RowFor(env, b,
                          Detection(Some(a.id), canary, Some(TransferBlock(Some(FlagsOf(env, b)), Some(pair)))))],
               if canary.Some? then db.anomalies[b.id := canary.value] else db.anomalies)
            == PairedDb(env, db, a, b)
  {
    var pair := PairBlock(Classify(env, b.userId, LegOfEvent(b), LegOfEvent(a)), false);
    var rowA := RowFor(env, a, dA);
    PairCompletesBlock(env, a, dA, b.id, pair);
    BlockAnomalyIrrelevant(env, b, Some(a.id), CanaryOf(env, b, a),
        Some(TransferBlock(Some(FlagsOf(env, b)), Some(pair))));
    assert db.rows[a.id := rowA][a.id := ClaimedRow(rowA, b.id, pair)] == db.rows[a.id := ClaimedRow(rowA, b.id, pair)];
  }

  /** What a step does once it has detected a pair. */
  lemma ClaimStep(env: Env, db: Db, e: Event, p: Id, flags: Option<RowBlock>, pair: PairBlock,
                  canary: Option<AnomalyView>)
    requires Processable(env, e) && p in db.rows && e.id !in db.rows && e.id !in db.anomalies
    requires Detect(env, db.rows, e) == Detection(Some(p), canary, Some(TransferBlock(flags, Some(pair))))
    ensures var resolved := DropUnpaired(db.anomalies, {e.id, p});
            Enrich(env, db, e) ==
            Db(db.rows[p := ClaimedRow(db.rows[p], e.id, pair)]
                      [e.id := RowFor(env, e, Detection(Some(p), canary, Some(TransferBlock(flags, Some(pair)))))],
               if canary.Some? then resolved[e.id := canary.value] else resolved)
  {
  }

  /** The stored row does not depend on the anomaly. */
  lemma BlockAnomalyIrrelevant(env: Env, e: Event, partner: Option<Id>, anomaly: Option<AnomalyView>,
                               block: Option<TransferBlock>)
    requires Processable(env, e)
    ensures RowFor(env, e, Detection(partner, anomaly, block)) == RowFor(env, e, Detection(partner, None, block))
  {
  }

  /** Claiming a plainly stored leg gives the row it would have had as the second leg. */
  lemma PairCompletesBlock(env: Env, a: Event, d: Detection, claimant: Id, pair: PairBlock)
    requires Processable(env, a) && d.partner.None? && d.block == Some(TransferBlock(Some(FlagsOf(env, a)), None))
    ensures ClaimedRow(RowFor(env, a, d), claimant, pair)
         == RowFor(env, a, Detection(Some(claimant), None, Some(TransferBlock(Some(FlagsOf(env, a)), Some(pair)))))
  {
  }

  /** Detection reads the table for candidates only, and not at all for an event it does not examine. */
  lemma DetectionReadsCandidates(env: Env, rows: map<Id, Row>, rows': map<Id, Row>, e: Event)
    requires e.id in rows <==> e.id in rows'
    requires Examined(rows, e) && !FlagsOf(env, e).ibanStatus.Unlinked? ==>
             Candidates(env, rows, e) == Candidates(env, rows', e)
    ensures Detect(env, rows, e) == Detect(env, rows', e)
  {
  }

  lemma NotFoundNotCandidate(env: Env, a: Event, rowA: Row, b: Event)
    requires b.source == MONOBANK && b.mcc == Some(WIRE_TRANSFER) && b.direction != Zero
             && !FlagsOf(env, b).ibanStatus.Unlinked?
    requires LegOfRow(rowA) == LegOfEvent(a) && rowA.userId == a.userId && rowA.mcc == a.mcc
    ensures IsCandidate(env, b, rowA) ==> Finds(env, b, a)
  {
  }

  /** A leg that does not find the other is examined as if the other were not there. */
  lemma ApartDetection(env: Env, rows: map<Id, Row>, a: Event, rowA: Row, b: Event)
    requires Alone(env, rows, b) && b.id !in rows && a.id !in rows && a.id != b.id && b.source == MONOBANK
             && !Finds(env, b, a)
    requires LegOfRow(rowA) == LegOfEvent(a) && rowA.userId == a.userId && rowA.mcc == a.mcc
    ensures Detect(env, rows[a.id := rowA], b) == Detect(env, rows, b)
  {
    var after := rows[a.id := rowA];
    if Examined(rows, b) && !FlagsOf(env, b).ibanStatus.Unlinked? {
      NotFoundNotCandidate(env, a, rowA, b);
      assert Alone(env, after, b);
      assert Candidates(env, after, b) == {} && Candidates(env, rows, b) == {};
    }
    DetectionReadsCandidates(env, rows, after, b);
  }

  lemma DeliverApart(env: Env, db: Db, a: Event, b: Event)
    requires a.id !in db.anomalies && b.id !in db.anomalies
    requires Processable(env, a) && Processable(env, b)
    requires a.id != b.id && a.id !in db.rows && b.id !in db.rows
    requires Alone(env, db.rows, a) && Alone(env, db.rows, b)
    requires b.source == MONOBANK && !Finds(env, b, a)
    ensures var dA, dB := Detect(env, db.rows, a), Detect(env, db.rows, b);
            Enrich(env, Enrich(env, db, a), b) == StoredPlain(env, StoredPlain(env, db, a, dA), b, dB)
  {
    var dA := Detect(env, db.rows, a);
    LoneLeg(env, db, a);
    StoredLeg(env, a, dA);
    LoneDetection(env, db.rows, b);
    ApartDetection(env, db.rows, a, RowFor(env, a, dA), b);
    PlainStep(env, StoredPlain(env, db, a, dA), b);
  }

  lemma PlainInsertsCommute(env: Env, db: Db, a: Event, dA: Detection, b: Event, dB: Detection)
    requires Processable(env, a) && Processable(env, b) && a.id != b.id
    ensures StoredPlain(env, StoredPlain(env, db, a, dA), b, dB) == StoredPlain(env, StoredPlain(env, db, b, dB), a, dA)
  {
    SwapInserts(db.rows, a.id, RowFor(env, a, dA), b.id, RowFor(env, b, dB));
    if dA.anomaly.Some? && dB.anomaly.Some? {
      SwapInserts(db.anomalies, a.id, dA.anomaly.value, b.id, dB.anomaly.value);
    }
  }

  /** Same rows, links and metadata; same anomalies, except that a canary sits on whichever leg came second. */
  ghost predicate SameUpToCanaryOwner(x: Db, y: Db, a: Id, b: Id) {
    && x.rows == y.rows
    && (x.anomalies == y.anomalies
        || exists reason: Reason, rest: map<Id, AnomalyView> ::
             && reason.DescriptionConsistencyMismatch? && a !in rest && b !in rest
             && x.anomalies == rest[b := AnomalyView({a}, reason)]
             && y.anomalies == rest[a := AnomalyView({b}, reason)])
  }

  lemma PairedRowsSymmetric(env: Env, db: Db, a: Event, b: Event)
    requires Processable(env, a) && Processable(env, b) && a.id != b.id && a.userId == b.userId
    requires Classify(env, a.userId, LegOfEvent(a), LegOfEvent(b)) ==
             Classify(env, a.userId, LegOfEvent(b), LegOfEvent(a))
    ensures PairedDb(env, db, a, b).rows == PairedDb(env, db, b, a).rows
  {
    var pair := PairBlock(Classify(env, b.userId, LegOfEvent(b), LegOfEvent(a)), false);
    SwapInserts(db.rows,
                a.id, RowFor(env, a,
                    Detection(Some(b.id), None, Some(TransferBlock(Some(FlagsOf(env, a)), Some(pair))))),
                b.id, RowFor(env, b,
                    Detection(Some(a.id), None, Some(TransferBlock(Some(FlagsOf(env, b)), Some(pair))))));
  }

  lemma PairedDbSymmetric(env: Env, db: Db, a: Event, b: Event)
    requires Processable(env, a) && Processable(env, b) && a.id != b.id && a.userId == b.userId
    requires a.id !in db.anomalies && b.id !in db.anomalies
    requires var i, o := LegOfEvent(a), LegOfEvent(b);
             && Classify(env, a.userId, i, o) == Classify(env, a.userId, o, i)
             && DescriptionsConsistent(env, i, o) == DescriptionsConsistent(env, o, i)
             && MismatchReason(env, i, o) == MismatchReason(env, o, i)
    ensures SameUpToCanaryOwner(PairedDb(env, db, a, b), PairedDb(env, db, b, a), a.id, b.id)
  {
    PairedRowsSymmetric(env, db, a, b);
    var x, y := PairedDb(env, db, a, b), PairedDb(env, db, b, a);
    if !DescriptionsConsistent(env, LegOfEvent(b), LegOfEvent(a)) {
      var reason, rest := MismatchReason(env, LegOfEvent(b), LegOfEvent(a)), db.anomalies;
      assert x.anomalies == rest[b.id := AnomalyView({a.id}, reason)];
      assert y.anomalies == rest[a.id := AnomalyView({b.id}, reason)];
    }
  }

  /** The order in which two Monobank legs arrive does not matter when neither has another candidate. */
  lemma ArrivalOrderIrrelevant(env: Env, db: Db, a: Event, b: Event)
    requires Coherent(db) && Processable(env, a) && Processable(env, b)
    requires a.id != b.id && a.id !in db.rows && b.id !in db.rows
    requires Alone(env, db.rows, a) && Alone(env, db.rows, b)
    requires a.source == b.source == MONOBANK && AmountsSymmetric(LegOfEvent(a), LegOfEvent(b))
    ensures SameUpToCanaryOwner(Enrich(env, Enrich(env, db, a), b), Enrich(env, Enrich(env, db, b), a), a.id, b.id)
  {
    FindsIsSymmetric(env, a, b);
    if Finds(env, b, a) {
      DeliverPair(env, db, a, b);
      DeliverPair(env, db, b, a);
      PairedDbSymmetric(env, db, a, b);
    } else {
      ApartInEitherOrder(env, db, a, b);
    }
  }

  /** Legs that do not find each other are stored side by side. */
  lemma ApartInEitherOrder(env: Env, db: Db, a: Event, b: Event)
    requires Coherent(db) && Processable(env, a) && Processable(env, b)
    requires a.id != b.id && a.id !in db.rows && b.id !in db.rows
    requires Alone(env, db.rows, a) && Alone(env, db.rows, b) && a.source == b.source == MONOBANK
    requires !Finds(env, a, b) && !Finds(env, b, a)
    ensures Enrich(env, Enrich(env, db, a), b) == Enrich(env, Enrich(env, db, b), a)
  {
    DeliverApart(env, db, a, b);
    DeliverApart(env, db, b, a);
    PlainInsertsCommute(env, db, a, Detect(env, db.rows, a), b, Detect(env, db.rows, b));
  }

  lemma SwapInserts<T>(m: map<Id, T>, i: Id, x: T, j: Id, y: T)
    requires i != j
    ensures m[i := x][j := y] == m[j := y][i := x]
  {
  }

  /** Two legs that are a transfer but for their amounts: everything a search asks apart from the amount predicate. */
  predicate PairButForAmounts(env: Env, a: Event, b: Event) {
    && a.source == b.source == MONOBANK && a.mcc == b.mcc == Some(WIRE_TRANSFER)
    && a.direction != Zero && b.direction == Opposite(a.direction)
    && a.userId == b.userId && a.accountId != b.accountId
    && -PAIR_WINDOW <= a.time - b.time <= PAIR_WINDOW
    && !FlagsOf(env, a).ibanStatus.Unlinked? && !FlagsOf(env, b).ibanStatus.Unlinked?
    && IsConsistent(env, a.userId, LegOfEvent(a), LegOfEvent(b))
  }

  /** Seen from either leg, the search comes down to the amount predicate. */
  lemma FindsIsAmounts(env: Env, a: Event, b: Event)
    requires a.source == b.source == MONOBANK
    ensures Finds(env, a, b) <==> PairButForAmounts(env, a, b) && AmountMatches(LegOfEvent(a), LegOfEvent(b))
    ensures PairButForAmounts(env, a, b) <==> PairButForAmounts(env, b, a)
  {
  }

  /** The outcomes differ when only the second leg of one order finds the first: there the rows are linked. */
  lemma OneSidedSearchDiverges(env: Env, db: Db, a: Event, b: Event)
    requires Coherent(db) && Processable(env, a) && Processable(env, b)
    requires a.id != b.id && a.id !in db.rows && b.id !in db.rows
    requires Alone(env, db.rows, a) && Alone(env, db.rows, b) && a.source == b.source == MONOBANK
    requires Finds(env, b, a) && !Finds(env, a, b)
    ensures Enrich(env, Enrich(env, db, a), b).rows[a.id].relatedTransactionId == Some(b.id)
    ensures Enrich(env, Enrich(env, db, b), a).rows[a.id].relatedTransactionId == None
    ensures !SameUpToCanaryOwner(Enrich(env, Enrich(env, db, a), b), Enrich(env, Enrich(env, db, b), a), a.id, b.id)
  {
    DeliverPair(env, db, a, b);
    DeliverApart(env, db, b, a);
    LoneLeg(env, db, a);
    PairedRowOf(env, db, a, b);
    PlainRowOf(env, StoredPlain(env, db, b, Detect(env, db.rows, b)), a, Detect(env, db.rows, a));
  }

  lemma PlainRowOf(env: Env, db: Db, e: Event, d: Detection)
    requires Processable(env, e)
    ensures e.id in StoredPlain(env, db, e, d).rows
            && StoredPlain(env, db, e, d).rows[e.id].relatedTransactionId == d.partner
  {
  }

  lemma PairedRowOf(env: Env, db: Db, a: Event, b: Event)
    requires Processable(env, a) && Processable(env, b) && a.id != b.id
    ensures PairedDb(env, db, a, b).rows[a.id].relatedTransactionId == Some(b.id)
  {
  }

  /** When does the order matter? Exactly for two legs that would pair but for their amounts and whose amounts are
      not symmetric: one leg lacks an operation amount, and the other's differs from their common amount. */
  lemma ArrivalOrderIrrelevantIff(env: Env, db: Db, a: Event, b: Event)
    requires Coherent(db) && Processable(env, a) && Processable(env, b)
    requires a.id != b.id && a.id !in db.rows && b.id !in db.rows
    requires Alone(env, db.rows, a) && Alone(env, db.rows, b) && a.source == b.source == MONOBANK
    ensures SameUpToCanaryOwner(Enrich(env, Enrich(env, db, a), b), Enrich(env, Enrich(env, db, b), a), a.id, b.id) <==>
            PairButForAmounts(env, a, b) ==> AmountsSymmetric(LegOfEvent(a), LegOfEvent(b))
  {
    FindsIsAmounts(env, a, b);
    FindsIsAmounts(env, b, a);
    AmountMatchesIsSymmetricIff(LegOfEvent(a), LegOfEvent(b));
    if Finds(env, b, a) && !Finds(env, a, b) {
      OneSidedSearchDiverges(env, db, a, b);
    } else if Finds(env, a, b) && !Finds(env, b, a) {
      OneSidedSearchDiverges(env, db, b, a);
      SameIsSymmetric(Enrich(env, Enrich(env, db, a), b), Enrich(env, Enrich(env, db, b), a), a.id, b.id);
    } else if Finds(env, b, a) {
      ArrivalOrderIrrelevant(env, db, a, b);
    } else {
      ApartInEitherOrder(env, db, a, b);
    }
  }

  lemma SameIsSymmetric(x: Db, y: Db, a: Id, b: Id)
    ensures SameUpToCanaryOwner(x, y, a, b) <==> SameUpToCanaryOwner(y, x, b, a)
  {
  }

  lemma ExampleLeg(id: Id, direction: Direction, operation: Option<int>) returns (e: Event)
    ensures e == Event(id, MONOBANK, "", 0, id, 0, 500, operation, "UAH", None, Some(WIRE_TRANSFER), 0, None, None,
            direction, None, None, None)
  {
    e := Event(id, MONOBANK, "", 0, id, 0, 500, operation, "UAH", None, Some(WIRE_TRANSFER), 0, None, None, direction,
        None, None, None);
  }

  /** Two such events, on an empty table: the expense without an operation amount finds the income, but not the
      other way round. */
  lemma OrderCanMatter() returns (env: Env, a: Event, b: Event)
    ensures a.id != b.id && Processable(env, a) && Processable(env, b)
    ensures var db := Db(map[], map[]);
            !SameUpToCanaryOwner(Enrich(env, Enrich(env, db, a), b), Enrich(env, Enrich(env, db, b), a), a.id, b.id)
  {
    var account, nothing := Account("black", "UAH"), Conversion.Converted(map[], map[]);
    env := Env(map[1 := account, 2 := account], map[], map[], (e, currency) => Some(nothing));
    a := ExampleLeg(1, Expense, None);
    b := ExampleLeg(2, Income, Some(12));
    assert PairButForAmounts(env, a, b) && !AmountsSymmetric(LegOfEvent(a), LegOfEvent(b));
    ArrivalOrderIrrelevantIff(env, Db(map[], map[]), a, b);
  }
}
