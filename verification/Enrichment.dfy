/** One enrichment step: detect a transfer, claim the partner, convert, insert, record anomalies.
    `Enrich` says what a step does to the two tables; `EnrichmentStore.Run` does it in place. */
module Enrichment {
  import opened Common
  import opened Domain
  import opened Descriptions
  import opened Decision
  import Conversion

  const WIRE_TRANSFER := "4829"
  const MONOBANK := "monobank"
  const MANUAL := "manual"
  const PAIR_WINDOW: int := 2 * SECOND

  /** The `transactions` and `transfer_match_anomalies` tables; anomalies up to candidate-id order. */
  datatype Db = Db(rows: map<Id, Row>, anomalies: map<Id, AnomalyView>)

  ghost predicate Keyed(rows: map<Id, Row>) {
    forall id :: id in rows ==> rows[id].id == id
  }

  // ---------------------------------------------------------------- candidates

  function Opposite(d: Direction): Direction {
    if d == Expense then Income else Expense
  }

  /** The two-clause amount predicate. */
  predicate AmountMatches(incoming: Leg, cand: Leg) {
    || cand.amountCents == GetOr(incoming.operationAmountCents, incoming.amountCents)
    || cand.operationAmountCents == Some(incoming.amountCents)
  }

  /** Which amounts match: what one leg was charged abroad is what the other received, or, lacking that, the amounts
      are the same. */
  lemma AmountMatchesIff(incoming: Leg, cand: Leg)
    ensures AmountMatches(incoming, cand) <==>
            || incoming.operationAmountCents == Some(cand.amountCents)
            || cand.operationAmountCents == Some(incoming.amountCents)
            || (incoming.operationAmountCents == None && incoming.amountCents == cand.amountCents)
  {
  }

  /** The WHERE clause of the universal candidate fetch. */
  predicate Eligible(e: Event, r: Row) {
    && r.userId == e.userId
    && r.direction == Opposite(e.direction)
    && r.mcc == Some(WIRE_TRANSFER)
    && r.accountId != e.accountId
    && r.relatedTransactionId.None?
    && AmountMatches(LegOfEvent(e), LegOfRow(r))
    && e.time - PAIR_WINDOW <= r.time <= e.time + PAIR_WINDOW
  }

  predicate IsCandidate(env: Env, e: Event, r: Row) {
    Eligible(e, r) && IsConsistent(env, e.userId, LegOfEvent(e), LegOfRow(r))
  }

  function Score(env: Env, e: Event, leg: Leg): Scored {
    Scored(leg, Classify(env, e.userId, LegOfEvent(e), leg))
  }

  function Candidates(env: Env, rows: map<Id, Row>, e: Event): set<Scored> {
    set id | id in rows && IsCandidate(env, e, rows[id]) :: Score(env, e, LegOfRow(rows[id]))
  }

  // ---------------------------------------------------------------- detection

  /** What transfer detection contributes to the incoming row. */
  datatype Detection = Detection(partner: Option<Id>, anomaly: Option<AnomalyView>, block: Option<TransferBlock>)

  /** Only a Monobank wire transfer with a direction, seen for the first time, is examined. */
  predicate Examined(rows: map<Id, Row>, e: Event) {
    e.source == MONOBANK && e.mcc == Some(WIRE_TRANSFER) && e.direction != Zero && e.id !in rows
  }

  /** An IBAN outside the user's accounts: no partner to look for; an unknown transfer phrase is reported. */
  function UnlinkedReason(flags: RowBlock, description: Option<string>): Option<Reason> {
    if !flags.descriptionMatched && IsTransferDescription(description) then UnpairedReason(description) else None
  }

  function FlagsOf(env: Env, e: Event): RowBlock {
    Flags(env, e.userId, LegOfEvent(e))
  }

  function DetectionOf(flags: RowBlock, verdict: Verdict): Detection {
    match verdict
    case Plain => Detection(None, None, Some(TransferBlock(Some(flags), None)))
    case Reject(a) => Detection(None, Some(a), Some(TransferBlock(Some(flags), None)))
    case Pair(p, evidence, decisive, canary) =>
      Detection(Some(p), canary, Some(TransferBlock(Some(flags), Some(PairBlock(evidence, decisive)))))
  }

  ghost function Detect(env: Env, rows: map<Id, Row>, e: Event): Detection {
    var flags := FlagsOf(env, e);
    if !Examined(rows, e) then Detection(None, None, None)
    else if flags.ibanStatus.Unlinked? then
      var reason := UnlinkedReason(flags, e.description);
      var anomaly := if reason.Some? then Some(AnomalyView({}, reason.value)) else None;
      Detection(None, anomaly, Some(TransferBlock(Some(flags), None)))
    else DetectionOf(flags, Judge(env, LegOfEvent(e), Candidates(env, rows, e)))
  }

  // ---------------------------------------------------------------- row writes

  /** jsonb_set of metadata.layer.transfer.pair, creating what is missing on the way. */
  function WithPair(metadata: Option<Metadata>, pair: PairBlock): Metadata {
    var doc := GetOr(metadata, Metadata(None, None));
    var layer := GetOr(doc.layer, Layer(None, None));
    var transfer := GetOr(layer.transfer, TransferBlock(None, None));
    doc.(layer := Some(layer.(transfer := Some(transfer.(pair := Some(pair))))))
  }

  function ClaimedRow(r: Row, claimant: Id, pair: PairBlock): Row {
    r.(relatedTransactionId := Some(claimant), specialCategory := Some(Transfer),
        metadata := Some(WithPair(r.metadata, pair)))
  }

  /** UPDATE ... WHERE id = existing */
  function ClaimIn(rows: map<Id, Row>, existing: Id, claimant: Id, pair: PairBlock): map<Id, Row> {
    if existing in rows then rows[existing := ClaimedRow(rows[existing], claimant, pair)] else rows
  }

  /** Source metadata passes through; each contributing layer is added under its own key. */
  function BuildMetadata(source: Option<SourceFields>, rate: RateMetadata,
                         transfer: Option<TransferBlock>): Option<Metadata> {
    if rate == map[] && transfer.None? then
      if source.None? then None else Some(Metadata(source, None))
    else
      Some(Metadata(source, Some(Layer(if rate == map[] then None else Some(rate), transfer))))
  }

  function AmountIn(c: Conversion.Converted, currency: string): Option<int> {
    if currency in c.amounts then c.amounts[currency] else None
  }

  function NewRow(e: Event, currency: string, c: Conversion.Converted, partner: Option<Id>,
                  block: Option<TransferBlock>): Row {
    Row(e.id, e.source, e.sourceId, e.userId, e.accountId, e.time, e.amountCents, e.operationAmountCents,
        currency, Some(e.operationCurrencyCode), AmountIn(c, "UAH"), AmountIn(c, "USD"), AmountIn(c, "EUR"),
        e.description, e.mcc, Some(e.cashbackAmountCents), e.balanceCents, e.hold, e.direction,
        if partner.Some? then Some(Transfer) else None, e.counterpartyIban, e.rateSource,
        BuildMetadata(e.metadata, c.rateMetadata, block), if e.source == MANUAL then Manual else Bank, partner)
  }

  /** INSERT ... ON CONFLICT DO NOTHING */
  function InsertNew<T>(table: map<Id, T>, id: Id, value: T): map<Id, T> {
    if id in table then table else table[id := value]
  }

  function DropUnpaired(anomalies: map<Id, AnomalyView>, ids: set<Id>): map<Id, AnomalyView> {
    map id | id in anomalies && !(id in ids && IsUnpaired(anomalies[id].reason)) :: anomalies[id]
  }

  /** Can the event be enriched at all? Otherwise it is skipped (no such account) or keeps failing (bad rate chain). */
  predicate Processable(env: Env, e: Event) {
    e.accountId in env.accounts && env.convert(e, env.accounts[e.accountId].currencyCode).Some?
  }

  /** The row an event is stored as. */
  function RowFor(env: Env, e: Event, d: Detection): Row
    requires Processable(env, e)
  {
    var currency := env.accounts[e.accountId].currencyCode;
    NewRow(e, currency, env.convert(e, currency).value, d.partner, d.block)
  }

  /** A row has metadata exactly if its event had, rates were used or it was examined; a layer exactly in the last
      two cases, with each contribution under its own key. */
  lemma MetadataIff(env: Env, e: Event, d: Detection)
    requires Processable(env, e)
    ensures var rates := env.convert(e, env.accounts[e.accountId].currencyCode).value.rateMetadata;
            var doc := RowFor(env, e, d).metadata;
            && (doc.Some? <==> e.metadata.Some? || rates != map[] || d.block.Some?)
            && (doc.Some? ==>
                doc.value.source == e.metadata && (doc.value.layer.Some? <==> rates != map[] || d.block.Some?))
            && (doc.Some? && doc.value.layer.Some? ==>
                  && doc.value.layer.value.transfer == d.block
                  && doc.value.layer.value.rate == if rates == map[] then None else Some(rates))
  {
  }

  /** The amount is in the currency of the account. */
  lemma CurrencyIsAccounts(env: Env, e: Event, d: Detection)
    requires Processable(env, e)
    ensures RowFor(env, e, d).currencyCode == env.accounts[e.accountId].currencyCode
  {
  }

  /** Only what a user entered by hand counts as manual. */
  lemma ManualIffEntered(env: Env, e: Event, d: Detection)
    requires Processable(env, e)
    ensures RowFor(env, e, d).origin == Manual <==> e.source == "manual"
    ensures RowFor(env, e, d).origin == Bank <==> e.source != "manual"
  {
  }

  /** Claiming the detected partner and dropping the unpaired anomalies of both legs. */
  ghost function AfterDetection(db: Db, id: Id, d: Detection): Db
    requires d.partner.Some? ==> d.block.Some? && d.block.value.pair.Some?
  {
    if d.partner.Some?
    then Db(ClaimIn(db.rows, d.partner.value, id, d.block.value.pair.value),
        DropUnpaired(db.anomalies, {id, d.partner.value}))
    else db
  }

  ghost function Enrich(env: Env, db: Db, e: Event): Db {
    if !Processable(env, e) then db
    else
      var d := Detect(env, db.rows, e);
      var mid := AfterDetection(db, e.id, d);
      Db(InsertNew(mid.rows, e.id, RowFor(env, e, d)),
         if d.anomaly.Some? then InsertNew(mid.anomalies, e.id, d.anomaly.value) else mid.anomalies)
  }

  /** Consuming a sequence of events one by one. */
  ghost function Consume(env: Env, db: Db, events: seq<Event>): Db {
    if events == [] then db
    else Enrich(env, Consume(env, db, events[..|events| - 1]), events[|events| - 1])
  }

  /** A detected partner is an eligible, consistent, stored row other than the incoming one. */
  lemma PartnerIsCandidate(env: Env, rows: map<Id, Row>, e: Event)
    requires Keyed(rows) && Detect(env, rows, e).partner.Some?
    ensures var d := Detect(env, rows, e);
            && Examined(rows, e)
            && d.partner.value in rows && IsCandidate(env, e, rows[d.partner.value])
            && d.block.Some? && d.block.value.pair.Some?
            && (d.anomaly.Some? ==> !IsUnpaired(d.anomaly.value.reason))
  {
    var cands := Candidates(env, rows, e);
    var p := Detect(env, rows, e).partner.value;
    assert exists c :: c in cands && c.leg.id == p by {
      if |cands| == 1 {
      } else {
        var l :| l in Agreeing(env, LegOfEvent(e), BucketOf(cands)) && l.id == p;
      }
    }
  }

  /** Any table that resolves the two legs' own IBANs as the full one does will do. */
  lemma LookupSuffices(env: Env, user: Id, lookup: map<string, Id>, a: Leg, b: Leg)
    requires Resolve(lookup, a.counterpartyIban) == Resolve(UserIbans(env, user), a.counterpartyIban)
    requires Resolve(lookup, b.counterpartyIban) == Resolve(UserIbans(env, user), b.counterpartyIban)
    ensures SurvivesFilter(env.phrases, lookup, a, b) <==> IsConsistent(env, user, a, b)
    ensures PairEvidence(env.phrases, lookup, a, b) == Classify(env, user, a, b)
  {
  }

  /** The incoming IBAN and the candidates', resolved separately, resolve each leg as the full table does. */
  lemma MergedLookupResolves(env: Env, user: Id, own: map<string, Id>, others: map<string, Id>, iban: Option<string>)
    requires forall i :: i in own ==> i in UserIbans(env, user) && own[i] == UserIbans(env, user)[i]
    requires forall i :: i in others ==> i in UserIbans(env, user) && others[i] == UserIbans(env, user)[i]
    requires iban.Some? && iban.value in UserIbans(env, user) ==> iban.value in own || iban.value in others
    ensures Resolve(own + others, iban) == Resolve(UserIbans(env, user), iban)
  {
  }

  /** The scoring loop takes one more leg. */
  lemma ScoredNext(env: Env, e: Event, legs: seq<Leg>, i: nat, scored: seq<Scored>)
    requires DistinctLegs(legs) && i < |legs| && DistinctIds(scored) && ScoredFrom(env, e, legs[..i], scored)
    ensures var next := if IsConsistent(env, e.userId, LegOfEvent(e), legs[i])
            then scored + [Score(env, e, legs[i])] else scored;
            DistinctIds(next) && ScoredFrom(env, e, legs[..i + 1], next)
  {
    assert legs[..i + 1] == legs[..i] + [legs[i]];
    forall c | c in scored ensures c.leg.id != legs[i].id {
      var j :| 0 <= j < i && legs[j] == c.leg;
    }
  }

  /** A row's flags need only its own IBAN resolved. */
  lemma FlagsNeedOwnIban(env: Env, e: Event, lookup: map<string, Id>)
    requires forall iban :: iban in lookup <==> e.counterpartyIban == Some(iban) && iban in UserIbans(env, e.userId)
    requires forall iban :: iban in lookup ==> lookup[iban] == UserIbans(env, e.userId)[iban]
    ensures Resolve(lookup, e.counterpartyIban) == Resolve(UserIbans(env, e.userId), e.counterpartyIban)
    ensures RowFlags(env.phrases, lookup, LegOfEvent(e)) == FlagsOf(env, e)
  {
  }

  /** The scored list holds the consistent ones of the legs, with their evidence. */
  ghost predicate ScoredFrom(env: Env, e: Event, legs: seq<Leg>, scored: seq<Scored>) {
    forall c :: c in scored <==>
      c.leg in legs && IsConsistent(env, e.userId, LegOfEvent(e), c.leg) && c == Score(env, e, c.leg)
  }

  /** The scored legs are the candidates of the specification. */
  lemma ScoredAreCandidates(env: Env, rows: map<Id, Row>, e: Event, legs: seq<Leg>, scored: seq<Scored>)
    requires forall l :: l in legs <==> exists id :: id in rows && Eligible(e, rows[id]) && LegOfRow(rows[id]) == l
    requires ScoredFrom(env, e, legs, scored)
    ensures SetOf(scored) == Candidates(env, rows, e)
  {
    forall c | c in SetOf(scored) ensures c in Candidates(env, rows, e) {
      var id :| id in rows && Eligible(e, rows[id]) && LegOfRow(rows[id]) == c.leg;
      assert IsCandidate(env, e, rows[id]);
    }
    forall c | c in Candidates(env, rows, e) ensures c in SetOf(scored) {
      var id :| id in rows && IsCandidate(env, e, rows[id]) && c == Score(env, e, LegOfRow(rows[id]));
      assert LegOfRow(rows[id]) in legs;
    }
  }

  // ---------------------------------------------------------------- the step, in place

  datatype TransferResult = TransferResult(
    specialCategory: Option<SpecialCategory>,
    relatedTransactionId: Option<Id>,
    anomalies: seq<AnomalyRecord>,
    metadataBlock: Option<TransferBlock>)

  predicate RecordsAbout(decision: Decision, id: Id) {
    match decision
    case Claim(_, _, _, canary) => canary.Some? ==> canary.value.transactionId == id
    case Anomaly(record) => record.transactionId == id
    case Skip => true
  }

  lemma RecordsAreAboutIncoming(env: Env, incoming: Leg, cands: seq<Scored>)
    ensures RecordsAbout(Decide(env, incoming, cands), incoming.id)
  {
  }

  ghost predicate Matches(r: TransferResult, d: Detection) {
    && r.relatedTransactionId == d.partner
    && r.specialCategory == (if d.partner.Some? then Some(Transfer) else None)
    && r.metadataBlock == d.block
    && |r.anomalies| == (if d.anomaly.Some? then 1 else 0)
    && (d.anomaly.Some? ==> ViewRecord(r.anomalies[0]) == d.anomaly.value)
  }

  class EnrichmentStore {
    var rows: map<Id, Row>
    var anomalies: map<Id, AnomalyRecord>

    constructor ()
      ensures View() == Db(map[], map[]) && Keyed(rows)
    {
      rows, anomalies := map[], map[];
    }

    ghost function View(): Db
      reads this
    {
      Db(rows, map id | id in anomalies :: ViewRecord(anomalies[id]))
    }

    /** The rows come back in no particular order. */
    method FindUniversalCandidates(e: Event) returns (legs: seq<Leg>)
      requires Keyed(rows)
      ensures DistinctLegs(legs)
      ensures forall l :: l in legs <==> exists id :: id in rows && Eligible(e, rows[id]) && LegOfRow(rows[id]) == l
    {
      legs := [];
      var pending := set id | id in rows && Eligible(e, rows[id]);
      while pending != {}
        invariant DistinctLegs(legs)
        invariant forall id :: id in pending ==> id in rows && Eligible(e, rows[id])
        invariant forall l :: l in legs ==>
                  l.id !in pending && l.id in rows && Eligible(e, rows[l.id]) && LegOfRow(rows[l.id]) == l
        invariant forall id :: id in rows && Eligible(e, rows[id]) ==> id in pending || LegOfRow(rows[id]) in legs
        decreases pending
      {
        var id :| id in pending;
        pending := pending - {id};
        legs := legs + [LegOfRow(rows[id])];
      }
    }

    /** Looks up each IBAN once; those of no linked account stay out. */
    method BatchResolveIbans(env: Env, user: Id, ibans: set<string>) returns (found: map<string, Id>)
      requires "" !in ibans
      ensures forall iban :: iban in found <==> iban in ibans && iban in UserIbans(env, user)
      ensures forall iban :: iban in found ==> found[iban] == UserIbans(env, user)[iban]
    {
      found := map[];
      var pending := ibans;
      while pending != {}
        invariant pending <= ibans
        invariant forall iban :: iban in found <==> iban in ibans - pending && iban in UserIbans(env, user)
        invariant forall iban :: iban in found ==> found[iban] == UserIbans(env, user)[iban]
        decreases pending
      {
        var iban :| iban in pending;
        pending := pending - {iban};
        if (user, iban) in env.ibans {
          found := found[iban := env.ibans[(user, iban)]];
        }
      }
    }

    method ResolveIncoming(env: Env, e: Event) returns (found: map<string, Id>)
      ensures Resolve(found, e.counterpartyIban) == Resolve(UserIbans(env, e.userId), e.counterpartyIban)
      ensures RowFlags(env.phrases, found, LegOfEvent(e)) == FlagsOf(env, e)
      ensures forall iban :: iban in found ==>
              iban in UserIbans(env, e.userId) && found[iban] == UserIbans(env, e.userId)[iban]
    {
      var own: set<string> := if e.counterpartyIban.Some? && e.counterpartyIban.value != ""
          then {e.counterpartyIban.value} else {};
      found := BatchResolveIbans(env, e.userId, own);
      FlagsNeedOwnIban(env, e, found);
    }

    /** The incoming row's resolved IBAN is reused; the candidates' are resolved in one batch. */
    method FilterAndClassify(env: Env, e: Event, legs: seq<Leg>, incomingIbans: map<string, Id>)
      returns (scored: seq<Scored>)
      requires DistinctLegs(legs)
      requires Resolve(incomingIbans, e.counterpartyIban) == Resolve(UserIbans(env, e.userId), e.counterpartyIban)
      requires forall iban :: iban in incomingIbans ==>
               iban in UserIbans(env, e.userId) && incomingIbans[iban] == UserIbans(env, e.userId)[iban]
      ensures DistinctIds(scored) && ScoredFrom(env, e, legs, scored)
    {
      scored := [];
      if legs == [] {
        return;
      }
      var candidateIbans := set l | l in legs && l.counterpartyIban.Some?
          && l.counterpartyIban.value != "" :: l.counterpartyIban.value;
      var resolved := BatchResolveIbans(env, e.userId, candidateIbans);
      var lookup := incomingIbans + resolved;
      MergedLookupResolves(env, e.userId, incomingIbans, resolved, e.counterpartyIban);
      for i := 0 to |legs|
        invariant DistinctIds(scored) && ScoredFrom(env, e, legs[..i], scored)
      {
        MergedLookupResolves(env, e.userId, incomingIbans, resolved, legs[i].counterpartyIban);
        LookupSuffices(env, e.userId, lookup, LegOfEvent(e), legs[i]);
        ScoredNext(env, e, legs, i, scored);
        if SurvivesFilter(env.phrases, lookup, LegOfEvent(e), legs[i]) {
          scored := scored + [Scored(legs[i], PairEvidence(env.phrases, lookup, LegOfEvent(e), legs[i]))];
        }
      }
      assert legs[..|legs|] == legs;
    }

    method ClaimPair(existing: Id, claimant: Id, pair: PairBlock)
      modifies this`rows
      ensures rows == ClaimIn(old(rows), existing, claimant, pair)
    {
      if existing in rows {
        rows := rows[existing := ClaimedRow(rows[existing], claimant, pair)];
      }
    }

    method DeleteUnpairedAnomalies(ids: set<Id>)
      modifies this`anomalies
      ensures View().anomalies == DropUnpaired(old(View()).anomalies, ids)
    {
      anomalies := map id | id in anomalies && !(id in ids && IsUnpaired(anomalies[id].reason)) :: anomalies[id];
    }

    method RecordAnomaly(record: AnomalyRecord)
      modifies this`anomalies
      ensures View().anomalies == InsertNew(old(View()).anomalies, record.transactionId, ViewRecord(record))
    {
      anomalies := InsertNew(anomalies, record.transactionId, record);
    }

    method DetectAndPair(env: Env, e: Event) returns (result: TransferResult)
      requires Keyed(rows)
      modifies this
      ensures var before := old(View());
              var d := Detect(env, before.rows, e);
              && Matches(result, d)
              && (forall a :: a in result.anomalies ==> a.transactionId == e.id)
              && View() == AfterDetection(before, e.id, d)
    {
      if e.mcc != Some(WIRE_TRANSFER) || e.direction == Zero || e.source != MONOBANK {
        return TransferResult(None, None, [], None);
      }
      if e.id in rows {
        return TransferResult(None, None, [], None);
      }
      var incomingIbans := ResolveIncoming(env, e);
      var flags := RowFlags(env.phrases, incomingIbans, LegOfEvent(e));
      if flags.ibanStatus.Unlinked? {
        result := HandleUnlinked(e, flags);
        return;
      }
      var decision := DecideIncoming(env, e, incomingIbans);
      result := ApplyDecision(e, decision, flags);
    }

    /** Fetch, filter, classify, decide. */
    method DecideIncoming(env: Env, e: Event, incomingIbans: map<string, Id>) returns (decision: Decision)
      requires Keyed(rows)
      requires Resolve(incomingIbans, e.counterpartyIban) == Resolve(UserIbans(env, e.userId), e.counterpartyIban)
      requires forall iban :: iban in incomingIbans ==>
               iban in UserIbans(env, e.userId) && incomingIbans[iban] == UserIbans(env, e.userId)[iban]
      ensures ViewDecision(decision) == Judge(env, LegOfEvent(e), Candidates(env, rows, e))
      ensures RecordsAbout(decision, e.id)
    {
      var legs := FindUniversalCandidates(e);
      var scored := FilterAndClassify(env, e, legs, incomingIbans);
      decision := Decide(env, LegOfEvent(e), scored);
      DecideIsJudge(env, LegOfEvent(e), scored);
      RecordsAreAboutIncoming(env, LegOfEvent(e), scored);
      ScoredAreCandidates(env, rows, e, legs, scored);
    }

    method HandleUnlinked(e: Event, flags: RowBlock) returns (result: TransferResult)
      ensures result.relatedTransactionId.None? && result.specialCategory.None?
      ensures result.metadataBlock == Some(TransferBlock(Some(flags), None))
      ensures result.anomalies == match UnlinkedReason(flags, e.description)
                                  case None => []
                                  case Some(r) => [AnomalyRecord(e.id, [], r)]
    {
      var found: seq<AnomalyRecord> := [];
      if !flags.descriptionMatched && IsTransferDescription(e.description) {
        if FROM_PREFIX <= e.description.value {
          found := found + [AnomalyRecord(e.id, [], UnpairedFromDescription(e.description.value))];
        } else if TO_PREFIX <= e.description.value {
          found := found + [AnomalyRecord(e.id, [], UnpairedToDescription(e.description.value))];
        }
      }
      return TransferResult(None, None, found, Some(TransferBlock(Some(flags), None)));
    }

    method ApplyDecision(e: Event, decision: Decision, flags: RowBlock) returns (result: TransferResult)
      modifies this
      ensures Matches(result, DetectionOf(flags, ViewDecision(decision)))
      ensures RecordsAbout(decision, e.id) ==> forall a :: a in result.anomalies ==> a.transactionId == e.id
      ensures View() == AfterDetection(old(View()), e.id, DetectionOf(flags, ViewDecision(decision)))
    {
      match decision {
        case Skip => return TransferResult(None, None, [], Some(TransferBlock(Some(flags), None)));
        case Anomaly(record) => return TransferResult(None, None, [record], Some(TransferBlock(Some(flags), None)));
        case Claim(partnerId, evidence, decisive, canary) =>
          var pair := PairBlock(evidence, decisive);
          ClaimPair(partnerId, e.id, pair);
          DeleteUnpairedAnomalies({e.id, partnerId});
          var found: seq<AnomalyRecord> := [];
          if canary.Some? {
            found := found + [canary.value];
          }
          return TransferResult(Some(Transfer), Some(partnerId), found, Some(TransferBlock(Some(flags), Some(pair))));
      }
    }

    /** `EnrichmentOrchestrator.run` inside the consumer's transaction: all of it, or nothing. */
    method Run(env: Env, e: Event)
      requires Keyed(rows)
      modifies this
      ensures View() == Enrich(env, old(View()), e)
      ensures Keyed(rows)
    {
      if e.accountId !in env.accounts {
        return;
      }
      var currency := env.accounts[e.accountId].currencyCode;
      var conversion := env.convert(e, currency);
      if conversion.None? {
        return;
      }
      ghost var before, found := View(), Detect(env, rows, e);
      var result := DetectAndPair(env, e);
      var row := NewRow(e, currency, conversion.value, result.relatedTransactionId, result.metadataBlock);
      Persist(row, result.anomalies);
      assert View() == Enrich(env, before, e);
    }

    /** Insert the row, then its anomaly if there is one. */
    method Persist(row: Row, records: seq<AnomalyRecord>)
      requires |records| <= 1
      modifies this
      ensures rows == InsertNew(old(rows), row.id, row)
      ensures View().anomalies == if records == [] then old(View()).anomalies
                                  else InsertNew(old(View()).anomalies, records[0].transactionId,
                                      ViewRecord(records[0]))
    {
      rows := InsertNew(rows, row.id, row);
      for i := 0 to |records|
        invariant rows == InsertNew(old(rows), row.id, row)
        invariant View().anomalies == if i == 0 then old(View()).anomalies
                                      else InsertNew(old(View()).anomalies, records[0].transactionId,
                                          ViewRecord(records[0]))
      {
        RecordAnomaly(records[i]);
      }
    }
  }
}
