/** Which of several candidate rows, if any, is the other leg of an incoming transfer row. */
module Decision {
  import opened Common
  import opened Domain
  import opened Descriptions
  import Conversion

  datatype Account = Account(accountType: string, currencyCode: string)

  /** What stays fixed while transactions are enriched: the accounts, the user's IBANs (each resolving to one
      account), the known phrases, and currency conversion, which fails on a misconfigured chain. */
  datatype Env = Env(
    accounts: map<Id, Account>,
    ibans: map<(Id, string), Id>,
    phrases: Phrases,
    convert: (Event, string) -> Option<Conversion.Converted>)

  /** The columns the decision reads from either leg. */
  datatype Leg = Leg(
    id: Id,
    accountId: Id,
    direction: Direction,
    counterpartyIban: Option<string>,
    description: Option<string>,
    amountCents: int,
    operationAmountCents: Option<int>,
    time: int)

  function LegOfEvent(e: Event): Leg {
    Leg(e.id, e.accountId, e.direction, e.counterpartyIban, e.description, e.amountCents, e.operationAmountCents,
        e.time)
  }

  function LegOfRow(r: Row): Leg {
    Leg(r.id, r.accountId, r.direction, r.counterpartyIban, r.description, r.amountCents, r.operationAmountCents,
        r.time)
  }

  /** Every account of a stored row exists, by foreign key; the default is never used. */
  function AccountOf(env: Env, id: Id): Account {
    if id in env.accounts then env.accounts[id] else Account("?", "?")
  }

  // ---------------------------------------------------------------- row flags and IBAN evidence

  /** The user's linked IBANs; an empty IBAN is never looked up. */
  function UserIbans(env: Env, user: Id): map<string, Id> {
    map k | k in env.ibans && k.0 == user && k.1 != "" :: k.1 := env.ibans[k]
  }

  /** The account an IBAN resolves to, under a table of resolved IBANs. */
  function Resolve(lookup: map<string, Id>, iban: Option<string>): Option<Id> {
    if iban.Some? && iban.value in lookup then Some(lookup[iban.value]) else None
  }

  function ClassifyIban(direction: Direction, iban: Option<string>, multiHop: bool, resolved: Option<Id>): IbanStatus {
    if iban.None? then NoIban
    else if direction == Expense && multiHop then Transitive
    else if resolved.None? then Unlinked
    else Honest
  }

  function RowFlags(phrases: Phrases, lookup: map<string, Id>, leg: Leg): RowBlock {
    var multiHop := IsMultiHop(phrases, leg.description);
    RowBlock(ParseDescription(phrases, leg.description).Some?, multiHop,
             ClassifyIban(leg.direction, leg.counterpartyIban, multiHop, Resolve(lookup, leg.counterpartyIban)))
  }

  predicate PointsAt(lookup: map<string, Id>, leg: Leg, other: Leg) {
    Resolve(lookup, leg.counterpartyIban) == Some(other.accountId)
  }

  /** The hard IBAN filter. */
  predicate SurvivesFilter(phrases: Phrases, lookup: map<string, Id>, incoming: Leg, cand: Leg) {
    var i, c := RowFlags(phrases, lookup, incoming).ibanStatus, RowFlags(phrases, lookup, cand).ibanStatus;
    && (i.Honest? ==> PointsAt(lookup, incoming, cand))
    && (c.Honest? || c.Unlinked? ==> PointsAt(lookup, cand, incoming))
  }

  predicate SideClaims(phrases: Phrases, lookup: map<string, Id>, leg: Leg, other: Leg) {
    RowFlags(phrases, lookup, leg).ibanStatus.Honest? && PointsAt(lookup, leg, other)
  }

  function PairEvidence(phrases: Phrases, lookup: map<string, Id>, incoming: Leg, cand: Leg): Evidence {
    var a, b := SideClaims(phrases, lookup, incoming, cand), SideClaims(phrases, lookup, cand, incoming);
    if a && b then Bilateral else if a || b then Unilateral else NoEvidence
  }

  /** The same three, with every IBAN of the user resolvable. */
  function Flags(env: Env, user: Id, leg: Leg): RowBlock {
    RowFlags(env.phrases, UserIbans(env, user), leg)
  }

  predicate IsConsistent(env: Env, user: Id, incoming: Leg, cand: Leg) {
    SurvivesFilter(env.phrases, UserIbans(env, user), incoming, cand)
  }

  function Classify(env: Env, user: Id, incoming: Leg, cand: Leg): Evidence {
    PairEvidence(env.phrases, UserIbans(env, user), incoming, cand)
  }

  /** Does the IBAN belong to an account that the user has linked? */
  predicate Linked(env: Env, user: Id, iban: string) {
    iban != "" && (user, iban) in env.ibans
  }

  /** What the flags of a row say about its description and its IBAN. A multi-hop expense names the account the money
      passes through, so its IBAN is not held against anybody. */
  lemma FlagsMean(env: Env, user: Id, leg: Leg)
    ensures var f := Flags(env, user, leg);
            var throughOther := leg.direction == Expense && f.multiHop;
            && (f.descriptionMatched <==>
                  leg.description.Some? && leg.description.value != "" && leg.description.value in env.phrases)
            && (f.multiHop <==> IsMultiHop(env.phrases, leg.description))
            && (f.ibanStatus == NoIban <==> leg.counterpartyIban.None?)
            && (f.ibanStatus == Transitive <==> leg.counterpartyIban.Some? && throughOther)
            && (f.ibanStatus == Honest <==>
                  leg.counterpartyIban.Some? && !throughOther && Linked(env, user, leg.counterpartyIban.value))
            && (f.ibanStatus == Unlinked <==>
                  leg.counterpartyIban.Some? && !throughOther && !Linked(env, user, leg.counterpartyIban.value))
  {
  }

  /** And a believed IBAN points at the account it is registered for. */
  lemma PointsAtRegistered(env: Env, user: Id, leg: Leg, other: Leg)
    ensures PointsAt(UserIbans(env, user), leg, other) <==>
            && leg.counterpartyIban.Some? && Linked(env, user, leg.counterpartyIban.value)
            && env.ibans[(user, leg.counterpartyIban.value)] == other.accountId
  {
  }

  /** A candidate is dropped exactly when its IBAN leads outside, or a believed IBAN of either leg is registered for
      another account than the other leg's. */
  lemma DroppedIff(env: Env, user: Id, incoming: Leg, cand: Leg)
    ensures var i, c := Flags(env, user, incoming).ibanStatus, Flags(env, user, cand).ibanStatus;
            !IsConsistent(env, user, incoming, cand) <==>
              || c == Unlinked
              || (i == Honest && env.ibans[(user, incoming.counterpartyIban.value)] != cand.accountId)
              || (c == Honest && env.ibans[(user, cand.counterpartyIban.value)] != incoming.accountId)
  {
    FlagsMean(env, user, incoming);
    FlagsMean(env, user, cand);
  }

  /** What the filter leaves never contradicts a claim, so the evidence of a survivor is the number of legs whose
      IBAN is to be believed. */
  lemma EvidenceCountsHonestLegs(phrases: Phrases, lookup: map<string, Id>, incoming: Leg, cand: Leg)
    requires SurvivesFilter(phrases, lookup, incoming, cand)
    ensures var i, c := RowFlags(phrases, lookup, incoming).ibanStatus, RowFlags(phrases, lookup, cand).ibanStatus;
            && !c.Unlinked?
            && PairEvidence(phrases, lookup, incoming, cand) ==
               (if i.Honest? && c.Honest? then Bilateral else if i.Honest? || c.Honest? then Unilateral else NoEvidence)
  {
  }

  // ---------------------------------------------------------------- descriptions of a pair

  /** (income leg, expense leg), routed by the partner's direction. */
  function SplitByDirection(incoming: Leg, partner: Leg): (Leg, Leg) {
    if partner.direction == Income then (partner, incoming) else (incoming, partner)
  }

  predicate DescriptionsConsistent(env: Env, incoming: Leg, partner: Leg) {
    var (income, expense) := SplitByDirection(incoming, partner);
    var incomeAcc, expenseAcc := AccountOf(env, income.accountId), AccountOf(env, expense.accountId);
    || (ParseDescription(env.phrases, income.description).None?
        && ParseDescription(env.phrases, expense.description).None?)
    || ValidatePair(env.phrases, income.description, expense.description,
                    incomeAcc.accountType, incomeAcc.currencyCode, expenseAcc.accountType, expenseAcc.currencyCode)
  }

  /** A known phrase names the type and currency of the account on the other side; nothing else says anything. */
  predicate Names(env: Env, description: Option<string>, account: Account) {
    description.Some? && description.value != "" && description.value in env.phrases ==>
      var named := env.phrases[description.value];
      && (named.accountType.None? || named.accountType == Some(account.accountType))
      && (named.currency.None? || named.currency == Some(account.currencyCode))
  }

  /** The descriptions agree exactly when each names the other leg's account, whichever leg is the income. */
  lemma ConsistentIffNamed(env: Env, a: Leg, b: Leg)
    ensures DescriptionsConsistent(env, a, b) <==>
            Names(env, a.description, AccountOf(env, b.accountId))
                && Names(env, b.description, AccountOf(env, a.accountId))
  {
  }

  // ---------------------------------------------------------------- anomalies

  /** reason_code together with what reason_detail is formatted from. */
  datatype Reason =
    | UnpairedFromDescription(description: string)
    | UnpairedToDescription(description: string)
    | DescriptionConsistencyMismatch(income: Option<string>, expense: Option<string>, incomeAcc: Account,
        expenseAcc: Account)
    | DescriptionAccountMismatch(incoming: Option<string>, rejected: nat, evidence: Evidence)
    | AmbiguousPairMatch(evidence: Evidence, bucket: nat, surviving: nat)

  predicate IsUnpaired(r: Reason) {
    r.UnpairedFromDescription? || r.UnpairedToDescription?
  }

  datatype AnomalyRecord = AnomalyRecord(transactionId: Id, candidateIds: seq<Id>, reason: Reason)

  datatype Decision =
    | Claim(partnerId: Id, evidence: Evidence, descriptionDecisive: bool, canary: Option<AnomalyRecord>)
    | Anomaly(record: AnomalyRecord)
    | Skip

  /** A candidate that survived the IBAN filter, with its evidence level. */
  datatype Scored = Scored(leg: Leg, evidence: Evidence)

  function MismatchReason(env: Env, incoming: Leg, partner: Leg): Reason {
    var (income, expense) := SplitByDirection(incoming, partner);
    DescriptionConsistencyMismatch(income.description, expense.description,
                                   AccountOf(env, income.accountId), AccountOf(env, expense.accountId))
  }

  /** A mismatch report tells the income's side from the expense's. */
  lemma MismatchTellsSides(env: Env, a: Leg, b: Leg)
    requires {a.direction, b.direction} == {Income, Expense}
    ensures var income, expense := if a.direction == Income then a else b, if a.direction == Income then b else a;
            MismatchReason(env, a, b) == DescriptionConsistencyMismatch(income.description, expense.description,
              AccountOf(env, income.accountId), AccountOf(env, expense.accountId))
  {
  }

  function UnpairedReason(d: Option<string>): Option<Reason> {
    if d.None? || d.value == "" then None
    else if FROM_PREFIX <= d.value then Some(UnpairedFromDescription(d.value))
    else if TO_PREFIX <= d.value then Some(UnpairedToDescription(d.value))
    else None
  }

  // ---------------------------------------------------------------- decide, on the fetched list

  function InBucket(cands: seq<Scored>, level: Evidence): seq<Leg> {
    if cands == [] then []
    else
      var before := InBucket(cands[..|cands| - 1], level);
      var c := cands[|cands| - 1];
      if c.evidence == level then before + [c.leg] else before
  }

  /** The highest non-empty evidence bucket; never fall through to a lower one. */
  function SelectBucket(cands: seq<Scored>): (Evidence, seq<Leg>) {
    if InBucket(cands, Bilateral) != [] then (Bilateral, InBucket(cands, Bilateral))
    else if InBucket(cands, Unilateral) != [] then (Unilateral, InBucket(cands, Unilateral))
    else (NoEvidence, InBucket(cands, NoEvidence))
  }

  function Survivors(env: Env, incoming: Leg, bucket: seq<Leg>): seq<Leg> {
    if bucket == [] then []
    else
      var before := Survivors(env, incoming, bucket[..|bucket| - 1]);
      var leg := bucket[|bucket| - 1];
      if DescriptionsConsistent(env, incoming, leg) then before + [leg] else before
  }

  function IdsOf(legs: seq<Leg>): seq<Id> {
    seq(|legs|, i requires 0 <= i < |legs| => legs[i].id)
  }

  function DecideSingle(env: Env, incoming: Leg, partner: Leg, evidence: Evidence,
                        descriptionDecisive: bool): Decision {
    Claim(partner.id, evidence, descriptionDecisive,
          if DescriptionsConsistent(env, incoming, partner) then None
          else Some(AnomalyRecord(incoming.id, [partner.id], MismatchReason(env, incoming, partner))))
  }

  function DecideMany(env: Env, incoming: Leg, cands: seq<Scored>): Decision {
    var (level, bucket) := SelectBucket(cands);
    var survivors := Survivors(env, incoming, bucket);
    if |survivors| == 1 then DecideSingle(env, incoming, survivors[0], level, |bucket| > |survivors|)
    else if |survivors| == 0 && level.NoEvidence? then
      Anomaly(AnomalyRecord(incoming.id, IdsOf(bucket),
          DescriptionAccountMismatch(incoming.description, |bucket|, level)))
    else
      Anomaly(AnomalyRecord(incoming.id, IdsOf(bucket), AmbiguousPairMatch(level, |bucket|, |survivors|)))
  }

  function Decide(env: Env, incoming: Leg, cands: seq<Scored>): Decision {
    if |cands| == 0 then
      var reason := UnpairedReason(incoming.description);
      if reason.None? then Skip else Anomaly(AnomalyRecord(incoming.id, [], reason.value))
    else if |cands| == 1 then DecideSingle(env, incoming, cands[0].leg, cands[0].evidence, false)
    else DecideMany(env, incoming, cands)
  }

  // ---------------------------------------------------------------- the same decision, on the set of candidates

  /** An anomaly up to the order of its candidate ids. */
  datatype AnomalyView = AnomalyView(candidates: set<Id>, reason: Reason)

  datatype Verdict =
    | Pair(partnerId: Id, evidence: Evidence, descriptionDecisive: bool, canary: Option<AnomalyView>)
    | Reject(anomaly: AnomalyView)
    | Plain

  function ViewRecord(r: AnomalyRecord): AnomalyView {
    AnomalyView((set id | id in r.candidateIds), r.reason)
  }

  function ViewDecision(d: Decision): Verdict {
    match d
    case Claim(p, e, dd, canary) => Pair(p, e, dd, if canary.Some? then Some(ViewRecord(canary.value)) else None)
    case Anomaly(record) => Reject(ViewRecord(record))
    case Skip => Plain
  }

  function TopLevel(cands: set<Scored>): Evidence {
    if exists c :: c in cands && c.evidence.Bilateral? then Bilateral
    else if exists c :: c in cands && c.evidence.Unilateral? then Unilateral
    else NoEvidence
  }

  function LegsAt(cands: set<Scored>, level: Evidence): set<Leg> {
    set c | c in cands && c.evidence == level :: c.leg
  }

  function BucketOf(cands: set<Scored>): set<Leg> {
    LegsAt(cands, TopLevel(cands))
  }

  function Agreeing(env: Env, incoming: Leg, legs: set<Leg>): set<Leg> {
    set l | l in legs && DescriptionsConsistent(env, incoming, l)
  }

  /** Bucket-locked: only the highest evidence level present is considered, and within it the descriptions
      must leave exactly one leg, unless there was a single candidate to begin with. */
  ghost function Judge(env: Env, incoming: Leg, cands: set<Scored>): Verdict {
    var bucket := BucketOf(cands);
    var agreeing := Agreeing(env, incoming, bucket);
    var level := TopLevel(cands);
    if cands == {} then
      var reason := UnpairedReason(incoming.description);
      if reason.None? then Plain else Reject(AnomalyView({}, reason.value))
    else if |cands| == 1 then
      var c :| c in cands;
      Pair(c.leg.id, c.evidence, false,
           if DescriptionsConsistent(env, incoming, c.leg) then None
           else Some(AnomalyView({c.leg.id}, MismatchReason(env, incoming, c.leg))))
    else if |agreeing| == 1 then
      var l :| l in agreeing;
      Pair(l.id, level, |bucket| > 1, None)
    else
      Reject(AnomalyView((set l | l in bucket :: l.id),
                         if agreeing == {} && level.NoEvidence?
                         then DescriptionAccountMismatch(incoming.description, |bucket|, level)
                         else AmbiguousPairMatch(level, |bucket|, |agreeing|)))
  }

  ghost predicate DistinctIds(cands: seq<Scored>) {
    forall i, j :: 0 <= i < j < |cands| ==> cands[i].leg.id != cands[j].leg.id
  }

  ghost predicate DistinctLegs(legs: seq<Leg>) {
    forall i, j :: 0 <= i < j < |legs| ==> legs[i].id != legs[j].id
  }

  function SetOf<T>(s: seq<T>): set<T> {
    set x | x in s
  }

  lemma {:induction false} DistinctSize<T>(s: seq<T>)
    requires forall i, j :: 0 <= i < j < |s| ==> s[i] != s[j]
    ensures |SetOf(s)| == |s|
  {
    if s != [] {
      var init, last := s[..|s| - 1], s[|s| - 1];
      DistinctSize(init);
      assert SetOf(s) == SetOf(init) + {last};
      assert last !in SetOf(init);
    }
  }

  lemma SetOfSnoc<T>(s: seq<T>, x: T)
    ensures SetOf(s + [x]) == SetOf(s) + {x}
  {
  }

  lemma LegsAtSnoc(cands: set<Scored>, c: Scored, level: Evidence)
    ensures LegsAt(cands + {c}, level) == LegsAt(cands, level) + (if c.evidence == level then {c.leg} else {})
  {
    forall l | l in LegsAt(cands, level) ensures l in LegsAt(cands + {c}, level) {
      var d :| d in cands && d.evidence == level && d.leg == l;
      assert d in cands + {c};
    }
    if c.evidence == level { assert c in cands + {c}; }
  }

  lemma AgreeingSnoc(env: Env, incoming: Leg, legs: set<Leg>, l: Leg)
    ensures Agreeing(env, incoming, legs + {l})
         == Agreeing(env, incoming, legs) + (if DescriptionsConsistent(env, incoming, l) then {l} else {})
  {
  }

  lemma {:induction false} InBucketMembers(cands: seq<Scored>, level: Evidence)
    requires DistinctIds(cands)
    ensures DistinctLegs(InBucket(cands, level))
    ensures SetOf(InBucket(cands, level)) == LegsAt(SetOf(cands), level)
  {
    if cands != [] {
      var init, last := cands[..|cands| - 1], cands[|cands| - 1];
      InBucketMembers(init, level);
      assert cands == init + [last];
      SetOfSnoc(init, last);
      SetOfSnoc(InBucket(init, level), last.leg);
      LegsAtSnoc(SetOf(init), last, level);
      forall i | 0 <= i < |InBucket(init, level)| ensures InBucket(init, level)[i].id != last.leg.id {
        assert InBucket(init, level)[i] in SetOf(InBucket(init, level));
      }
    }
  }

  lemma {:induction false} SurvivorsMembers(env: Env, incoming: Leg, bucket: seq<Leg>)
    requires DistinctLegs(bucket)
    ensures DistinctLegs(Survivors(env, incoming, bucket))
    ensures SetOf(Survivors(env, incoming, bucket)) == Agreeing(env, incoming, SetOf(bucket))
  {
    if bucket != [] {
      var init, last := bucket[..|bucket| - 1], bucket[|bucket| - 1];
      SurvivorsMembers(env, incoming, init);
      assert bucket == init + [last];
      SetOfSnoc(init, last);
      SetOfSnoc(Survivors(env, incoming, init), last);
      AgreeingSnoc(env, incoming, SetOf(init), last);
      forall i | 0 <= i < |Survivors(env, incoming, init)| ensures Survivors(env, incoming, init)[i].id != last.id {
        assert Survivors(env, incoming, init)[i] in SetOf(Survivors(env, incoming, init));
      }
    }
  }

  lemma SelectBucketMembers(cands: seq<Scored>)
    requires DistinctIds(cands)
    ensures SelectBucket(cands).0 == TopLevel(SetOf(cands))
    ensures SetOf(SelectBucket(cands).1) == BucketOf(SetOf(cands))
    ensures DistinctLegs(SelectBucket(cands).1)
  {
    InBucketMembers(cands, Bilateral);
    InBucketMembers(cands, Unilateral);
    InBucketMembers(cands, NoEvidence);
    forall level ensures InBucket(cands, level) != [] <==> exists c :: c in SetOf(cands) && c.evidence == level {
      InBucketMembers(cands, level);
      if InBucket(cands, level) != [] { assert InBucket(cands, level)[0] in SetOf(InBucket(cands, level)); }
      if exists c :: c in SetOf(cands) && c.evidence == level {
        var c :| c in SetOf(cands) && c.evidence == level;
        assert c.leg in LegsAt(SetOf(cands), level);
      }
    }
  }

  /** The list decision is the set decision: the order of the fetch does not matter. */
  lemma DecideIsJudge(env: Env, incoming: Leg, cands: seq<Scored>)
    requires DistinctIds(cands)
    ensures ViewDecision(Decide(env, incoming, cands)) == Judge(env, incoming, SetOf(cands))
  {
    DistinctSize(cands);
    if |cands| == 0 {
      assert SetOf(cands) == {};
      assert forall r :: ViewRecord(AnomalyRecord(incoming.id, [], r)) == AnomalyView({}, r);
    } else if |cands| == 1 {
      assert SetOf(cands) == {cands[0]};
      var c := cands[0].leg;
      assert ViewRecord(AnomalyRecord(incoming.id, [c.id], MismatchReason(env, incoming, c))).candidates == {c.id};
    } else {
      assert cands[0] in SetOf(cands);
      DecideManyIsJudge(env, incoming, cands);
    }
  }

  lemma DecideManyIsJudge(env: Env, incoming: Leg, cands: seq<Scored>)
    requires DistinctIds(cands) && |SetOf(cands)| == |cands| > 1
    ensures ViewDecision(DecideMany(env, incoming, cands)) == Judge(env, incoming, SetOf(cands))
  {
    SelectBucketMembers(cands);
    var (level, bucket) := SelectBucket(cands);
    SurvivorsMembers(env, incoming, bucket);
    var survivors := Survivors(env, incoming, bucket);
    DistinctSize(bucket);
    DistinctSize(survivors);
    IdsOfMembers(bucket);
    if |survivors| == 1 { SoleMember(survivors); }
  }

  lemma SoleMember<T>(s: seq<T>)
    requires |s| == 1
    ensures SetOf(s) == {s[0]}
  {
  }

  lemma IdsOfMembers(legs: seq<Leg>)
    ensures (set id | id in IdsOf(legs)) == set l | l in SetOf(legs) :: l.id
  {
    var ids := set l | l in SetOf(legs) :: l.id;
    forall l | l in SetOf(legs) ensures l.id in IdsOf(legs) {
      var i :| 0 <= i < |legs| && legs[i] == l;
      assert IdsOf(legs)[i] == l.id;
    }
    forall id | id in IdsOf(legs) ensures id in ids {
      var i :| 0 <= i < |legs| && IdsOf(legs)[i] == id;
      assert legs[i] in SetOf(legs);
    }
  }

  /** Any two fetches of the same candidates lead to the same decision, up to candidate-id order. */
  lemma DecideIgnoresFetchOrder(env: Env, incoming: Leg, a: seq<Scored>, b: seq<Scored>)
    requires DistinctIds(a) && multiset(a) == multiset(b)
    ensures ViewDecision(Decide(env, incoming, a)) == ViewDecision(Decide(env, incoming, b))
  {
    forall c ensures c in a <==> c in b {
      assert c in multiset(a) <==> c in multiset(b);
    }
    assert SetOf(a) == SetOf(b);
    PermutedDistinct(a, b);
    DecideIsJudge(env, incoming, a);
    DecideIsJudge(env, incoming, b);
  }

  lemma PermutedDistinct(a: seq<Scored>, b: seq<Scored>)
    requires DistinctIds(a) && multiset(a) == multiset(b)
    ensures DistinctIds(b)
  {
    forall i, j | 0 <= i < j < |b| ensures b[i].leg.id != b[j].leg.id {
      if b[i] == b[j] {
        assert b == b[..i] + [b[i]] + b[i + 1..j] + [b[j]] + b[j + 1..];
        assert multiset(b)[b[i]] >= 2;
        MultiplicityOfDistinct(a, b[i]);
      } else {
        assert b[i] in multiset(a) && b[j] in multiset(a);
        var p :| 0 <= p < |a| && a[p] == b[i];
        var q :| 0 <= q < |a| && a[q] == b[j];
      }
    }
  }

  lemma {:induction false} MultiplicityOfDistinct<T>(a: seq<T>, c: T)
    requires forall i, j :: 0 <= i < j < |a| ==> a[i] != a[j]
    ensures multiset(a)[c] <= 1
  {
    if a != [] {
      MultiplicityOfDistinct(a[..|a| - 1], c);
      assert a == a[..|a| - 1] + [a[|a| - 1]];
      if c == a[|a| - 1] { assert c !in a[..|a| - 1]; }
    }
  }

  /** A pair is formed exactly when there is one candidate, or when exactly one leg of the highest evidence
      level present agrees with the descriptions; the canary belongs to the first case alone. */
  lemma DecideClaimsIff(env: Env, incoming: Leg, cands: seq<Scored>)
    requires DistinctIds(cands)
    ensures Decide(env, incoming, cands).Claim? <==>
            |cands| == 1 || (|cands| > 1 && |Agreeing(env, incoming, BucketOf(SetOf(cands)))| == 1)
    ensures var d := Decide(env, incoming, cands);
            d.Claim? ==>
              && (exists c :: c in cands && c.leg.id == d.partnerId && c.evidence == d.evidence
                    && (d.canary.Some? <==> |cands| == 1 && !DescriptionsConsistent(env, incoming, c.leg)))
              && d.evidence == TopLevel(SetOf(cands))
              && (|cands| > 1 ==> forall c :: c in cands && c.evidence == d.evidence && c.leg.id != d.partnerId ==>
                    !DescriptionsConsistent(env, incoming, c.leg))
  {
    if |cands| == 1 {
      assert SetOf(cands) == {cands[0]};
    } else if |cands| > 1 {
      SelectBucketMembers(cands);
      var (level, bucket) := SelectBucket(cands);
      SurvivorsMembers(env, incoming, bucket);
      var survivors := Survivors(env, incoming, bucket);
      DistinctSize(survivors);
      if |survivors| == 1 {
        assert SetOf(survivors) == {survivors[0]};
        assert survivors[0] in BucketOf(SetOf(cands));
        forall c | c in cands && c.evidence == level && c.leg.id != survivors[0].id
          ensures !DescriptionsConsistent(env, incoming, c.leg)
        {
          assert c.leg in BucketOf(SetOf(cands));
          assert DescriptionsConsistent(env, incoming, c.leg) ==> c.leg in SetOf(survivors);
        }
      }
    }
  }
}
