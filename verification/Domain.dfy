/** The pipeline's messages and the `transactions` table. */
module Domain {
  import opened Common
  import Conversion

  datatype Direction = Income | Expense | Zero

  /** The bank-original fields under metadata.source. */
  type SourceFields = map<string, string>

  /** A normalized transaction event. Its metadata is absent or {"source": fields}: nothing else is ever
      produced by the normalizers or by the replay. */
  datatype Event = Event(
    id: Id,
    source: string,
    sourceId: string,
    userId: Id,
    accountId: Id,
    time: int,
    amountCents: int,
    operationAmountCents: Option<int>,
    operationCurrencyCode: string,
    description: Option<string>,
    mcc: Option<string>,
    cashbackAmountCents: int,
    balanceCents: Option<int>,
    hold: Option<bool>,
    direction: Direction,
    counterpartyIban: Option<string>,
    rateSource: Option<string>,
    metadata: Option<SourceFields>)

  datatype IbanStatus = NoIban | Transitive | Unlinked | Honest
  datatype Evidence = Bilateral | Unilateral | NoEvidence

  datatype RowBlock = RowBlock(descriptionMatched: bool, multiHop: bool, ibanStatus: IbanStatus)
  datatype PairBlock = PairBlock(evidence: Evidence, descriptionDecisive: bool)
  datatype TransferBlock = TransferBlock(row: Option<RowBlock>, pair: Option<PairBlock>)

  type RateMetadata = map<string, Conversion.PathMetadata>

  /** metadata.layer */
  datatype Layer = Layer(rate: Option<RateMetadata>, transfer: Option<TransferBlock>)

  /** The stored JSONB document. */
  datatype Metadata = Metadata(source: Option<SourceFields>, layer: Option<Layer>)

  datatype SpecialCategory = Transfer
  datatype Origin = Bank | Manual

  datatype Row = Row(
    id: Id,
    source: string,
    sourceId: string,
    userId: Id,
    accountId: Id,
    time: int,
    amountCents: int,
    operationAmountCents: Option<int>,
    currencyCode: string,
    operationCurrencyCode: Option<string>,
    amountUahCents: Option<int>,
    amountUsdCents: Option<int>,
    amountEurCents: Option<int>,
    description: Option<string>,
    mcc: Option<string>,
    cashbackAmountCents: Option<int>,
    balanceCents: Option<int>,
    hold: Option<bool>,
    direction: Direction,
    specialCategory: Option<SpecialCategory>,
    counterpartyIban: Option<string>,
    rateSource: Option<string>,
    metadata: Option<Metadata>,
    origin: Origin,
    relatedTransactionId: Option<Id>)

  function SourceOf(metadata: Option<Metadata>): SourceFields {
    if metadata.Some? then GetOr(metadata.value.source, map[]) else map[]
  }

  /** `TransactionRow.to_normalized`: the event a stored row is replayed as. Of the metadata only the
      bank-original fields survive. */
  function ToNormalized(r: Row): Event {
    Event(r.id, r.source, r.sourceId, r.userId, r.accountId, r.time, r.amountCents, r.operationAmountCents,
          GetOr(r.operationCurrencyCode, ""), r.description, r.mcc, GetOr(r.cashbackAmountCents, 0), r.balanceCents,
          r.hold, r.direction, r.counterpartyIban, r.rateSource, Some(SourceOf(r.metadata)))
  }

  /** An event as the replay of the row it is stored in would publish it. */
  function Replayed(e: Event): Event {
    e.(metadata := Some(GetOr(e.metadata, map[])))
  }
}
