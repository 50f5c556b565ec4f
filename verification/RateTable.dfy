/** The `currency_rates` table: its row type and the row predicates of the queries over it. */
module RateTable {
  import opened Common

  /** The columns every query fixes together. */
  datatype Key = Key(source: string, currencyFrom: string, currencyTo: string)

  datatype Rates = Rates(buy: Option<real>, sell: Option<real>, mid: real)

  datatype RateRow = RateRow(
    key: Key,
    rates: Rates,
    validFrom: int,
    validTo: Option<int>,
    lastPolledAt: Option<int>,
    updateCadenceSeconds: Option<int>)

  type Table = map<Id, RateRow>

  predicate IsPolled(row: RateRow, k: Key) {
    row.key == k && row.lastPolledAt.Some?
  }

  predicate IsHistorical(row: RateRow, k: Key) {
    row.key == k && row.lastPolledAt.None?
  }

  /** valid_from <= t AND (valid_to IS NULL OR valid_to > t) */
  predicate Covers(row: RateRow, t: int) {
    row.validFrom <= t && (row.validTo.None? || row.validTo.value > t)
  }

  /** What `find_fresh_rate` asks of a row, apart from its ordering. */
  predicate IsFresh(row: RateRow, k: Key, t: int, tolerance: int) {
    && IsPolled(row, k)
    && row.updateCadenceSeconds.Some?
    && Covers(row, t)
    && row.lastPolledAt.value + row.updateCadenceSeconds.value * tolerance * SECOND >= t
  }

  /** `get_rates_at` with all three optional filters given. */
  function RatesAt(table: Table, k: Key, t: int): set<Id> {
    set id | id in table && table[id].key == k && Covers(table[id], t)
  }
}
