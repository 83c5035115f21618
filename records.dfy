/** The data model of the reconciliation engine: the records the two sources
    supply, the reconciled row the join produces and the per-merchant summary.
    Amounts are integers in minor units (cents); an absent amount stands for
    a NaN cell of the table. */
module Records {

  datatype Option<+T> = None | Some(value: T)

  datatype Result<+T, +E> = Ok(value: T) | Err(error: E)

  /** A calendar date. The engine never inspects dates; it only carries them. */
  datatype Date = Date(year: int, month: int, day: int)

  /** The composite join key (PaymentID, Merchant). */
  datatype Key = Key(paymentId: string, merchant: string)

  /** A payment record (PaymentID, Merchant, PaymentDate, PaymentAmount) or a
      ledger record (PaymentID, Merchant, LedgerDate, LedgerAmount): the two
      sources have the same shape. A ledger record whose amount is absent is a
      missing ledger posting; the record itself stays in the table. */
  datatype Record = Record(paymentId: string, merchant: string, date: Date, amount: Option<int>)

  type PaymentRecord = Record
  type LedgerRecord = Record

  function KeyOf(r: Record): Key {
    Key(r.paymentId, r.merchant)
  }

  /** One row of the reconciliation table: the key, both sides' date and
      amount (absent when that side has no record for the key, or when its
      amount is absent) and the four discrepancy flags. */
  datatype Row = Row(
    paymentId: string,
    merchant: string,
    paymentDate: Option<Date>,
    paymentAmount: Option<int>,
    ledgerDate: Option<Date>,
    ledgerAmount: Option<int>,
    missingPayment: bool,
    missingLedger: bool,
    amountMismatch: bool,
    discrepancy: bool)

  function RowKey(r: Row): Key {
    Key(r.paymentId, r.merchant)
  }

  /** The invariant of a reconciled row: each flag says what the amounts say.
      Amounts are compared exactly (cent for cent). */
  predicate Classified(r: Row) {
    && (r.missingPayment <==> r.paymentAmount.None?)
    && (r.missingLedger <==> r.ledgerAmount.None?)
    && (r.amountMismatch <==>
          r.paymentAmount.Some? && r.ledgerAmount.Some? && r.paymentAmount.value != r.ledgerAmount.value)
    && (r.discrepancy <==> r.missingPayment || r.missingLedger || r.amountMismatch)
  }

  /** One row of the summary table. The counts are sums of boolean columns. */
  datatype MerchantSummary = MerchantSummary(
    merchant: string,
    totalPayments: int,
    totalLedger: int,
    numTransactions: nat,
    numDiscrepancies: int,
    missingPayments: int,
    missingLedgerEntries: int,
    amountMismatches: int)
}
