/** Small worked cases of the engine: one key, matched, unmatched on either
    side, or mismatched, and a two-row merchant summary. Amounts in cents. */
module Scenarios {
  import opened Records
  import opened Reconciler
  import opened Aggregator

  const D := Date(2025, 1, 1)

  function Rec(amount: int): Record {
    Record("P1", "M001", D, Some(amount))
  }

  /** Equal amounts on both sides: one row, no flag set. */
  lemma Matched()
    ensures Reconcile([Rec(10000)], [Rec(10000)])
         == Ok([Row("P1", "M001", Some(D), Some(10000), Some(D), Some(10000), false, false, false, false)])
  {
    var p := Rec(10000);
    assert KeySet([p]) == {KeyOf(p)};
    assert LedgerOnly([p], KeySet([p])) == [];
    assert JoinRows([p], [p]) == [JoinRow(KeyOf(p), Some(p), Some(p))];
  }

  /** A payment without a ledger record: MissingLedger, Discrepancy. */
  lemma LedgerRecordMissing()
    ensures Reconcile([Rec(10000)], [])
         == Ok([Row("P1", "M001", Some(D), Some(10000), None, None, false, true, false, true)])
  {
    var p := Rec(10000);
    assert JoinRows([p], []) == [JoinRow(KeyOf(p), Some(p), None)];
  }

  /** A ledger record whose amount is absent: the row keeps the ledger date
      and is flagged MissingLedger. */
  lemma LedgerAmountMissing()
    ensures Reconcile([Rec(10000)], [Record("P1", "M001", D, None)])
         == Ok([Row("P1", "M001", Some(D), Some(10000), Some(D), None, false, true, false, true)])
  {
    var p, l := Rec(10000), Record("P1", "M001", D, None);
    assert KeySet([p]) == {KeyOf(l)};
    assert LedgerOnly([l], KeySet([p])) == [];
    assert JoinRows([p], [l]) == [JoinRow(KeyOf(p), Some(p), Some(l))];
  }

  /** Different amounts: AmountMismatch, Discrepancy. */
  lemma Mismatched()
    ensures Reconcile([Rec(10000)], [Rec(9000)])
         == Ok([Row("P1", "M001", Some(D), Some(10000), Some(D), Some(9000), false, false, true, true)])
  {
    var p, l := Rec(10000), Rec(9000);
    assert KeySet([p]) == {KeyOf(l)};
    assert LedgerOnly([l], KeySet([p])) == [];
    assert JoinRows([p], [l]) == [JoinRow(KeyOf(p), Some(p), Some(l))];
  }

  /** A ledger record without a payment: MissingPayment, Discrepancy. */
  lemma PaymentMissing()
    ensures Reconcile([], [Rec(5000)])
         == Ok([Row("P1", "M001", None, None, Some(D), Some(5000), true, false, false, true)])
  {
    var l := Rec(5000);
    assert KeySet([]) == {};
    assert LedgerOnly([l], {}) == [l];
    assert JoinRows([], [l]) == [JoinRow(KeyOf(l), None, Some(l))];
  }

  /** The same key twice on one side is rejected. */
  lemma DuplicateRejected()
    ensures Reconcile([Rec(10000), Rec(200)], []) == Err(DuplicateKey(PaymentSide, Key("P1", "M001")))
  {
  }

  /** A merchant with two rows, one of them a discrepancy: 50 percent. */
  lemma HalfDiscrepant()
    ensures var rows := [
        Row("P1", "M001", Some(D), Some(10000), Some(D), Some(10000), false, false, false, false),
        Row("P2", "M001", Some(D), Some(5000), None, None, false, true, false, true)];
      && Summarize(rows).Keys == {"M001"}
      && Summarize(rows)["M001"] == MerchantSummary("M001", 15000, 10000, 2, 1, 0, 1, 0)
      && DiscrepancyPct(Summarize(rows)["M001"]) == Some(50.0)
  {
    var rows := [
        Row("P1", "M001", Some(D), Some(10000), Some(D), Some(10000), false, false, false, false),
        Row("P2", "M001", Some(D), Some(5000), None, None, false, true, false, true)];
    assert Merchants(rows) == {"M001"};
    assert Group(rows, "M001") == rows;
    assert rows[1..] == [rows[1]] && rows[1..][1..] == [];
    assert Sum(rows[1..], PaymentCents) == 5000;
    assert Sum(rows, PaymentCents) == 15000;
    assert Sum(rows[1..], LedgerCents) == 0;
    assert Sum(rows, LedgerCents) == 10000;
    assert Sum(rows[1..], DiscrepancyCount) == 1;
    assert Sum(rows, DiscrepancyCount) == 1;
    assert Sum(rows[1..], MissingPaymentCount) == 0;
    assert Sum(rows, MissingPaymentCount) == 0;
    assert Sum(rows[1..], MissingLedgerCount) == 1;
    assert Sum(rows, MissingLedgerCount) == 1;
    assert Sum(rows[1..], AmountMismatchCount) == 0;
    assert Sum(rows, AmountMismatchCount) == 0;
  }
}
