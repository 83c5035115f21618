/** The engine end to end: reconcile the two sides, then summarize the
    reconciliation table by merchant. */
module Pipeline {
  import opened Records
  import opened Reconciler
  import opened Aggregator

  /** The two tables the engine produces. */
  datatype Tables = Tables(reconciliation: seq<Row>, summary: map<string, MerchantSummary>)

  function Run(ps: seq<PaymentRecord>, ls: seq<LedgerRecord>): (res: Result<Tables, Error>)
    ensures res.Ok? <==> UniqueKeys(ps) && UniqueKeys(ls)
    ensures res.Err? ==> Reconcile(ps, ls) == Err(res.error)
    ensures res.Ok? ==> res.value.reconciliation == Reconcile(ps, ls).value
  {
    match Reconcile(ps, ls)
    case Err(e) => Err(e)
    case Ok(rows) => Ok(Tables(rows, Summarize(rows)))
  }

  /** The summary has one entry for each merchant of a key of either side. */
  lemma RunMerchants(ps: seq<PaymentRecord>, ls: seq<LedgerRecord>)
    requires Run(ps, ls).Ok?
    ensures Run(ps, ls).value.summary.Keys == set k | k in KeySet(ps) + KeySet(ls) :: k.merchant
  {
    var rows := Run(ps, ls).value.reconciliation;
    ReconcileComplete(ps, ls);
    assert RowKeys(rows) == KeySet(ps) + KeySet(ls);
    forall m ensures m in Merchants(rows) <==> m in set k | k in RowKeys(rows) :: k.merchant {
      if m in Merchants(rows) {
        var r :| r in rows && r.merchant == m;
        assert RowKey(r) in RowKeys(rows);
      }
      if m in set k | k in RowKeys(rows) :: k.merchant {
        var k :| k in RowKeys(rows) && k.merchant == m;
        var r :| r in rows && RowKey(r) == k;
      }
    }
  }

  /** Every merchant summary of a successful run has its flag counts within
      its discrepancy count, that within its transaction count, and a
      DiscrepancyPct between 0 and 100. */
  lemma RunSummaryBounds(ps: seq<PaymentRecord>, ls: seq<LedgerRecord>)
    requires UniqueKeys(ps) && UniqueKeys(ls)
    ensures Run(ps, ls).Ok?
    ensures var summary := Run(ps, ls).value.summary;
      forall m :: m in summary ==>
        && 0 <= summary[m].missingPayments <= summary[m].numDiscrepancies
        && 0 <= summary[m].missingLedgerEntries <= summary[m].numDiscrepancies
        && 0 <= summary[m].amountMismatches <= summary[m].numDiscrepancies
        && summary[m].numDiscrepancies <= summary[m].numTransactions
        && DiscrepancyPct(summary[m]).Some?
        && 0.0 <= DiscrepancyPct(summary[m]).value <= 100.0
  {
    var rows := Run(ps, ls).value.reconciliation;
    ReconcileFlags(ps, ls);
    assert forall r :: r in rows ==> Classified(r);
    forall m | m in Summarize(rows)
      ensures 0 <= Summarize(rows)[m].missingPayments <= Summarize(rows)[m].numDiscrepancies
      ensures 0 <= Summarize(rows)[m].missingLedgerEntries <= Summarize(rows)[m].numDiscrepancies
      ensures 0 <= Summarize(rows)[m].amountMismatches <= Summarize(rows)[m].numDiscrepancies
      ensures Summarize(rows)[m].numDiscrepancies <= Summarize(rows)[m].numTransactions
      ensures DiscrepancyPct(Summarize(rows)[m]).Some?
      ensures 0.0 <= DiscrepancyPct(Summarize(rows)[m]).value <= 100.0
    {
      SummaryBounds(rows, m);
    }
  }
}
