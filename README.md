# Payment/ledger reconciliation engine, modelled in Dafny

This project models the reconciliation engine of a small payments script
(`reconcilation.py`). The engine takes payment records and ledger records,
both keyed by (PaymentID, Merchant). It builds a full outer join of the two
on that key, flags each joined row (MissingPayment, MissingLedger,
AmountMismatch, Discrepancy), groups the rows by Merchant and computes, per
merchant, the payment and ledger totals, the number of rows, the flag counts
and the discrepancy percentage.

Modules, one per component:

- `Records` (`records.dfy`): the data model. A `Record` is a payment or a
  ledger record; both have the shape (PaymentID, Merchant, date, amount),
  with the amount optional (an absent amount is a NaN cell). `Row` is a
  reconciled row, `MerchantSummary` a summary row. `Classified` is the row
  invariant: every flag agrees with the row's amounts.
- `Reconciler` (`reconciler.dfy`): the join and the flags. `Reconcile`
  returns the table as a sequence of rows. `OuterJoin` is the reference
  meaning of the join as a map keyed by (PaymentID, Merchant).
  `ReconcileListsOuterJoin` proves that the rows list exactly that map.
- `Aggregator` (`aggregator.dfy`): the group-by and the column sums.
  `Summarize` returns a map keyed by Merchant. `DiscrepancyPct` is an exact
  rational.
- `Pipeline` (`pipeline.dfy`): reconcile, then summarize.
- `Scenarios` (`scenarios.dfy`): worked single-key and two-row cases.

Amounts are integers in minor units (cents). The script rounds amounts to two
decimals and compares them exactly, so cents are equal exactly when the
rounded values are. Dates are carried through and never inspected.

Where the code and its design description differ, the model follows the code:

- MissingLedger is set when the row's LedgerAmount is absent (`reconcilation.py:72`).
  So it also holds for a ledger record that exists but has no amount, not only
  for a key missing from the ledger. MissingPayment behaves the same way.
- `OuterJoinFlags` and `ReconcileFlags` state the flags in terms of the inputs
  through `SideAmount`: the amount a side holds for a key, absent when the
  side has no record of the key or that record has no amount.

## Model

| member | source | states |
|---|---|---|
| `Reconciler.Reconcile` | reconcilation.py:67-77 | Succeeds exactly when no side holds a key twice. A rejection names the side and a key that two of that side's records share. |
| `Reconciler.FirstDuplicate` | reconcilation.py:67 | Finds nothing exactly when the keys are unique. A key it returns is held by two different records. |
| `Reconciler.Lookup` | reconcilation.py:67 | Finds a record exactly when the key occurs on that side. What it finds is a record of the side with that key. |
| `Reconciler.LookupUnique` | reconcilation.py:67 | When keys are unique, looking up a record's key finds that very record. |
| `Reconciler.Classify` | reconcilation.py:69-77 | After the four flag columns are added in the script's order, the row is `Classified`. Key, dates and amounts are unchanged. AmountMismatch excludes both Missing flags. A row with equal present amounts has no Discrepancy. |
| `Reconciler.LedgerOnly` | reconcilation.py:67 | Keeps exactly the ledger records whose key no payment has, and keeps their keys unique. |
| `Reconciler.ReconcileListsOuterJoin` | reconcilation.py:67 | The rows of a successful reconciliation list the `OuterJoin` map: each key once, each row equal to the map's row for its key, every key present. There are as many rows as distinct keys of either side. |
| `Reconciler.ReconcileComplete` | reconcilation.py:67 | The set of row keys is the union of both sides' keys. The row count equals the size of that union. No two rows share a key. |
| `Reconciler.ReconcileKeepsRecords` | reconcilation.py:67 | Every payment's date and amount appear in the row of its key, and so do every ledger record's. A side without the key leaves that side's date and amount absent. |
| `Reconciler.ReconcileFlags` | reconcilation.py:70-77 | Every row is `Classified`. MissingPayment holds exactly when no payment of the key has an amount, and MissingLedger likewise for the ledger. AmountMismatch holds exactly when both sides have an amount and the amounts differ. |
| `Reconciler.OuterJoinCarriesRecords` | reconcilation.py:67 | The join map has exactly the keys of either side. Each entry carries the date and amount of its key's record on each side, or nothing for a side without that key. |
| `Reconciler.OuterJoinFlags` | reconcilation.py:70-77 | The flags of each entry of the join map, stated in terms of the inputs. Discrepancy holds exactly when a side has no amount or the two amounts differ. |
| `Reconciler.UniqueKeysCard` | reconcilation.py:67 | The keys of a side are unique exactly when there are as many distinct keys as records. |
| `Reconciler.PermutedSide` | reconcilation.py:67 | Reordering a side changes neither its key set, nor whether its keys are unique, nor (for unique keys) what a lookup finds. |
| `Reconciler.ReconcileOrderIndependent` | reconcilation.py:67 | Reordering either input does not change whether reconciliation succeeds. When it succeeds, the output holds the same set of rows. |
| `Aggregator.Group` | reconcilation.py:82 | A merchant's group holds exactly the rows with that merchant. |
| `Aggregator.Summarize` | reconcilation.py:82-90 | One summary per merchant that occurs in the rows, and no other. Each summary names its merchant and counts at least one transaction, so the percentage is never 0/0. |
| `Aggregator.DiscrepancyPct` | reconcilation.py:92 | Defined exactly when NumTransactions is non-zero. Then pct × NumTransactions = 100 × NumDiscrepancies. |
| `Aggregator.PctInRange` | reconcilation.py:92 | With 0 ≤ NumDiscrepancies ≤ NumTransactions and at least one transaction, the percentage lies in [0, 100]. |
| `Aggregator.SumMonotone` | reconcilation.py:86-89 | A column that is pointwise no larger than another has no larger sum. |
| `Aggregator.SummaryBounds` | reconcilation.py:86-92 | For classified rows, each merchant's MissingPayments, MissingLedgerEntries and AmountMismatches lie between 0 and NumDiscrepancies. NumDiscrepancies ≤ NumTransactions, and DiscrepancyPct is defined and in [0, 100]. |
| `Aggregator.SumOfGroup` | reconcilation.py:82-89 | Summing a column over a merchant's group equals summing it over all rows with the other merchants' rows counted as 0. |
| `Aggregator.SummaryColumns` | reconcilation.py:83-89 | Each merchant's columns as sums over the whole table. TotalPayments and TotalLedger are the merchant's present amounts (absent ones skipped). NumTransactions is the number of its rows. Each flag count is the number of its rows with that flag. |
| `Aggregator.ColumnTotalOfGroups` | reconcilation.py:82-89 | Over distinct merchants, the per-group sums of a column add up to that column's sum over the rows of those merchants. |
| `Aggregator.SummaryAccountsForEveryRow` | reconcilation.py:83-89 | Listing every merchant once, NumTransactions adds up to the number of rows. TotalPayments and TotalLedger add up to the sums of all present amounts (absent amounts are skipped). The flag counts add up to the numbers of flagged rows. |
| `Pipeline.Run` | reconcilation.py:67-92 | Succeeds exactly when both sides have unique keys, and then its reconciliation table is `Reconcile`'s. A failure is `Reconcile`'s error. |
| `Pipeline.RunMerchants` | reconcilation.py:82-90 | The summary has an entry for exactly the merchants of the keys of either side. |
| `Pipeline.RunSummaryBounds` | reconcilation.py:86-92 | When both sides have unique keys the run succeeds, and every merchant summary satisfies the bounds of `SummaryBounds`, with DiscrepancyPct defined and in [0, 100]. |
| `Scenarios.Matched` | reconcilation.py:67-77 | Equal amounts on both sides give one row with no flag set. |
| `Scenarios.LedgerRecordMissing` | reconcilation.py:67-77 | A payment with no ledger record gives a row with the ledger side absent, flagged MissingLedger and Discrepancy. |
| `Scenarios.LedgerAmountMissing` | reconcilation.py:56-77 | A ledger record with an absent amount keeps its date in the row, and the row is flagged MissingLedger. |
| `Scenarios.Mismatched` | reconcilation.py:67-77 | Different present amounts give AmountMismatch and Discrepancy. |
| `Scenarios.PaymentMissing` | reconcilation.py:67-77 | A ledger record with no payment gives MissingPayment and Discrepancy. |
| `Scenarios.HalfDiscrepant` | reconcilation.py:82-92 | A merchant with two rows, one of them discrepant, gets the expected summary and a DiscrepancyPct of exactly 50. |

## Left out

- Synthetic data generation (`generate_payments`, `generate_ledger`, reconcilation.py:27-62). It draws on random number generators. The model takes both record sequences as parameters instead.
- Writing the four CSV files and the console messages (reconcilation.py:97-103). These are output only.
- Floating point. The script rounds random amounts to two decimals and scales some ledger amounts by a random factor in [0.8, 1.2]. The model uses exact integer cents, and DiscrepancyPct is an exact rational, not a float64.
- Duplicate keys. Pandas' merge pairs every record of a key on one side with every record of that key on the other side, so it can output several rows for one key. The model does not reproduce this. `Reconcile` rejects a side that holds a key twice, with `DuplicateKey(side, key)`; the script itself never rejects.
- Row order. Pandas sorts the rows of an outer merge by key, and groupby sorts merchants. The model lists payment rows in payment order, then ledger-only rows in ledger order, and proves order-free facts about them (one row per key, set-equal output under reordered inputs). The summary is a map keyed by Merchant.
- Null keys. PaymentID and Merchant are always-present strings in the model. So pandas' handling of NaN keys is not modelled, and NumTransactions (a count of non-null PaymentIDs) is the group's row count.
- DiscrepancyPct with zero transactions is absent in the model. Pandas gives NaN for 0/0 and infinity for a positive count over zero. This case cannot arise from `Summarize`.
- Date arithmetic and date formats. Dates are plain values carried through unchanged.
