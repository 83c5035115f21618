/** The aggregator: groups reconciled rows by merchant and computes, per
    merchant, the two amount totals, the row count, the four flag counts and
    the discrepancy percentage. */
module Aggregator {
  import opened Records

  /** The sum of f over the rows. */
  function Sum(rows: seq<Row>, f: Row -> int): int {
    if rows == [] then 0 else f(rows[0]) + Sum(rows[1..], f)
  }

  /** A present amount counts at its value; an absent one is skipped. */
  function Present(a: Option<int>): int {
    if a.Some? then a.value else 0
  }

  function PaymentCents(r: Row): int { Present(r.paymentAmount) }
  function LedgerCents(r: Row): int { Present(r.ledgerAmount) }

  /** A boolean column summed as 0 or 1 per row. */
  function Indicator(b: bool): int { if b then 1 else 0 }

  function DiscrepancyCount(r: Row): int { Indicator(r.discrepancy) }
  function MissingPaymentCount(r: Row): int { Indicator(r.missingPayment) }
  function MissingLedgerCount(r: Row): int { Indicator(r.missingLedger) }
  function AmountMismatchCount(r: Row): int { Indicator(r.amountMismatch) }

  /** The merchants that occur in the rows. */
  function Merchants(rows: seq<Row>): set<string> {
    set r | r in rows :: r.merchant
  }

  /** The rows of one merchant, in their order. */
  function Group(rows: seq<Row>, m: string): (g: seq<Row>)
    ensures forall r :: r in g <==> r in rows && r.merchant == m
    ensures |g| <= |rows|
  {
    if rows == [] then []
    else if rows[0].merchant == m then [rows[0]] + Group(rows[1..], m)
    else Group(rows[1..], m)
  }

  /** The summary of one merchant's group. NumTransactions counts the
      group's PaymentIDs; a PaymentID is a join key and is never absent, so
      that is the number of rows. */
  function SummarizeGroup(m: string, g: seq<Row>): MerchantSummary {
    MerchantSummary(
      m,
      Sum(g, PaymentCents),
      Sum(g, LedgerCents),
      |g|,
      Sum(g, DiscrepancyCount),
      Sum(g, MissingPaymentCount),
      Sum(g, MissingLedgerCount),
      Sum(g, AmountMismatchCount))
  }

  /** The summary table: one entry per merchant that occurs in the rows, and
      no other; every merchant's group is non-empty. */
  function Summarize(rows: seq<Row>): (s: map<string, MerchantSummary>)
    ensures s.Keys == Merchants(rows)
    ensures forall m :: m in s ==> s[m].merchant == m && s[m].numTransactions >= 1
  {
    var s := map m | m in Merchants(rows) :: SummarizeGroup(m, Group(rows, m));
    assert forall m :: m in s ==> |Group(rows, m)| >= 1 by {
      forall m | m in s ensures |Group(rows, m)| >= 1 {
        var r :| r in rows && r.merchant == m;
        assert r in Group(rows, m);
      }
    }
    s
  }

  /** DiscrepancyPct = NumDiscrepancies / NumTransactions * 100, as an exact
      rational; undefined (absent) when there are no transactions. */
  function DiscrepancyPct(s: MerchantSummary): (pct: Option<real>)
    ensures pct.Some? <==> s.numTransactions != 0
    ensures pct.Some? ==> pct.value * (s.numTransactions as real) == 100.0 * (s.numDiscrepancies as real)
  {
    if s.numTransactions == 0 then None
    else Some((s.numDiscrepancies as real / s.numTransactions as real) * 100.0)
  }

  // ---------------------------------------------------------------------
  // Bounds on one merchant's summary

  lemma {:induction false} SumMonotone(rows: seq<Row>, f: Row -> int, g: Row -> int)
    requires forall r :: r in rows ==> f(r) <= g(r)
    ensures Sum(rows, f) <= Sum(rows, g)
  {
    if rows != [] {
      assert rows[0] in rows;
      SumMonotone(rows[1..], f, g);
    }
  }

  function One(r: Row): int { 1 }

  lemma {:induction false} SumOfOnes(rows: seq<Row>)
    ensures Sum(rows, One) == |rows|
  {
    if rows != [] {
      SumOfOnes(rows[1..]);
    }
  }

  function Zero(r: Row): int { 0 }

  lemma {:induction false} SumOfZeros(rows: seq<Row>)
    ensures Sum(rows, Zero) == 0
  {
    if rows != [] {
      SumOfZeros(rows[1..]);
    }
  }

  /** The percentage of a summary whose discrepancies do not outnumber its
      transactions lies between 0 and 100. */
  lemma PctInRange(s: MerchantSummary)
    requires s.numTransactions >= 1
    requires 0 <= s.numDiscrepancies <= s.numTransactions
    ensures DiscrepancyPct(s).Some?
    ensures 0.0 <= DiscrepancyPct(s).value <= 100.0
  {
    var pct := DiscrepancyPct(s).value;
    var n := s.numTransactions as real;
    var d := s.numDiscrepancies as real;
    assert pct * n == 100.0 * d;
  }

  /** For rows whose flags agree with their amounts, each merchant's flag
      counts are at most its discrepancy count, which is at most its
      transaction count; so its DiscrepancyPct is defined and between 0 and
      100. */
  lemma SummaryBounds(rows: seq<Row>, m: string)
    requires forall r :: r in rows ==> Classified(r)
    requires m in Summarize(rows)
    ensures var s := Summarize(rows)[m];
      && 0 <= s.missingPayments <= s.numDiscrepancies
      && 0 <= s.missingLedgerEntries <= s.numDiscrepancies
      && 0 <= s.amountMismatches <= s.numDiscrepancies
      && s.numDiscrepancies <= s.numTransactions
    ensures DiscrepancyPct(Summarize(rows)[m]).Some?
    ensures 0.0 <= DiscrepancyPct(Summarize(rows)[m]).value <= 100.0
  {
    var g := Group(rows, m);
    assert Summarize(rows)[m] == SummarizeGroup(m, g);
    SumOfZeros(g);
    SumOfOnes(g);
    SumMonotone(g, Zero, MissingPaymentCount);
    SumMonotone(g, Zero, MissingLedgerCount);
    SumMonotone(g, Zero, AmountMismatchCount);
    SumMonotone(g, MissingPaymentCount, DiscrepancyCount);
    SumMonotone(g, MissingLedgerCount, DiscrepancyCount);
    SumMonotone(g, AmountMismatchCount, DiscrepancyCount);
    SumMonotone(g, DiscrepancyCount, One);
    PctInRange(Summarize(rows)[m]);
  }

  // ---------------------------------------------------------------------
  // Each summary column as a sum over the whole table

  /** Column f restricted to merchant m: f on m's rows, 0 on the others. */
  function Masked(m: string, f: Row -> int): Row -> int {
    (r: Row) => if r.merchant == m then f(r) else 0
  }

  lemma {:induction false} SumOfGroup(rows: seq<Row>, m: string, f: Row -> int)
    ensures Sum(Group(rows, m), f) == Sum(rows, Masked(m, f))
  {
    if rows != [] {
      SumOfGroup(rows[1..], m, f);
    }
  }

  /** Each merchant's summary, column by column, as a sum over all rows with
      the other merchants' rows contributing nothing: TotalPayments and
      TotalLedger are the merchant's present amounts, NumTransactions the
      number of its rows, and the flag counts the numbers of its flagged
      rows. */
  lemma SummaryColumns(rows: seq<Row>, m: string)
    requires m in Summarize(rows)
    ensures var s := Summarize(rows)[m];
      && s.totalPayments == Sum(rows, Masked(m, PaymentCents))
      && s.totalLedger == Sum(rows, Masked(m, LedgerCents))
      && s.numTransactions == Sum(rows, Masked(m, One))
      && s.numDiscrepancies == Sum(rows, Masked(m, DiscrepancyCount))
      && s.missingPayments == Sum(rows, Masked(m, MissingPaymentCount))
      && s.missingLedgerEntries == Sum(rows, Masked(m, MissingLedgerCount))
      && s.amountMismatches == Sum(rows, Masked(m, AmountMismatchCount))
  {
    var g := Group(rows, m);
    assert Summarize(rows)[m] == SummarizeGroup(m, g);
    SumOfOnes(g);
    SumOfGroup(rows, m, PaymentCents);
    SumOfGroup(rows, m, LedgerCents);
    SumOfGroup(rows, m, One);
    SumOfGroup(rows, m, DiscrepancyCount);
    SumOfGroup(rows, m, MissingPaymentCount);
    SumOfGroup(rows, m, MissingLedgerCount);
    SumOfGroup(rows, m, AmountMismatchCount);
  }

  // ---------------------------------------------------------------------
  // The summary accounts for every row once

  /** The rows whose merchant is in ms. */
  function GroupIn(rows: seq<Row>, ms: set<string>): seq<Row> {
    if rows == [] then []
    else if rows[0].merchant in ms then [rows[0]] + GroupIn(rows[1..], ms)
    else GroupIn(rows[1..], ms)
  }

  lemma {:induction false} SumSplit(rows: seq<Row>, m: string, ms: set<string>, f: Row -> int)
    requires m !in ms
    ensures Sum(GroupIn(rows, {m} + ms), f) == Sum(Group(rows, m), f) + Sum(GroupIn(rows, ms), f)
  {
    if rows != [] {
      SumSplit(rows[1..], m, ms, f);
    }
  }

  lemma {:induction false} GroupInAll(rows: seq<Row>, ms: set<string>)
    requires Merchants(rows) <= ms
    ensures GroupIn(rows, ms) == rows
  {
    if rows != [] {
      assert rows[0] in rows;
      assert Merchants(rows[1..]) <= Merchants(rows) by {
        forall m | m in Merchants(rows[1..]) ensures m in Merchants(rows) {
          var r :| r in rows[1..] && r.merchant == m;
          assert r in rows;
        }
      }
      GroupInAll(rows[1..], ms);
    }
  }

  /** The total of one summary column over the merchants ms, in that order. */
  function ColumnTotal(s: map<string, MerchantSummary>, ms: seq<string>, col: MerchantSummary -> int): int
    requires forall m :: m in ms ==> m in s
  {
    if ms == [] then 0 else col(s[ms[0]]) + ColumnTotal(s, ms[1..], col)
  }

  predicate Distinct(ms: seq<string>) {
    forall i, j :: 0 <= i < j < |ms| ==> ms[i] != ms[j]
  }

  /** Summing a per-group column over distinct merchants gives that column's
      sum over the rows of those merchants. */
  lemma {:induction false} ColumnTotalOfGroups(s: map<string, MerchantSummary>, rows: seq<Row>, ms: seq<string>,
                                               col: MerchantSummary -> int, f: Row -> int)
    requires Distinct(ms)
    requires forall m :: m in ms ==> m in s
    requires forall m :: m in ms ==> col(s[m]) == Sum(Group(rows, m), f)
    ensures ColumnTotal(s, ms, col) == Sum(GroupIn(rows, set m | m in ms), f)
  {
    if ms == [] {
      assert (set m | m in ms) == {};
      GroupInNone(rows);
    } else {
      var rest := ms[1..];
      assert Distinct(rest) by {
        forall i, j | 0 <= i < j < |rest| ensures rest[i] != rest[j] {
          assert rest[i] == ms[i + 1] && rest[j] == ms[j + 1];
        }
      }
      assert ms[0] !in rest;
      assert (set m | m in ms) == {ms[0]} + (set m | m in rest) by {
        assert ms == [ms[0]] + rest;
      }
      ColumnTotalOfGroups(s, rows, rest, col, f);
      SumSplit(rows, ms[0], (set m | m in rest), f);
    }
  }

  lemma {:induction false} GroupInNone(rows: seq<Row>)
    ensures GroupIn(rows, {}) == []
  {
    if rows != [] {
      GroupInNone(rows[1..]);
    }
  }

  function TotalPaymentsOf(s: MerchantSummary): int { s.totalPayments }
  function TotalLedgerOf(s: MerchantSummary): int { s.totalLedger }
  function NumTransactionsOf(s: MerchantSummary): int { s.numTransactions }
  function NumDiscrepanciesOf(s: MerchantSummary): int { s.numDiscrepancies }
  function MissingPaymentsOf(s: MerchantSummary): int { s.missingPayments }
  function MissingLedgerEntriesOf(s: MerchantSummary): int { s.missingLedgerEntries }
  function AmountMismatchesOf(s: MerchantSummary): int { s.amountMismatches }

  lemma {:induction false} SumGroupOfOnes(rows: seq<Row>, m: string)
    ensures |Group(rows, m)| == Sum(Group(rows, m), One)
  {
    SumOfOnes(Group(rows, m));
  }

  /** Aggregation consistency: listing every merchant once, the merchants'
      transaction counts add up to the number of rows, their totals add up to
      the sums of the present amounts over all rows, and their flag counts
      add up to the numbers of flagged rows. */
  lemma SummaryAccountsForEveryRow(rows: seq<Row>, ms: seq<string>)
    requires Distinct(ms)
    requires (set m | m in ms) == Merchants(rows)
    ensures forall m :: m in ms ==> m in Summarize(rows)
    ensures ColumnTotal(Summarize(rows), ms, NumTransactionsOf) == |rows|
    ensures ColumnTotal(Summarize(rows), ms, TotalPaymentsOf) == Sum(rows, PaymentCents)
    ensures ColumnTotal(Summarize(rows), ms, TotalLedgerOf) == Sum(rows, LedgerCents)
    ensures ColumnTotal(Summarize(rows), ms, NumDiscrepanciesOf) == Sum(rows, DiscrepancyCount)
    ensures ColumnTotal(Summarize(rows), ms, MissingPaymentsOf) == Sum(rows, MissingPaymentCount)
    ensures ColumnTotal(Summarize(rows), ms, MissingLedgerEntriesOf) == Sum(rows, MissingLedgerCount)
    ensures ColumnTotal(Summarize(rows), ms, AmountMismatchesOf) == Sum(rows, AmountMismatchCount)
  {
    var s := Summarize(rows);
    GroupInAll(rows, set m | m in ms);
    forall m | m in ms ensures s[m] == SummarizeGroup(m, Group(rows, m)) && |Group(rows, m)| == Sum(Group(rows, m), One) {
      SumGroupOfOnes(rows, m);
    }
    ColumnTotalOfGroups(s, rows, ms, NumTransactionsOf, One);
    SumOfOnes(rows);
    ColumnTotalOfGroups(s, rows, ms, TotalPaymentsOf, PaymentCents);
    ColumnTotalOfGroups(s, rows, ms, TotalLedgerOf, LedgerCents);
    ColumnTotalOfGroups(s, rows, ms, NumDiscrepanciesOf, DiscrepancyCount);
    ColumnTotalOfGroups(s, rows, ms, MissingPaymentsOf, MissingPaymentCount);
    ColumnTotalOfGroups(s, rows, ms, MissingLedgerEntriesOf, MissingLedgerCount);
    ColumnTotalOfGroups(s, rows, ms, AmountMismatchesOf, AmountMismatchCount);
  }
}
