/** The reconciler: a full outer join of payment and ledger records on the
    key (PaymentID, Merchant), followed by the four discrepancy flags. */
module Reconciler {
  import opened Records

  datatype Side = PaymentSide | LedgerSide

  /** Two records of one side share a key. */
  datatype Error = DuplicateKey(side: Side, key: Key)

  /** The keys present in a record sequence. */
  function KeySet(rs: seq<Record>): set<Key> {
    set r | r in rs :: KeyOf(r)
  }

  /** No two records of the sequence share a key. */
  predicate UniqueKeys(rs: seq<Record>) {
    forall i, j :: 0 <= i < j < |rs| ==> KeyOf(rs[i]) != KeyOf(rs[j])
  }

  /** Key k is held by two different records of rs. */
  ghost predicate Duplicated(rs: seq<Record>, k: Key) {
    exists i, j :: 0 <= i < j < |rs| && KeyOf(rs[i]) == k && KeyOf(rs[j]) == k
  }

  lemma KeySetCons(rs: seq<Record>)
    requires rs != []
    ensures KeySet(rs) == {KeyOf(rs[0])} + KeySet(rs[1..])
  {
    assert rs == [rs[0]] + rs[1..];
  }

  /** Uniqueness unfolds along the sequence. */
  lemma UniqueKeysCons(rs: seq<Record>)
    requires rs != []
    ensures UniqueKeys(rs) <==> KeyOf(rs[0]) !in KeySet(rs[1..]) && UniqueKeys(rs[1..])
  {
    if KeyOf(rs[0]) in KeySet(rs[1..]) {
      var r :| r in rs[1..] && KeyOf(r) == KeyOf(rs[0]);
      var j :| 0 <= j < |rs[1..]| && rs[1..][j] == r;
      assert KeyOf(rs[0]) == KeyOf(rs[j + 1]);
    } else if !UniqueKeys(rs[1..]) {
      var i, j :| 0 <= i < j < |rs[1..]| && KeyOf(rs[1..][i]) == KeyOf(rs[1..][j]);
      assert KeyOf(rs[i + 1]) == KeyOf(rs[j + 1]);
    } else {
      forall i, j | 0 <= i < j < |rs| ensures KeyOf(rs[i]) != KeyOf(rs[j]) {
        if i == 0 {
          assert rs[j] in rs[1..];
        } else {
          assert rs[i] == rs[1..][i - 1] && rs[j] == rs[1..][j - 1];
        }
      }
    }
  }

  /** The first key of rs that some later record repeats, if any. */
  function FirstDuplicate(rs: seq<Record>): (d: Option<Key>)
    ensures d.None? <==> UniqueKeys(rs)
    ensures d.Some? ==> Duplicated(rs, d.value)
  {
    if rs == [] then None
    else
      UniqueKeysCons(rs);
      if KeyOf(rs[0]) in KeySet(rs[1..]) then
        var r :| r in rs[1..] && KeyOf(r) == KeyOf(rs[0]);
        var j :| 0 <= j < |rs[1..]| && rs[1..][j] == r;
        assert KeyOf(rs[0]) == KeyOf(rs[j + 1]);
        Some(KeyOf(rs[0]))
      else
        var d := FirstDuplicate(rs[1..]);
        if d.Some? then
          var i, j :| 0 <= i < j < |rs[1..]| && KeyOf(rs[1..][i]) == d.value && KeyOf(rs[1..][j]) == d.value;
          assert KeyOf(rs[i + 1]) == d.value && KeyOf(rs[j + 1]) == d.value;
          d
        else
          d
  }

  /** The first record of rs with key k, if any. */
  function Lookup(rs: seq<Record>, k: Key): (r: Option<Record>)
    ensures r.Some? <==> k in KeySet(rs)
    ensures r.Some? ==> r.value in rs && KeyOf(r.value) == k
  {
    if rs == [] then None
    else
      KeySetCons(rs);
      if KeyOf(rs[0]) == k then Some(rs[0]) else Lookup(rs[1..], k)
  }

  /** With unique keys, looking up a record's key finds that record. */
  lemma {:induction false} LookupUnique(rs: seq<Record>, r: Record)
    requires UniqueKeys(rs) && r in rs
    ensures Lookup(rs, KeyOf(r)) == Some(r)
  {
    UniqueKeysCons(rs);
    if r != rs[0] {
      assert r in rs[1..];
      LookupUnique(rs[1..], r);
    }
  }

  function AmountOf(r: Option<Record>): Option<int> {
    if r.Some? then r.value.amount else None
  }

  function DateOf(r: Option<Record>): Option<Date> {
    if r.Some? then Some(r.value.date) else None
  }

  /** The joined row for key k, before any flag column is added: the payment
      columns from p, the ledger columns from l, absent where the side has no
      record. */
  function Merge(k: Key, p: Option<Record>, l: Option<Record>): (row: Row)
    ensures RowKey(row) == k
    ensures row.paymentAmount == AmountOf(p) && row.paymentDate == DateOf(p)
    ensures row.ledgerAmount == AmountOf(l) && row.ledgerDate == DateOf(l)
  {
    Row(k.paymentId, k.merchant, DateOf(p), AmountOf(p), DateOf(l), AmountOf(l), false, false, false, false)
  }

  /** MissingPayment: the payment amount is absent. */
  function FlagMissingPayment(r: Row): Row {
    r.(missingPayment := r.paymentAmount.None?)
  }

  /** MissingLedger: the ledger amount is absent. */
  function FlagMissingLedger(r: Row): Row {
    r.(missingLedger := r.ledgerAmount.None?)
  }

  /** AmountMismatch: neither side is missing and the amounts differ. */
  function FlagAmountMismatch(r: Row): Row {
    r.(amountMismatch := !r.missingPayment && !r.missingLedger && r.paymentAmount != r.ledgerAmount)
  }

  /** Discrepancy: any of the three flags before it. */
  function FlagDiscrepancy(r: Row): Row {
    r.(discrepancy := r.missingPayment || r.missingLedger || r.amountMismatch)
  }

  /** The four flag columns, added in the order the engine adds them. Only
      the flags change, and afterwards they agree with the amounts. */
  function Classify(r: Row): (c: Row)
    ensures Classified(c)
    ensures RowKey(c) == RowKey(r)
    ensures c.paymentDate == r.paymentDate && c.paymentAmount == r.paymentAmount
    ensures c.ledgerDate == r.ledgerDate && c.ledgerAmount == r.ledgerAmount
    ensures c.amountMismatch ==> !c.missingPayment && !c.missingLedger
    ensures c.paymentAmount.Some? && c.paymentAmount == c.ledgerAmount ==> !c.discrepancy
  {
    FlagDiscrepancy(FlagAmountMismatch(FlagMissingLedger(FlagMissingPayment(r))))
  }

  /** The reconciled row for key k when p and l are the records the two
      sides hold for it. */
  function JoinRow(k: Key, p: Option<Record>, l: Option<Record>): Row {
    Classify(Merge(k, p, l))
  }

  /** The ledger records whose key no payment has, in ledger order. */
  function LedgerOnly(ls: seq<Record>, paymentKeys: set<Key>): (o: seq<Record>)
    ensures forall l :: l in o <==> l in ls && KeyOf(l) !in paymentKeys
    ensures UniqueKeys(ls) ==> UniqueKeys(o)
  {
    if ls == [] then []
    else
      var rest := LedgerOnly(ls[1..], paymentKeys);
      UniqueKeysCons(ls);
      if KeyOf(ls[0]) in paymentKeys then rest
      else
        var o := [ls[0]] + rest;
        assert o[1..] == rest;
        assert UniqueKeys(ls) ==> KeyOf(ls[0]) !in KeySet(rest);
        UniqueKeysCons(o);
        o
  }

  /** The rows of the full outer join: one per payment record, matched with
      the ledger record of the same key if there is one, followed by one per
      ledger record whose key no payment has. */
  function JoinRows(ps: seq<Record>, ls: seq<Record>): seq<Row> {
    var left := seq(|ps|, i requires 0 <= i < |ps| => JoinRow(KeyOf(ps[i]), Some(ps[i]), Lookup(ls, KeyOf(ps[i]))));
    var o := LedgerOnly(ls, KeySet(ps));
    var right := seq(|o|, i requires 0 <= i < |o| => JoinRow(KeyOf(o[i]), None, Some(o[i])));
    left + right
  }

  /** Reconciliation: rejects a side that holds a key twice (the first such
      key is named, payments checked first) and otherwise returns the
      flagged rows of the full outer join. */
  function Reconcile(ps: seq<PaymentRecord>, ls: seq<LedgerRecord>): (res: Result<seq<Row>, Error>)
    ensures res.Ok? <==> UniqueKeys(ps) && UniqueKeys(ls)
    ensures res.Err? && res.error.side == PaymentSide ==> Duplicated(ps, res.error.key)
    ensures res.Err? && res.error.side == LedgerSide ==> UniqueKeys(ps) && Duplicated(ls, res.error.key)
  {
    match FirstDuplicate(ps)
    case Some(k) => Err(DuplicateKey(PaymentSide, k))
    case None =>
      match FirstDuplicate(ls)
      case Some(k) => Err(DuplicateKey(LedgerSide, k))
      case None => Ok(JoinRows(ps, ls))
  }

  // ---------------------------------------------------------------------
  // The join as a table keyed by (PaymentID, Merchant)

  /** The reference meaning of the full outer join: for every key that either
      side holds, and for no other key, the row built from the records the two
      sides hold for it. */
  ghost function OuterJoin(ps: seq<Record>, ls: seq<Record>): map<Key, Row> {
    map k | k in KeySet(ps) + KeySet(ls) :: JoinRow(k, Lookup(ps, k), Lookup(ls, k))
  }

  /** rows lists the table t: each key once, and each row the table's row. */
  ghost predicate Lists(rows: seq<Row>, t: map<Key, Row>) {
    && (forall i, j :: 0 <= i < j < |rows| ==> RowKey(rows[i]) != RowKey(rows[j]))
    && (forall i :: 0 <= i < |rows| ==> RowKey(rows[i]) in t && t[RowKey(rows[i])] == rows[i])
    && (forall k :: k in t ==> exists i :: 0 <= i < |rows| && RowKey(rows[i]) == k)
  }

  function RowKeys(rows: seq<Row>): set<Key> {
    set r | r in rows :: RowKey(r)
  }

  /** A sequence of rows with distinct keys has as many keys as rows. */
  lemma {:induction false} DistinctRowKeysCard(rows: seq<Row>)
    requires forall i, j :: 0 <= i < j < |rows| ==> RowKey(rows[i]) != RowKey(rows[j])
    ensures |RowKeys(rows)| == |rows|
  {
    if rows != [] {
      var tail := rows[1..];
      assert rows == [rows[0]] + tail;
      assert RowKeys(rows) == {RowKey(rows[0])} + RowKeys(tail);
      forall i, j | 0 <= i < j < |tail| ensures RowKey(tail[i]) != RowKey(tail[j]) {
        assert tail[i] == rows[i + 1] && tail[j] == rows[j + 1];
      }
      assert RowKey(rows[0]) !in RowKeys(tail);
      DistinctRowKeysCard(tail);
    }
  }

  /** A listing of a table has exactly the table's keys and as many rows. */
  lemma ListingSize(rows: seq<Row>, t: map<Key, Row>)
    requires Lists(rows, t)
    ensures RowKeys(rows) == t.Keys
    ensures |rows| == |t|
  {
    forall k | k in t ensures k in RowKeys(rows) {
      var i :| 0 <= i < |rows| && RowKey(rows[i]) == k;
    }
    DistinctRowKeysCard(rows);
  }

  /** Two listings of one table hold the same rows. */
  lemma ListingsAgree(rows1: seq<Row>, rows2: seq<Row>, t: map<Key, Row>)
    requires Lists(rows1, t) && Lists(rows2, t)
    ensures forall r :: r in rows1 <==> r in rows2
  {
    forall r | r in rows1 ensures r in rows2 {
      var i :| 0 <= i < |rows1| && rows1[i] == r;
      var j :| 0 <= j < |rows2| && RowKey(rows2[j]) == RowKey(r);
    }
    forall r | r in rows2 ensures r in rows1 {
      var j :| 0 <= j < |rows2| && rows2[j] == r;
      var i :| 0 <= i < |rows1| && RowKey(rows1[i]) == RowKey(r);
    }
  }

  /** The join's rows by position: first the payment rows, then the rows of
      the ledger-only records. */
  lemma JoinRowsAt(ps: seq<Record>, ls: seq<Record>, i: int)
    requires 0 <= i < |JoinRows(ps, ls)|
    ensures |JoinRows(ps, ls)| == |ps| + |LedgerOnly(ls, KeySet(ps))|
    ensures i < |ps| ==>
              JoinRows(ps, ls)[i] == JoinRow(KeyOf(ps[i]), Some(ps[i]), Lookup(ls, KeyOf(ps[i])))
    ensures i >= |ps| ==>
              var l := LedgerOnly(ls, KeySet(ps))[i - |ps|];
              && l in ls && KeyOf(l) !in KeySet(ps)
              && JoinRows(ps, ls)[i] == JoinRow(KeyOf(l), None, Some(l))
  {
  }

  /** Each joined row is the outer join table's row for its key. */
  lemma JoinRowsMatchTable(ps: seq<Record>, ls: seq<Record>, i: int)
    requires UniqueKeys(ps) && UniqueKeys(ls)
    requires 0 <= i < |JoinRows(ps, ls)|
    ensures RowKey(JoinRows(ps, ls)[i]) in OuterJoin(ps, ls)
    ensures OuterJoin(ps, ls)[RowKey(JoinRows(ps, ls)[i])] == JoinRows(ps, ls)[i]
  {
    JoinRowsAt(ps, ls, i);
    if i < |ps| {
      LookupUnique(ps, ps[i]);
    } else {
      LookupUnique(ls, LedgerOnly(ls, KeySet(ps))[i - |ps|]);
    }
  }

  lemma JoinRowsDistinct(ps: seq<Record>, ls: seq<Record>, i: int, j: int)
    requires UniqueKeys(ps) && UniqueKeys(ls)
    requires 0 <= i < j < |JoinRows(ps, ls)|
    ensures RowKey(JoinRows(ps, ls)[i]) != RowKey(JoinRows(ps, ls)[j])
  {
    JoinRowsAt(ps, ls, i);
    JoinRowsAt(ps, ls, j);
    var n := |ps|;
    var o := LedgerOnly(ls, KeySet(ps));
    if j < n {
    } else if i < n {
      assert KeyOf(ps[i]) in KeySet(ps);
    } else {
      assert o[i - n] == o[i - n] && o[j - n] == o[j - n];
    }
  }

  lemma JoinRowsCover(ps: seq<Record>, ls: seq<Record>, k: Key)
    requires k in KeySet(ps) + KeySet(ls)
    ensures exists i :: 0 <= i < |JoinRows(ps, ls)| && RowKey(JoinRows(ps, ls)[i]) == k
  {
    var rows := JoinRows(ps, ls);
    var n := |ps|;
    var o := LedgerOnly(ls, KeySet(ps));
    if k in KeySet(ps) {
      var p :| p in ps && KeyOf(p) == k;
      var i :| 0 <= i < n && ps[i] == p;
      JoinRowsAt(ps, ls, i);
    } else {
      var l :| l in ls && KeyOf(l) == k;
      assert l in o;
      var i :| 0 <= i < |o| && o[i] == l;
      JoinRowsAt(ps, ls, n + i);
    }
  }

  lemma JoinRowsListOuterJoin(ps: seq<Record>, ls: seq<Record>)
    requires UniqueKeys(ps) && UniqueKeys(ls)
    ensures Lists(JoinRows(ps, ls), OuterJoin(ps, ls))
  {
    var rows := JoinRows(ps, ls);
    var t := OuterJoin(ps, ls);
    forall i | 0 <= i < |rows| ensures RowKey(rows[i]) in t && t[RowKey(rows[i])] == rows[i] {
      JoinRowsMatchTable(ps, ls, i);
    }
    forall i, j | 0 <= i < j < |rows| ensures RowKey(rows[i]) != RowKey(rows[j]) {
      JoinRowsDistinct(ps, ls, i, j);
    }
    forall k | k in t ensures exists i :: 0 <= i < |rows| && RowKey(rows[i]) == k {
      JoinRowsCover(ps, ls, k);
    }
  }

  /** The rows a successful reconciliation returns list the outer join
      table, so there is exactly one row per key of either side. */
  lemma ReconcileListsOuterJoin(ps: seq<PaymentRecord>, ls: seq<LedgerRecord>)
    requires Reconcile(ps, ls).Ok?
    ensures Lists(Reconcile(ps, ls).value, OuterJoin(ps, ls))
    ensures |Reconcile(ps, ls).value| == |KeySet(ps) + KeySet(ls)|
  {
    assert Reconcile(ps, ls).value == JoinRows(ps, ls);
    JoinRowsListOuterJoin(ps, ls);
    ListingSize(JoinRows(ps, ls), OuterJoin(ps, ls));
    OuterJoinKeys(ps, ls);
  }

  lemma OuterJoinKeys(ps: seq<Record>, ls: seq<Record>)
    ensures OuterJoin(ps, ls).Keys == KeySet(ps) + KeySet(ls)
    ensures |OuterJoin(ps, ls)| == |KeySet(ps) + KeySet(ls)|
  {
  }

  // ---------------------------------------------------------------------
  // What each row of the outer join says about the inputs

  /** Every key of either side has a row; each row carries exactly the date
      and amount of the record of its key on each side, and nothing for a
      side that has no record of that key. */
  lemma OuterJoinCarriesRecords(ps: seq<PaymentRecord>, ls: seq<LedgerRecord>)
    requires UniqueKeys(ps) && UniqueKeys(ls)
    ensures OuterJoin(ps, ls).Keys == KeySet(ps) + KeySet(ls)
    ensures forall k :: k in OuterJoin(ps, ls) ==> RowKey(OuterJoin(ps, ls)[k]) == k
    ensures forall p :: p in ps ==>
              && OuterJoin(ps, ls)[KeyOf(p)].paymentAmount == p.amount
              && OuterJoin(ps, ls)[KeyOf(p)].paymentDate == Some(p.date)
    ensures forall l :: l in ls ==>
              && OuterJoin(ps, ls)[KeyOf(l)].ledgerAmount == l.amount
              && OuterJoin(ps, ls)[KeyOf(l)].ledgerDate == Some(l.date)
    ensures forall k :: k in OuterJoin(ps, ls) && k !in KeySet(ps) ==>
              OuterJoin(ps, ls)[k].paymentAmount.None? && OuterJoin(ps, ls)[k].paymentDate.None?
    ensures forall k :: k in OuterJoin(ps, ls) && k !in KeySet(ls) ==>
              OuterJoin(ps, ls)[k].ledgerAmount.None? && OuterJoin(ps, ls)[k].ledgerDate.None?
  {
    forall p | p in ps ensures Lookup(ps, KeyOf(p)) == Some(p) {
      LookupUnique(ps, p);
    }
    forall l | l in ls ensures Lookup(ls, KeyOf(l)) == Some(l) {
      LookupUnique(ls, l);
    }
  }

  /** The amount a side holds for key k: absent when the side has no record
      of k or the record's amount is absent. */
  ghost function SideAmount(rs: seq<Record>, k: Key): Option<int> {
    if exists r :: r in rs && KeyOf(r) == k && r.amount.Some?
    then var r :| r in rs && KeyOf(r) == k && r.amount.Some?; r.amount
    else None
  }

  lemma SideAmountIsLookup(rs: seq<Record>, k: Key)
    requires UniqueKeys(rs)
    ensures SideAmount(rs, k) == AmountOf(Lookup(rs, k))
  {
    if exists r :: r in rs && KeyOf(r) == k && r.amount.Some? {
      var r :| r in rs && KeyOf(r) == k && r.amount.Some?;
      LookupUnique(rs, r);
    }
  }

  /** The flags of every row, stated in terms of the inputs: MissingPayment
      exactly when no payment of that key has an amount, MissingLedger
      likewise for the ledger, AmountMismatch exactly when both have an
      amount and they differ, Discrepancy when any of those holds. */
  lemma OuterJoinFlags(ps: seq<PaymentRecord>, ls: seq<LedgerRecord>, k: Key)
    requires UniqueKeys(ps) && UniqueKeys(ls)
    requires k in OuterJoin(ps, ls)
    ensures Classified(OuterJoin(ps, ls)[k])
    ensures OuterJoin(ps, ls)[k].missingPayment <==> SideAmount(ps, k).None?
    ensures OuterJoin(ps, ls)[k].missingLedger <==> SideAmount(ls, k).None?
    ensures OuterJoin(ps, ls)[k].amountMismatch <==>
              SideAmount(ps, k).Some? && SideAmount(ls, k).Some? && SideAmount(ps, k) != SideAmount(ls, k)
    ensures OuterJoin(ps, ls)[k].discrepancy <==>
              SideAmount(ps, k).None? || SideAmount(ls, k).None? || SideAmount(ps, k) != SideAmount(ls, k)
  {
    SideAmountIsLookup(ps, k);
    SideAmountIsLookup(ls, k);
  }

  // ---------------------------------------------------------------------
  // Independence from input order

  lemma {:induction false} KeySetCard(rs: seq<Record>)
    ensures |KeySet(rs)| <= |rs|
  {
    if rs != [] {
      KeySetCons(rs);
      KeySetCard(rs[1..]);
    }
  }

  /** Keys are unique exactly when there are as many keys as records. */
  lemma {:induction false} UniqueKeysCard(rs: seq<Record>)
    ensures UniqueKeys(rs) <==> |KeySet(rs)| == |rs|
  {
    if rs != [] {
      KeySetCons(rs);
      UniqueKeysCons(rs);
      KeySetCard(rs[1..]);
      UniqueKeysCard(rs[1..]);
    }
  }

  /** Rearranging a side changes neither its keys nor whether they are unique. */
  lemma PermutedSide(rs: seq<Record>, rs2: seq<Record>)
    requires multiset(rs) == multiset(rs2)
    ensures KeySet(rs) == KeySet(rs2)
    ensures UniqueKeys(rs) <==> UniqueKeys(rs2)
    ensures UniqueKeys(rs) ==> forall k :: Lookup(rs, k) == Lookup(rs2, k)
  {
    assert forall r :: r in rs <==> r in rs2 by {
      forall r ensures r in rs <==> r in rs2 {
        assert r in rs <==> r in multiset(rs);
        assert r in rs2 <==> r in multiset(rs2);
      }
    }
    assert |rs| == |multiset(rs)| == |rs2|;
    assert KeySet(rs) == KeySet(rs2);
    UniqueKeysCard(rs);
    UniqueKeysCard(rs2);
    if UniqueKeys(rs) {
      forall k ensures Lookup(rs, k) == Lookup(rs2, k) {
        var r := Lookup(rs, k);
        if r.Some? {
          LookupUnique(rs2, r.value);
        }
      }
    }
  }

  /** Reconciliation does not depend on the order of either input: the same
      inputs in another order are accepted or rejected alike, and when
      accepted yield the same rows, each key once. */
  lemma ReconcileOrderIndependent(ps: seq<PaymentRecord>, ls: seq<LedgerRecord>,
                                  ps2: seq<PaymentRecord>, ls2: seq<LedgerRecord>)
    requires multiset(ps) == multiset(ps2) && multiset(ls) == multiset(ls2)
    ensures Reconcile(ps, ls).Ok? <==> Reconcile(ps2, ls2).Ok?
    ensures Reconcile(ps, ls).Ok? ==>
              forall r :: r in Reconcile(ps, ls).value <==> r in Reconcile(ps2, ls2).value
  {
    PermutedSide(ps, ps2);
    PermutedSide(ls, ls2);
    if Reconcile(ps, ls).Ok? {
      assert OuterJoin(ps, ls) == OuterJoin(ps2, ls2);
      ReconcileListsOuterJoin(ps, ls);
      ReconcileListsOuterJoin(ps2, ls2);
      ListingsAgree(Reconcile(ps, ls).value, Reconcile(ps2, ls2).value, OuterJoin(ps, ls));
    }
  }

  // ---------------------------------------------------------------------
  // The reconciliation table, row by row

  /** Completeness: a successful reconciliation returns exactly one row for
      every key of either side and no row for any other key. */
  lemma ReconcileComplete(ps: seq<PaymentRecord>, ls: seq<LedgerRecord>)
    requires Reconcile(ps, ls).Ok?
    ensures RowKeys(Reconcile(ps, ls).value) == KeySet(ps) + KeySet(ls)
    ensures |Reconcile(ps, ls).value| == |KeySet(ps) + KeySet(ls)|
    ensures var rows := Reconcile(ps, ls).value;
      forall i, j :: 0 <= i < j < |rows| ==> RowKey(rows[i]) != RowKey(rows[j])
  {
    ReconcileListsOuterJoin(ps, ls);
    ListingSize(Reconcile(ps, ls).value, OuterJoin(ps, ls));
    OuterJoinKeys(ps, ls);
  }

  /** No loss: every payment's date and amount reach the row of its key, and
      so do every ledger record's; a side without the key contributes
      nothing to the row. */
  lemma ReconcileKeepsRecords(ps: seq<PaymentRecord>, ls: seq<LedgerRecord>)
    requires Reconcile(ps, ls).Ok?
    ensures var rows := Reconcile(ps, ls).value;
      forall p :: p in ps ==>
        exists i :: (0 <= i < |rows| && RowKey(rows[i]) == KeyOf(p)
                     && rows[i].paymentAmount == p.amount && rows[i].paymentDate == Some(p.date))
    ensures var rows := Reconcile(ps, ls).value;
      forall l :: l in ls ==>
        exists i :: (0 <= i < |rows| && RowKey(rows[i]) == KeyOf(l)
                     && rows[i].ledgerAmount == l.amount && rows[i].ledgerDate == Some(l.date))
    ensures var rows := Reconcile(ps, ls).value;
      forall i :: 0 <= i < |rows| && RowKey(rows[i]) !in KeySet(ps) ==>
        rows[i].paymentAmount.None? && rows[i].paymentDate.None?
    ensures var rows := Reconcile(ps, ls).value;
      forall i :: 0 <= i < |rows| && RowKey(rows[i]) !in KeySet(ls) ==>
        rows[i].ledgerAmount.None? && rows[i].ledgerDate.None?
  {
    var rows := Reconcile(ps, ls).value;
    var t := OuterJoin(ps, ls);
    ReconcileListsOuterJoin(ps, ls);
    OuterJoinCarriesRecords(ps, ls);
    forall p | p in ps
      ensures exists i :: (0 <= i < |rows| && RowKey(rows[i]) == KeyOf(p)
                           && rows[i].paymentAmount == p.amount && rows[i].paymentDate == Some(p.date))
    {
      assert KeyOf(p) in t;
      var i :| 0 <= i < |rows| && RowKey(rows[i]) == KeyOf(p);
    }
    forall l | l in ls
      ensures exists i :: (0 <= i < |rows| && RowKey(rows[i]) == KeyOf(l)
                           && rows[i].ledgerAmount == l.amount && rows[i].ledgerDate == Some(l.date))
    {
      assert KeyOf(l) in t;
      var i :| 0 <= i < |rows| && RowKey(rows[i]) == KeyOf(l);
    }
  }

  /** Flag correctness: every row's flags agree with its amounts, and, in
      terms of the inputs, MissingPayment holds exactly when no payment of the
      row's key has an amount, MissingLedger likewise for the ledger, and
      AmountMismatch exactly when both have an amount and they differ. */
  lemma ReconcileFlags(ps: seq<PaymentRecord>, ls: seq<LedgerRecord>)
    requires Reconcile(ps, ls).Ok?
    ensures var rows := Reconcile(ps, ls).value;
      forall i :: 0 <= i < |rows| ==> Classified(rows[i])
    ensures var rows := Reconcile(ps, ls).value;
      forall i :: 0 <= i < |rows| ==>
        && (rows[i].missingPayment <==> SideAmount(ps, RowKey(rows[i])).None?)
        && (rows[i].missingLedger <==> SideAmount(ls, RowKey(rows[i])).None?)
        && (rows[i].amountMismatch <==>
              (&& SideAmount(ps, RowKey(rows[i])).Some?
               && SideAmount(ls, RowKey(rows[i])).Some?
               && SideAmount(ps, RowKey(rows[i])) != SideAmount(ls, RowKey(rows[i]))))
  {
    var rows := Reconcile(ps, ls).value;
    var t := OuterJoin(ps, ls);
    ReconcileListsOuterJoin(ps, ls);
    forall i | 0 <= i < |rows|
      ensures Classified(rows[i])
      ensures rows[i].missingPayment <==> SideAmount(ps, RowKey(rows[i])).None?
      ensures rows[i].missingLedger <==> SideAmount(ls, RowKey(rows[i])).None?
      ensures rows[i].amountMismatch <==>
                (&& SideAmount(ps, RowKey(rows[i])).Some?
                 && SideAmount(ls, RowKey(rows[i])).Some?
                 && SideAmount(ps, RowKey(rows[i])) != SideAmount(ls, RowKey(rows[i])))
    {
      OuterJoinFlags(ps, ls, RowKey(rows[i]));
    }
  }
}
