/** Payment schedule rows: what a credit still owes, which rows are pending, and the invariants that relate the
    rows of a credit to its status and monthly payment. */
module Schedule {
  import opened Basics
  import opened Tables
  import opened Prepayment

  /** ROUND(amount * 0.10, 2): a tenth of the amount, rounded half up to a cent. */
  function PenaltyFor(amount: int): int { (amount + 5) / 10 }

  /** paymentAmountForWithdrawal: an overdue row is collected together with its penalty. */
  function WithdrawalFor(r: Row): int {
    if r.status != RowOverdue || r.penalty <= 0 then r.amount else r.amount + r.penalty
  }

  /** Amounts of the unpaid rows of credit c. */
  function OwedOn(c: int): Row -> int {
    (r: Row) => if r.credit == c && r.status != RowPaid then r.amount else 0
  }

  /** Penalties of the paid rows of credit c. */
  function PenaltyPaidOn(c: int): Row -> int {
    (r: Row) => if r.credit == c && r.status == RowPaid then r.penalty else 0
  }

  predicate IsPending(r: Row, c: int) { r.credit == c && r.status == RowPending }

  /** Ids of the pending rows of credit c, in id order. */
  function PendingIds(rows: seq<Row>, c: int): (ids: seq<int>)
    ensures forall k :: 0 <= k < |ids| ==> 0 <= ids[k] < |rows| && IsPending(rows[ids[k]], c)
    ensures forall k, l :: 0 <= k < l < |ids| ==> ids[k] < ids[l]
    ensures forall i :: 0 <= i < |rows| && IsPending(rows[i], c) ==> i in ids
  {
    if rows == [] then []
    else
      var last := |rows| - 1;
      if IsPending(rows[last], c) then PendingIds(rows[..last], c) + [last] else PendingIds(rows[..last], c)
  }

  function AmountsAt(rows: seq<Row>, ids: seq<int>): seq<int>
    requires forall k :: 0 <= k < |ids| ==> 0 <= ids[k] < |rows|
  {
    seq(|ids|, k requires 0 <= k < |ids| => rows[ids[k]].amount)
  }

  /** The pending amounts of credit c in id order. */
  function PendingAmounts(rows: seq<Row>, c: int): (amounts: seq<int>)
    ensures |amounts| == |PendingIds(rows, c)|
  {
    AmountsAt(rows, PendingIds(rows, c))
  }

  function PendingOn(c: int): Row -> int {
    (r: Row) => if IsPending(r, c) then r.amount else 0
  }

  lemma PendingAmountsSnoc(rows: seq<Row>, c: int)
    requires rows != []
    ensures var last := |rows| - 1;
            PendingAmounts(rows, c)
              == if IsPending(rows[last], c) then PendingAmounts(rows[..last], c) + [rows[last].amount]
                 else PendingAmounts(rows[..last], c)
  {
    var last := |rows| - 1;
    var ids := PendingIds(rows[..last], c);
    assert AmountsAt(rows, ids) == AmountsAt(rows[..last], ids);
  }

  lemma {:induction false} PendingTotal(rows: seq<Row>, c: int)
    ensures Total(PendingAmounts(rows, c)) == Sum(rows, PendingOn(c))
  {
    if rows != [] {
      var last := |rows| - 1;
      PendingTotal(rows[..last], c);
      PendingAmountsSnoc(rows, c);
      if IsPending(rows[last], c) {
        SumAppend(PendingAmounts(rows[..last], c), rows[last].amount, Cents);
      }
    }
  }

  function PendingOne(c: int): Row -> int {
    (r: Row) => if IsPending(r, c) then 1 else 0
  }

  lemma {:induction false} PendingCount(rows: seq<Row>, c: int)
    ensures |PendingIds(rows, c)| == Sum(rows, PendingOne(c))
  {
    if rows != [] {
      PendingCount(rows[..|rows| - 1], c);
    }
  }

  // ----- what a prepayment writes back -----

  /** A row prepaid whole is marked paid and keeps its amount; any other gets its new amount. */
  function Rewrite(r: Row, amount: int): Row {
    if amount == 0 then r.(status := RowPaid) else r.(amount := amount)
  }

  function WriteBack(rows: seq<Row>, ids: seq<int>, news: seq<int>): (rows': seq<Row>)
    requires |ids| == |news|
    requires forall k :: 0 <= k < |ids| ==> 0 <= ids[k] < |rows|
    ensures |rows'| == |rows|
    ensures ids == [] ==> rows' == rows
  {
    if ids == [] then rows
    else
      var last := |ids| - 1;
      WriteBack(rows, ids[..last], news[..last])[ids[last] := Rewrite(rows[ids[last]], news[last])]
  }

  /** Row by row: listed rows are rewritten, the others are as they were. */
  ghost predicate WrittenBack(rows: seq<Row>, rows': seq<Row>, ids: seq<int>, news: seq<int>)
    requires |ids| == |news|
    requires forall k :: 0 <= k < |ids| ==> 0 <= ids[k] < |rows|
  {
    && |rows'| == |rows|
    && (forall k :: 0 <= k < |ids| ==> rows'[ids[k]] == Rewrite(rows[ids[k]], news[k]))
    && (forall i :: 0 <= i < |rows| && i !in ids ==> rows'[i] == rows[i])
  }

  lemma {:induction false} WriteBackUntouched(rows: seq<Row>, ids: seq<int>, news: seq<int>, i: int)
    requires |ids| == |news| && 0 <= i < |rows|
    requires forall k :: 0 <= k < |ids| ==> 0 <= ids[k] < |rows| && ids[k] != i
    ensures WriteBack(rows, ids, news)[i] == rows[i]
  {
    if ids != [] {
      WriteBackUntouched(rows, ids[..|ids| - 1], news[..|ids| - 1], i);
    }
  }

  lemma {:induction false} WriteBackAt(rows: seq<Row>, ids: seq<int>, news: seq<int>, k: int)
    requires |ids| == |news| && 0 <= k < |ids|
    requires forall l :: 0 <= l < |ids| ==> 0 <= ids[l] < |rows|
    requires forall l, m :: 0 <= l < m < |ids| ==> ids[l] < ids[m]
    ensures WriteBack(rows, ids, news)[ids[k]] == Rewrite(rows[ids[k]], news[k])
  {
    var last := |ids| - 1;
    if k < last {
      WriteBackAt(rows, ids[..last], news[..last], k);
    }
  }

  lemma WriteBackRowByRow(rows: seq<Row>, ids: seq<int>, news: seq<int>)
    requires |ids| == |news|
    requires forall k :: 0 <= k < |ids| ==> 0 <= ids[k] < |rows|
    requires forall k, l :: 0 <= k < l < |ids| ==> ids[k] < ids[l]
    ensures WrittenBack(rows, WriteBack(rows, ids, news), ids, news)
  {
    var rows' := WriteBack(rows, ids, news);
    forall k | 0 <= k < |ids| ensures rows'[ids[k]] == Rewrite(rows[ids[k]], news[k]) {
      WriteBackAt(rows, ids, news, k);
    }
    forall i | 0 <= i < |rows| && i !in ids ensures rows'[i] == rows[i] {
      WriteBackUntouched(rows, ids, news, i);
    }
  }

  /** Rewriting pending rows of c lowers what c owes by exactly the difference of the totals. */
  lemma {:induction false} WriteBackOwed(rows: seq<Row>, ids: seq<int>, news: seq<int>, c: int)
    requires |ids| == |news|
    requires forall k :: 0 <= k < |ids| ==> 0 <= ids[k] < |rows| && IsPending(rows[ids[k]], c)
    requires forall k, l :: 0 <= k < l < |ids| ==> ids[k] < ids[l]
    ensures Sum(WriteBack(rows, ids, news), OwedOn(c))
         == Sum(rows, OwedOn(c)) - Total(AmountsAt(rows, ids)) + Total(news)
  {
    if ids != [] {
      var last := |ids| - 1;
      var ids', news' := ids[..last], news[..last];
      WriteBackOwed(rows, ids', news', c);
      WriteBackUntouched(rows, ids', news', ids[last]);
      var rows' := WriteBack(rows, ids', news');
      SumUpdate(rows', ids[last], Rewrite(rows[ids[last]], news[last]), OwedOn(c));
      assert AmountsAt(rows, ids)[..last] == AmountsAt(rows, ids');
    }
  }

  /** The rows of c still pending afterwards are the ones with a positive new amount. */
  lemma {:induction false} WriteBackPendingCount(rows: seq<Row>, ids: seq<int>, news: seq<int>, c: int)
    requires |ids| == |news|
    requires forall k :: 0 <= k < |ids| ==> 0 <= ids[k] < |rows| && IsPending(rows[ids[k]], c) && 0 <= news[k]
    requires forall k, l :: 0 <= k < l < |ids| ==> ids[k] < ids[l]
    ensures Sum(WriteBack(rows, ids, news), PendingOne(c))
         == Sum(rows, PendingOne(c)) - |ids| + |Positive(news)|
  {
    if ids != [] {
      var last := |ids| - 1;
      var ids', news' := ids[..last], news[..last];
      WriteBackPendingCount(rows, ids', news', c);
      WriteBackUntouched(rows, ids', news', ids[last]);
      var rows' := WriteBack(rows, ids', news');
      SumUpdate(rows', ids[last], Rewrite(rows[ids[last]], news[last]), PendingOne(c));
    }
  }

  /** Other credits owe what they owed, and no penalty is collected. */
  lemma WriteBackElsewhere(rows: seq<Row>, ids: seq<int>, news: seq<int>, c: int, d: int)
    requires |ids| == |news|
    requires forall k :: 0 <= k < |ids| ==> 0 <= ids[k] < |rows| && IsPending(rows[ids[k]], c)
    requires forall k, l :: 0 <= k < l < |ids| ==> ids[k] < ids[l]
    requires forall i :: 0 <= i < |rows| ==> PenaltyRule(rows[i])
    ensures d != c ==> Sum(WriteBack(rows, ids, news), OwedOn(d)) == Sum(rows, OwedOn(d))
    ensures Sum(WriteBack(rows, ids, news), PenaltyPaidOn(d)) == Sum(rows, PenaltyPaidOn(d))
  {
    WriteBackRowByRow(rows, ids, news);
    var rows' := WriteBack(rows, ids, news);
    forall i | 0 <= i < |rows|
      ensures d != c ==> OwedOn(d)(rows'[i]) == OwedOn(d)(rows[i])
      ensures PenaltyPaidOn(d)(rows'[i]) == PenaltyPaidOn(d)(rows[i])
    {
      if i in ids {
        var k :| 0 <= k < |ids| && ids[k] == i;
      }
    }
    SumCongruent(rows', rows, PenaltyPaidOn(d), PenaltyPaidOn(d));
    if d != c {
      SumCongruent(rows', rows, OwedOn(d), OwedOn(d));
    }
  }

  // ----- the invariants of a schedule -----

  /** A pending row has no penalty, an overdue one exactly a tenth of its amount, charged once. */
  ghost predicate PenaltyRule(r: Row) {
    match r.status
    case RowPending => r.penalty == 0
    case RowOverdue => r.penalty == PenaltyFor(r.amount)
    case RowPaid => r.penalty == 0 || r.penalty == PenaltyFor(r.amount)
  }

  ghost predicate RowsSound(credits: seq<Credit>, rows: seq<Row>) {
    forall i :: 0 <= i < |rows| ==>
      && 0 <= rows[i].credit < |credits|
      && 0 < rows[i].amount
      && PenaltyRule(rows[i])
  }

  /** (payment_date, id) order and id order agree within a credit. */
  ghost predicate DatesInOrder(rows: seq<Row>) {
    forall i, j :: 0 <= i < j < |rows| && rows[i].credit == rows[j].credit ==> rows[i].date <= rows[j].date
  }

  /** Pending amounts of a credit never increase along its schedule. */
  ghost predicate PendingNonIncreasing(rows: seq<Row>) {
    forall i, j ::
      0 <= i < j < |rows| && rows[i].credit == rows[j].credit && rows[i].status == rows[j].status == RowPending ==>
        rows[j].amount <= rows[i].amount
  }

  /** The stored monthly payment is at least every pending amount. */
  ghost predicate WithinMonthly(credits: seq<Credit>, rows: seq<Row>) {
    forall i :: 0 <= i < |rows| && 0 <= rows[i].credit < |credits| && rows[i].status == RowPending ==>
      rows[i].amount <= credits[rows[i].credit].monthly
  }

  predicate AllPaid(rows: seq<Row>, c: int) {
    forall i :: 0 <= i < |rows| && rows[i].credit == c ==> rows[i].status == RowPaid
  }

  predicate HasOverdue(rows: seq<Row>, c: int) {
    exists i :: 0 <= i < |rows| && rows[i].credit == c && rows[i].status == RowOverdue
  }

  /** A credit is closed exactly when all its rows are paid, and an active one has no overdue row. */
  ghost predicate Coupled(credits: seq<Credit>, rows: seq<Row>) {
    forall c :: 0 <= c < |credits| ==>
      && (credits[c].status == Closed <==> AllPaid(rows, c))
      && (credits[c].status == Active ==> !HasOverdue(rows, c))
  }

  /** No credit has more pending rows than its stored term. */
  ghost predicate TermsCover(credits: seq<Credit>, rows: seq<Row>) {
    forall c :: 0 <= c < |credits| ==> |PendingIds(rows, c)| <= credits[c].term
  }

  ghost predicate Sound(credits: seq<Credit>, rows: seq<Row>) {
    && RowsSound(credits, rows)
    && DatesInOrder(rows)
    && PendingNonIncreasing(rows)
    && WithinMonthly(credits, rows)
    && Coupled(credits, rows)
  }
}
