/** The payment scheduler: the due list, one batch, which rows a run collects, and how many runs drain the list. */
module Scheduler {
  import opened Basics
  import opened Tables
  import opened Schedule
  import opened Bank
  import opened AccountEffects
  import opened CreditEffects
  import BankRuns
  import Credits
  import Ledger

  const BATCH_LIMIT := 100

  /** The WHERE clause of FindDuePayments. */
  predicate IsDue(credits: seq<Credit>, r: Row, today: int) {
    && (r.status == RowPending || r.status == RowOverdue)
    && r.date <= today
    && 0 <= r.credit < |credits| && credits[r.credit].status != CreditStatus.Closed
  }

  /** ORDER BY payment_date, id */
  predicate Before(rows: seq<Row>, i: int, j: int)
    requires 0 <= i < |rows| && 0 <= j < |rows|
  {
    rows[i].date < rows[j].date || (rows[i].date == rows[j].date && i < j)
  }

  ghost predicate Ordered(rows: seq<Row>, ids: seq<int>) {
    && (forall k :: 0 <= k < |ids| ==> 0 <= ids[k] < |rows|)
    && (forall k, l :: 0 <= k < l < |ids| ==> Before(rows, ids[k], ids[l]))
  }

  lemma LastIsLatest(rows: seq<Row>, ids: seq<int>, id: int, i: int)
    requires Ordered(rows, ids) && ids != [] && 0 <= id < |rows| && 0 <= i < |rows|
    requires i in ids[..|ids| - 1] || i == id
    requires rows[id].date < rows[ids[|ids| - 1]].date
    ensures Before(rows, i, ids[|ids| - 1])
  {
    if i in ids[..|ids| - 1] {
      var k :| 0 <= k < |ids| - 1 && ids[k] == i;
    }
  }

  /** The rows before the last one with a newer, earlier row among them still come before it. */
  lemma PlacedInOrder(rows: seq<Row>, ids: seq<int>, id: int, front: seq<int>)
    requires Ordered(rows, ids) && ids != [] && 0 <= id < |rows| && Ordered(rows, front)
    requires rows[id].date < rows[ids[|ids| - 1]].date
    requires forall i :: i in front <==> i in ids[..|ids| - 1] || i == id
    ensures Ordered(rows, front + [ids[|ids| - 1]])
    ensures forall i :: i in front + [ids[|ids| - 1]] <==> i in ids || i == id
  {
    var last := ids[|ids| - 1];
    assert ids == ids[..|ids| - 1] + [last];
    forall k | 0 <= k < |front| ensures Before(rows, front[k], last) {
      assert front[k] in front;
      LastIsLatest(rows, ids, id, front[k]);
    }
  }

  /** Places a newer row behind every row that is not later. */
  function Place(rows: seq<Row>, ids: seq<int>, id: int): (placed: seq<int>)
    requires Ordered(rows, ids) && 0 <= id < |rows|
    requires forall k :: 0 <= k < |ids| ==> ids[k] < id
    ensures Ordered(rows, placed) && |placed| == |ids| + 1
    ensures forall i :: i in placed <==> i in ids || i == id
  {
    if ids == [] then [id]
    else
      var last := |ids| - 1;
      if rows[ids[last]].date <= rows[id].date then ids + [id]
      else
        var front := Place(rows, ids[..last], id);
        PlacedInOrder(rows, ids, id, front);
        front + [ids[last]]
  }

  /** Ids of the due rows among the first n, in query order. */
  function DueAmong(db: Db, today: int, n: nat): (ids: seq<int>)
    requires n <= |db.rows|
    ensures Ordered(db.rows, ids)
    ensures forall i :: i in ids <==> 0 <= i < n && IsDue(db.credits, db.rows[i], today)
  {
    if n == 0 then []
    else
      var earlier := DueAmong(db, today, n - 1);
      assert forall k :: 0 <= k < |earlier| ==> earlier[k] in earlier;
      if IsDue(db.credits, db.rows[n - 1], today) then Place(db.rows, earlier, n - 1) else earlier
  }

  function DueIds(db: Db, today: int): seq<int> {
    DueAmong(db, today, |db.rows|)
  }

  /** FindDuePayments with its LIMIT. */
  function FindDue(db: Db, today: int, limit: nat): seq<int> {
    var ids := DueIds(db, today);
    if |ids| <= limit then ids else ids[..limit]
  }

  /** The batch loop of ProcessDuePayments; a payment that fails does not stop it. */
  function ProcessBatch(db: Db, ids: seq<int>): Db {
    if ids == [] then db
    else Credits.ProcessPayment(ProcessBatch(db, ids[..|ids| - 1]), ids[|ids| - 1]).0
  }

  function ProcessDue(db: Db, today: int): Db {
    ProcessBatch(db, FindDue(db, today, BATCH_LIMIT))
  }

  function ProcessDueTimes(db: Db, today: int, runs: nat): Db {
    if runs == 0 then db else ProcessDue(ProcessDueTimes(db, today, runs - 1), today)
  }

  // ----- what the list contains -----

  /** A row not paid whose date has come: to be collected, for the first time or again. */
  predicate Owing(r: Row, today: int) {
    r.status != RowPaid && r.date <= today
  }

  /** The due list is every owing row of the bank, overdue ones included: an open credit is never in the way. */
  lemma DueListIsWhatIsOwing(db: Db, today: int, i: int)
    requires Inv(db)
    ensures i in DueIds(db, today) <==> 0 <= i < |db.rows| && Owing(db.rows[i], today)
  {
    hide PendingIds, TermsCover, Ledger.Agrees;
  }

  function OwingOne(today: int): Row -> int {
    (r: Row) => if Owing(r, today) then 1 else 0
  }

  /** How many rows are owing. */
  function OwingCount(db: Db, today: int): int {
    Sum(db.rows, OwingOne(today))
  }

  lemma {:induction false} OwingCountIsLength(db: Db, today: int, n: nat)
    requires Inv(db) && n <= |db.rows|
    ensures |DueAmong(db, today, n)| == Sum(db.rows[..n], OwingOne(today))
  {
    if n > 0 {
      hide Inv;
      OwingCountIsLength(db, today, n - 1);
      assert db.rows[..n][..n - 1] == db.rows[..n - 1];
      DueIsOwing(db, today, n - 1);
    }
  }

  lemma DueIsOwing(db: Db, today: int, i: nat)
    requires Inv(db) && i < |db.rows|
    ensures IsDue(db.credits, db.rows[i], today) <==> Owing(db.rows[i], today)
  {
  }

  /** The batch: distinct owing rows, earliest first, as many as there are up to the limit. */
  lemma BatchIsEarliest(db: Db, today: int, limit: nat)
    requires Inv(db)
    ensures var batch := FindDue(db, today, limit);
            && Ordered(db.rows, batch)
            && |batch| == (if OwingCount(db, today) < limit then OwingCount(db, today) else limit)
            && (forall k :: 0 <= k < |batch| ==> Owing(db.rows[batch[k]], today))
            && (forall k, l :: 0 <= k < l < |batch| ==> batch[k] != batch[l])
  {
    hide Inv;
    var ids, batch := DueIds(db, today), FindDue(db, today, limit);
    assert db.rows[..|db.rows|] == db.rows;
    OwingCountIsLength(db, today, |db.rows|);
    forall k | 0 <= k < |batch| ensures Owing(db.rows[batch[k]], today) {
      assert batch[k] == ids[k] && ids[k] in ids;
      DueIsOwing(db, today, ids[k]);
    }
  }

  /** The limit may cut the list, never reorder it: whatever is left out comes later. */
  lemma FindDueTakesTheEarliest(db: Db, today: int, limit: nat, i: int)
    requires Inv(db) && 0 <= i < |db.rows| && Owing(db.rows[i], today)
    ensures var batch := FindDue(db, today, limit);
            && Ordered(db.rows, batch)
            && (i in batch || (|batch| == limit && forall k :: 0 <= k < limit ==> Before(db.rows, batch[k], i)))
  {
    hide Inv;
    var ids := DueIds(db, today);
    DueIsOwing(db, today, i);
    var k :| 0 <= k < |ids| && ids[k] == i;
    if limit <= k {
      assert forall j :: 0 <= j < limit ==> Before(db.rows, ids[j], ids[k]);
    } else {
      assert FindDue(db, today, limit)[k] == i;
    }
  }

  /** The owing rows in front of row i. */
  function InFront(db: Db, today: int, i: int): set<int>
    requires 0 <= i < |db.rows|
  {
    set j | 0 <= j < |db.rows| && Owing(db.rows[j], today) && Before(db.rows, j, i)
  }

  lemma {:induction false} DistinctElements(s: seq<int>)
    requires forall k, l :: 0 <= k < l < |s| ==> s[k] != s[l]
    ensures |set x | x in s| == |s|
  {
    if s != [] {
      var front, last := s[..|s| - 1], s[|s| - 1];
      DistinctElements(front);
      assert s == front + [last];
      assert (set x | x in s) == (set x | x in front) + {last};
    }
  }

  /** A row with fewer owing rows in front of it than the limit is in the batch. */
  lemma FrontRowsAreListed(db: Db, today: int, limit: nat, i: int)
    requires Inv(db) && 0 <= i < |db.rows| && Owing(db.rows[i], today)
    requires |InFront(db, today, i)| < limit
    ensures i in FindDue(db, today, limit)
  {
    hide Inv;
    var batch := FindDue(db, today, limit);
    FindDueTakesTheEarliest(db, today, limit, i);
    BatchIsEarliest(db, today, limit);
    if i !in batch {
      DistinctElements(batch);
      FewerInPart((set x | x in batch), InFront(db, today, i));
    }
  }

  // ----- which rows get paid -----

  /** What the rows of account a owing by day t cost, penalties included. */
  function CostOn(credits: seq<Credit>, a: int, t: int): Row -> int {
    (r: Row) =>
      if Owing(r, t) && 0 <= r.credit < |credits| && credits[r.credit].account == a then Price(r) else 0
  }

  /** The account is in use and holds the cost of all its rows owing by day t. */
  ghost predicate CanPay(db: Db, a: int, t: int) {
    InUse(db.accounts, a) && Sum(db.rows, CostOn(db.credits, a, t)) <= db.accounts[a].balance
  }

  /** Row id is the only one that may have changed, and credits keep their account. Account a stays in use; it pays for
      the row if it is its own, and keeps its balance otherwise. */
  ghost predicate Served(db: Db, db': Db, id: int, a: int) {
    && 0 <= id < |db.rows| == |db'.rows| && |db'.credits| == |db.credits|
    && 0 <= db.rows[id].credit < |db.credits|
    && (forall i :: 0 <= i < |db.rows| && i != id ==> db'.rows[i] == db.rows[i])
    && (forall c :: 0 <= c < |db.credits| ==> db'.credits[c].account == db.credits[c].account)
    && db'.rows[id].credit == db.rows[id].credit && db'.rows[id].date == db.rows[id].date
    && InUse(db.accounts, a) && InUse(db'.accounts, a)
    && (db.credits[db.rows[id].credit].account == a ==>
          && db'.rows[id] == db.rows[id].(status := RowPaid)
          && db'.accounts[a].balance == db.accounts[a].balance - if db.rows[id].status == RowPaid then 0
                                                                else Price(db.rows[id]))
    && (db.credits[db.rows[id].credit].account != a ==> db'.accounts[a].balance == db.accounts[a].balance)
  }

  /** Processing a row: an account that can pay all its rows up to the row's date pays this one if it is its own, and is
      not touched otherwise. */
  lemma RowIsProcessed(db: Db, id: int, a: int, t: int)
    requires Inv(db) && CanPay(db, a, t) && 0 <= id < |db.rows| && db.rows[id].date <= t
    ensures Served(db, Credits.ProcessPayment(db, id).0, id, a)
  {
    hide Inv, Sum;
    RowsNameCredits(db, id);
    if Owing(db.rows[id], t) && AccountOf(db, id) == a {
      CostIsCovered(db, id, a, t);
    }
    PaidExactlyWhenCovered(db, id);
    UncollectedRowsGoOverdue(db, id);
    assert Step(db, Op.ProcessPayment(id)) == Credits.ProcessPayment(db, id);
  }

  lemma RowsNameCredits(db: Db, id: int)
    requires Inv(db) && 0 <= id < |db.rows|
    ensures 0 <= db.rows[id].credit < |db.credits|
  {
  }

  lemma CostIsCovered(db: Db, id: int, a: int, t: int)
    requires Inv(db) && CanPay(db, a, t) && 0 <= id < |db.rows| && Owing(db.rows[id], t)
    requires db.credits[db.rows[id].credit].account == a
    ensures Price(db.rows[id]) <= db.accounts[a].balance
  {
    SumAtLeast(db.rows, CostOn(db.credits, a, t));
    assert CostOn(db.credits, a, t)(db.rows[id]) <= Sum(db.rows, CostOn(db.credits, a, t));
  }

  /** The payment lowers its account's balance and its remaining cost alike. */
  lemma ServedKeepsPaying(db: Db, db': Db, id: int, a: int, t: int)
    requires Served(db, db', id, a) && CanPay(db, a, t) && db.rows[id].date <= t
    ensures CanPay(db', a, t)
  {
    assert db'.rows == db.rows[id := db'.rows[id]];
    SumCongruent(db'.rows, db'.rows, CostOn(db'.credits, a, t), CostOn(db.credits, a, t));
    SumUpdate(db.rows, id, db'.rows[id], CostOn(db.credits, a, t));
  }

  /** Rows keep their credit and date, credits their account. */
  ghost predicate SameShape(db: Db, db': Db) {
    && |db'.rows| == |db.rows| && |db'.credits| == |db.credits|
    && (forall i :: 0 <= i < |db.rows| ==>
          && 0 <= db.rows[i].credit < |db.credits|
          && db'.rows[i].credit == db.rows[i].credit && db'.rows[i].date == db.rows[i].date)
    && (forall c :: 0 <= c < |db.credits| ==> db'.credits[c].account == db.credits[c].account)
  }

  /** The account that row i is collected from. */
  function AccountOf(db: Db, i: int): int
    requires 0 <= i < |db.rows|
  {
    if 0 <= db.rows[i].credit < |db.credits| then db.credits[db.rows[i].credit].account else -1
  }

  /** Of the rows collected from account a the listed ones are paid and the others are as they were. */
  ghost predicate PaysItsOwn(db: Db, db': Db, ids: seq<int>, a: int) {
    && |db'.rows| == |db.rows|
    && forall i :: 0 <= i < |db.rows| && AccountOf(db, i) == a ==>
         db'.rows[i] == if i in ids then db.rows[i].(status := RowPaid) else db.rows[i]
  }

  lemma ServingOneMore(db: Db, mid: Db, db': Db, ids: seq<int>, id: int, a: int)
    requires SameShape(db, mid) && PaysItsOwn(db, mid, ids, a) && Served(mid, db', id, a)
    ensures SameShape(db, db') && PaysItsOwn(db, db', ids + [id], a)
  {
  }

  lemma ShapeKeepsDates(db: Db, mid: Db, id: int)
    requires SameShape(db, mid) && 0 <= id < |db.rows|
    ensures id < |mid.rows| && mid.rows[id].date == db.rows[id].date
  {
  }

  /** Whatever the other accounts hold, an account that can pay all its rows up to day t pays every row of its own in a
      batch of rows up to that day: payments that fail do not stop it. */
  lemma {:induction false} BatchServes(db: Db, ids: seq<int>, a: int, t: int)
    requires Inv(db) && CanPay(db, a, t)
    requires forall k :: 0 <= k < |ids| ==> 0 <= ids[k] < |db.rows| && db.rows[ids[k]].date <= t
    ensures var db' := ProcessBatch(db, ids);
            && Inv(db') && CanPay(db', a, t) && SameShape(db, db')
            && PaysItsOwn(db, db', ids, a)
  {
    hide Inv, CanPay, Sum, SameShape, PaysItsOwn, Served;
    if ids == [] {
      ShapeIsKept(db);
    } else {
      var front, id := ids[..|ids| - 1], ids[|ids| - 1];
      assert ids == front + [id];
      BatchServes(db, front, a, t);
      var mid := ProcessBatch(db, front);
      ShapeKeepsDates(db, mid, id);
      RowIsProcessed(mid, id, a, t);
      ProcessPaymentKeepsInv(mid, id);
      ServedKeepsPaying(mid, ProcessBatch(db, ids), id, a, t);
      ServingOneMore(db, mid, ProcessBatch(db, ids), front, id, a);
    }
  }

  lemma ShapeIsKept(db: Db)
    requires Inv(db)
    ensures SameShape(db, db)
    ensures forall a: int :: PaysItsOwn(db, db, [], a)
  {
  }

  lemma {:induction false} BatchConcat(db: Db, ids: seq<int>, more: seq<int>)
    ensures ProcessBatch(db, ids + more) == ProcessBatch(ProcessBatch(db, ids), more)
  {
    if more == [] {
      assert ids + more == ids;
    } else {
      assert (ids + more)[..|ids + more| - 1] == ids + more[..|more| - 1];
      BatchConcat(db, ids, more[..|more| - 1]);
    }
  }

  lemma PaidStaysPaid(db: Db, ids: seq<int>, i: int)
    requires Inv(db) && 0 <= i < |db.rows| && db.rows[i].status == RowPaid
    ensures i < |ProcessBatch(db, ids).rows| && ProcessBatch(db, ids).rows[i] == db.rows[i]
  {
    BatchIsARun(db, ids);
    BankRuns.RowsMoveForwardOverRuns(
      db, seq(|ids|, k requires 0 <= k < |ids| => Op.ProcessPayment(ids[k])), i);
  }

  /** The retry: a pending or overdue row whose date has come, with fewer owing rows in front of it than the batch
      limit, is collected by the next run once its account holds amount and penalty of its rows up to that date. No
      payment on another account can prevent it. */
  lemma OwingRowIsCollected(db: Db, today: int, id: int)
    requires Inv(db) && 0 <= id < |db.rows| && Owing(db.rows[id], today)
    requires |InFront(db, today, id)| < BATCH_LIMIT
    requires CanPay(db, AccountOf(db, id), db.rows[id].date)
    ensures id < |ProcessDue(db, today).rows|
    ensures ProcessDue(db, today).rows[id] == db.rows[id].(status := RowPaid)
  {
    hide Inv, CanPay, InFront, FindDue, OwingCount, Before, ProcessBatch, SameShape, AccountOf, Ordered;
    var batch, a, t := FindDue(db, today, BATCH_LIMIT), AccountOf(db, id), db.rows[id].date;
    FrontRowsAreListed(db, today, BATCH_LIMIT, id);
    BatchIsEarliest(db, today, BATCH_LIMIT);
    var k :| 0 <= k < |batch| && batch[k] == id;
    OrderedIsInside(db.rows, batch);
    UpToDate(db.rows, batch, k);
    BatchServes(db, batch[..k + 1], a, t);
    assert batch[..k + 1][k] == id;
    assert batch == batch[..k + 1] + batch[k + 1..];
    BatchConcat(db, batch[..k + 1], batch[k + 1..]);
    PaidStaysPaid(ProcessBatch(db, batch[..k + 1]), batch[k + 1..], id);
  }

  lemma OrderedIsInside(rows: seq<Row>, ids: seq<int>)
    requires Ordered(rows, ids)
    ensures forall l :: 0 <= l < |ids| ==> 0 <= ids[l] < |rows|
  {
  }

  lemma UpToDate(rows: seq<Row>, ids: seq<int>, k: nat)
    requires Ordered(rows, ids) && k < |ids|
    ensures forall l :: 0 <= l <= k ==> 0 <= ids[l] < |rows| && rows[ids[l]].date <= rows[ids[k]].date
  {
    forall l | 0 <= l < k ensures rows[ids[l]].date <= rows[ids[k]].date {
      assert Before(rows, ids[l], ids[k]);
    }
  }

  /** A row that no run can move on: it is paid, its account is closed or blocked, or it is overdue already and its
      account does not hold its cost. */
  predicate Stuck(db: Db, id: int) {
    && 0 <= id < |db.rows|
    && (db.rows[id].status == RowPaid
        || !InUse(db.accounts, AccountOf(db, id))
        || (db.rows[id].status == RowOverdue && db.accounts[AccountOf(db, id)].balance < Price(db.rows[id])))
  }

  /** Some row has moved on. */
  ghost predicate Advances(db: Db, db': Db) {
    exists i :: 0 <= i < |db.rows| <= |db'.rows|
                && BankRuns.RowRank(db.rows[i].status) < BankRuns.RowRank(db'.rows[i].status)
  }

  lemma OverdueCreditStays(db: Db, id: int)
    requires Inv(db) && 0 <= id < |db.rows| && db.rows[id].status == RowOverdue
    ensures db.credits[db.rows[id].credit].status == CreditStatus.Overdue
  {
  }

  lemma PaymentAdvances(db: Db, id: int)
    requires Inv(db) && 0 <= id < |db.rows|
    ensures var db' := Credits.ProcessPayment(db, id).0;
            if Stuck(db, id) then db' == db else Advances(db, db')
  {
    hide Inv;
    RowsNameCredits(db, id);
    PaidExactlyWhenCovered(db, id);
    UncollectedRowsGoOverdue(db, id);
    if db.rows[id].status == RowOverdue {
      OverdueCreditStays(db, id);
    }
    var db' := Credits.ProcessPayment(db, id).0;
    assert Step(db, Op.ProcessPayment(id)).0 == db';
    assert !Stuck(db, id) ==> BankRuns.RowRank(db.rows[id].status) < BankRuns.RowRank(db'.rows[id].status);
  }

  lemma AdvancesFurther(db: Db, mid: Db, id: int)
    requires Inv(mid) && Advances(db, mid) && 0 <= id < |mid.rows|
    ensures Advances(db, Credits.ProcessPayment(mid, id).0)
  {
    hide Inv, Credits.ProcessPayment;
    var i :| 0 <= i < |db.rows| <= |mid.rows|
             && BankRuns.RowRank(db.rows[i].status) < BankRuns.RowRank(mid.rows[i].status);
    BankRuns.RowsMoveForward(mid, Op.ProcessPayment(id), i);
    BankRuns.TablesOnlyGrow(mid, Op.ProcessPayment(id));
    assert Step(mid, Op.ProcessPayment(id)) == Credits.ProcessPayment(mid, id);
  }

  ghost predicate AllStuck(db: Db, ids: seq<int>) {
    forall k :: 0 <= k < |ids| ==> Stuck(db, ids[k])
  }

  lemma AllStuckSnoc(db: Db, ids: seq<int>)
    requires ids != []
    ensures AllStuck(db, ids) <==> AllStuck(db, ids[..|ids| - 1]) && Stuck(db, ids[|ids| - 1])
  {
    var front := ids[..|ids| - 1];
    if AllStuck(db, front) && Stuck(db, ids[|ids| - 1]) {
      forall k | 0 <= k < |ids| ensures Stuck(db, ids[k]) {
        assert k < |front| ==> Stuck(db, front[k]);
      }
    }
    if AllStuck(db, ids) {
      forall k | 0 <= k < |front| ensures Stuck(db, front[k]) {
        assert front[k] == ids[k];
      }
    }
  }

  lemma {:induction false} BatchAdvances(db: Db, ids: seq<int>)
    requires Inv(db) && forall k :: 0 <= k < |ids| ==> 0 <= ids[k] < |db.rows|
    ensures Inv(ProcessBatch(db, ids)) && |db.rows| <= |ProcessBatch(db, ids).rows|
    ensures if AllStuck(db, ids) then ProcessBatch(db, ids) == db else Advances(db, ProcessBatch(db, ids))
  {
    hide Inv, Stuck, AllStuck, Advances, Credits.ProcessPayment;
    if ids == [] {
      NoneIsStuck(db);
    } else {
      var front, id := ids[..|ids| - 1], ids[|ids| - 1];
      BatchAdvances(db, front);
      var mid := ProcessBatch(db, front);
      AllStuckSnoc(db, ids);
      ProcessPaymentKeepsInv(mid, id);
      PaymentKeepsRows(mid, id);
      if AllStuck(db, front) {
        PaymentAdvances(db, id);
      } else {
        AdvancesFurther(db, mid, id);
      }
    }
  }

  lemma NoneIsStuck(db: Db)
    ensures AllStuck(db, [])
  {
  }

  lemma PaymentKeepsRows(db: Db, id: int)
    ensures |db.rows| <= |Credits.ProcessPayment(db, id).0.rows|
  {
  }

  /** But only the rows at the front of the list get their turn: a run changes nothing exactly when every row of its
      batch is stuck, and then no later run reaches any other row either. */
  lemma StuckBatchHoldsTheRestUp(db: Db, today: int, runs: nat)
    requires Inv(db)
    ensures var batch := FindDue(db, today, BATCH_LIMIT);
            ProcessDue(db, today) == db <==> AllStuck(db, batch)
    ensures ProcessDue(db, today) == db ==> ProcessDueTimes(db, today, runs) == db
  {
    hide Inv, FindDue, AllStuck;
    BatchIsEarliest(db, today, BATCH_LIMIT);
    BatchAdvances(db, FindDue(db, today, BATCH_LIMIT));
    NothingAdvances(db);
    if ProcessDue(db, today) == db {
      StandsStill(db, today, runs);
    }
  }

  lemma NothingAdvances(db: Db)
    ensures !Advances(db, db)
  {
  }

  lemma {:induction false} StandsStill(db: Db, today: int, runs: nat)
    requires ProcessDue(db, today) == db
    ensures ProcessDueTimes(db, today, runs) == db
  {
    if runs > 0 {
      StandsStill(db, today, runs - 1);
    }
  }

  // ----- draining -----

  /** Every account with an owing row is in use and holds what its owing rows cost. */
  ghost predicate Funded(db: Db, today: int) {
    forall i :: 0 <= i < |db.rows| && Owing(db.rows[i], today) ==> CanPay(db, AccountOf(db, i), today)
  }

  /** The listed rows are paid, the others are as they were. */
  ghost predicate PaidAlone(db: Db, db': Db, ids: seq<int>) {
    && |db'.rows| == |db.rows|
    && forall i :: 0 <= i < |db.rows| ==>
         db'.rows[i] == if i in ids then db.rows[i].(status := RowPaid) else db.rows[i]
  }

  lemma PayingKeepsFunded(db: Db, today: int, id: int)
    requires Inv(db) && Funded(db, today) && 0 <= id < |db.rows| && Owing(db.rows[id], today)
    ensures var db' := Credits.ProcessPayment(db, id).0;
            && Inv(db') && Funded(db', today)
            && db'.rows == db.rows[id := db.rows[id].(status := RowPaid)]
  {
    hide Inv, CanPay, Sum;
    var db' := Credits.ProcessPayment(db, id).0;
    ProcessPaymentKeepsInv(db, id);
    RowsNameCredits(db, id);
    RowIsProcessed(db, id, AccountOf(db, id), today);
    assert db'.rows == db.rows[id := db'.rows[id]];
    forall i | 0 <= i < |db'.rows| && Owing(db'.rows[i], today) ensures CanPay(db', AccountOf(db', i), today) {
      assert Owing(db.rows[i], today);
      var a := AccountOf(db, i);
      RowIsProcessed(db, id, a, today);
      ServedKeepsPaying(db, db', id, a, today);
    }
  }

  /** A batch of owing rows on funded accounts is paid in full, row by row, and nothing else is touched. */
  lemma {:induction false} BatchIsPaid(db: Db, today: int, ids: seq<int>)
    requires Inv(db) && Funded(db, today)
    requires forall k :: 0 <= k < |ids| ==> 0 <= ids[k] < |db.rows| && Owing(db.rows[ids[k]], today)
    requires forall k, l :: 0 <= k < l < |ids| ==> ids[k] != ids[l]
    ensures var db' := ProcessBatch(db, ids);
            && Inv(db') && Funded(db', today) && PaidAlone(db, db', ids)
            && OwingCount(db', today) == OwingCount(db, today) - |ids|
  {
    hide Inv, Funded, Sum;
    if ids != [] {
      var front, id := ids[..|ids| - 1], ids[|ids| - 1];
      assert ids == front + [id];
      BatchIsPaid(db, today, front);
      var mid := ProcessBatch(db, front);
      assert id !in front;
      PayingKeepsFunded(mid, today, id);
      SumUpdate(mid.rows, id, mid.rows[id].(status := RowPaid), OwingOne(today));
    }
  }

  /** One run over funded accounts pays exactly the first min(100, owing) rows in date order and no other. */
  lemma OneRunPaysItsBatch(db: Db, today: int)
    requires Inv(db) && Funded(db, today)
    ensures var db', batch := ProcessDue(db, today), FindDue(db, today, BATCH_LIMIT);
            && Inv(db') && Funded(db', today) && PaidAlone(db, db', batch)
            && |batch| == (if OwingCount(db, today) < BATCH_LIMIT then OwingCount(db, today) else BATCH_LIMIT)
            && OwingCount(db', today) == OwingCount(db, today) - |batch|
  {
    hide Inv, Funded, Sum, FindDue;
    BatchIsEarliest(db, today, BATCH_LIMIT);
    BatchIsPaid(db, today, FindDue(db, today, BATCH_LIMIT));
  }

  /** Over funded accounts every run but the last pays 100 rows: after enough of them every row whose date has come is
      paid. */
  lemma {:induction false} SchedulerDrains(db: Db, today: int, runs: nat)
    requires Inv(db) && Funded(db, today)
    ensures var db' := ProcessDueTimes(db, today, runs);
            && Inv(db') && Funded(db', today)
            && OwingCount(db', today)
                 == (if OwingCount(db, today) <= BATCH_LIMIT * runs then 0
                     else OwingCount(db, today) - BATCH_LIMIT * runs)
            && (OwingCount(db, today) <= BATCH_LIMIT * runs ==>
                  forall i :: 0 <= i < |db'.rows| && db'.rows[i].date <= today ==> db'.rows[i].status == RowPaid)
  {
    hide Inv, Funded;
    if runs > 0 {
      SchedulerDrains(db, today, runs - 1);
      OneRunPaysItsBatch(ProcessDueTimes(db, today, runs - 1), today);
    }
    var db' := ProcessDueTimes(db, today, runs);
    SumAtLeast(db'.rows, OwingOne(today));
    forall i | 0 <= i < |db'.rows| && OwingCount(db', today) == 0 ensures !Owing(db'.rows[i], today) {
      assert OwingOne(today)(db'.rows[i]) <= Sum(db'.rows, OwingOne(today));
    }
  }

  /** A batch is a run of the bank: whatever the accounts hold, it keeps every invariant. */
  lemma {:induction false} BatchIsARun(db: Db, ids: seq<int>)
    ensures ProcessBatch(db, ids) == Run(db, seq(|ids|, k requires 0 <= k < |ids| => Op.ProcessPayment(ids[k])))
  {
    if ids != [] {
      var last := |ids| - 1;
      BatchIsARun(db, ids[..last]);
      var ops := seq(|ids|, k requires 0 <= k < |ids| => Op.ProcessPayment(ids[k]));
      assert ops[..last] == seq(last, k requires 0 <= k < last => Op.ProcessPayment(ids[..last][k]));
    }
  }
}
