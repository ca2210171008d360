/** The locks a transaction takes cover what it writes: every row of a table that an operation of the bank changes is
    locked by the transaction that runs it. */
module LockCoverage {
  import opened Basics
  import opened Tables
  import opened Schedule
  import opened Bank
  import opened AccountEffects
  import opened CreditEffects
  import BankRuns
  import Locks

  /** The transaction behind an operation, with the rows it finds; None for single statements. */
  function WorkOf(db: Db, op: Op): Option<Locks.Work> {
    match op
    case Deposit(_, account, _) => Some(Locks.Deposit(account))
    case Withdraw(_, account, _, code, _) => Some(Locks.Spend(account, code))
    case CardPayment(_, account, _, code, _) => Some(Locks.Spend(account, code))
    case Transfer(_, from, to, _, code, _) => Some(Locks.Transfer(from, to, code))
    case Close(_, account) => Some(Locks.Close(account))
    case Create(_, _, req, mfa, _) => Some(Locks.CreateCredit(req.user, req.account, mfa))
    case Prepay(_, c, _, _, mfa, _) =>
      if 0 <= c < |db.credits| then Some(Locks.Prepay(c, db.credits[c].account, PendingIds(db.rows, c), mfa)) else None
    case ProcessPayment(row) =>
      if 0 <= row < |db.rows| && 0 <= db.rows[row].credit < |db.credits|
      then Some(Locks.Payment(row, db.rows[row].credit, db.credits[db.rows[row].credit].account)) else None
    case _ => None
  }

  ghost predicate Takes(work: Locks.Work, lock: Locks.Lock) {
    lock in Locks.Plan(work)
  }

  /** Every existing row that differs afterwards is locked. */
  ghost predicate Covers(work: Locks.Work, db: Db, db': Db) {
    && |db.accounts| <= |db'.accounts| && |db.credits| <= |db'.credits| && |db.rows| <= |db'.rows|
    && (forall a :: 0 <= a < |db.accounts| && db'.accounts[a] != db.accounts[a] ==> Takes(work, Locks.Account(a)))
    && (forall c :: 0 <= c < |db.credits| && db'.credits[c] != db.credits[c] ==> Takes(work, Locks.CreditRow(c)))
    && (forall i :: 0 <= i < |db.rows| && db'.rows[i] != db.rows[i] ==> Takes(work, Locks.ScheduleRow(i)))
    && (forall k :: k in db.codes.rows && (k in db'.codes.rows ==> db'.codes.rows[k] != db.codes.rows[k]) ==>
          Takes(work, Locks.Code(k)))
  }

  lemma WhatIsTaken(work: Locks.Work)
    ensures work.Deposit? || work.Close? ==> Takes(work, Locks.Account(work.account))
    ensures work.Spend? ==>
              Takes(work, Locks.Account(work.account)) && (work.code.Some? ==> Takes(work, Locks.Code(work.code.value)))
    ensures work.Transfer? ==>
              && Takes(work, Locks.Account(work.from)) && Takes(work, Locks.Account(work.to))
              && (work.code.Some? ==> Takes(work, Locks.Code(work.code.value)))
    ensures work.CreateCredit? ==> Takes(work, Locks.Account(work.account)) && Takes(work, Locks.Code(work.mfa))
    ensures work.Prepay? ==>
              && Takes(work, Locks.CreditRow(work.credit)) && Takes(work, Locks.Account(work.account))
              && Takes(work, Locks.Code(work.mfa))
              && forall i :: i in work.rows ==> Takes(work, Locks.ScheduleRow(i))
    ensures work.Payment? ==>
              && Takes(work, Locks.ScheduleRow(work.row)) && Takes(work, Locks.CreditRow(work.credit))
              && Takes(work, Locks.Account(work.account))
  {
    if work.Prepay? {
      forall i | i in work.rows ensures Takes(work, Locks.ScheduleRow(i)) {
        var k :| 0 <= k < |work.rows| && work.rows[k] == i;
        assert Locks.RowLocks(work.rows)[k] == Locks.ScheduleRow(i);
      }
    }
  }

  lemma AccountWritesAreLocked(db: Db, op: Op)
    requires Inv(db) && Step(db, op).1.Done?
    requires op.Deposit? || op.Withdraw? || op.CardPayment? || op.Transfer? || op.Close?
    ensures Covers(WorkOf(db, op).value, db, Step(db, op).0)
  {
    hide Inv, Step, Takes, PendingIds;
    WhatIsTaken(WorkOf(db, op).value);
    match op
    case Deposit(_, _, _) => DepositAddsItsAmount(db, op);
    case Withdraw(_, _, _, _, _) => SpendingTakesItsAmount(db, op);
    case CardPayment(_, _, _, _, _) => SpendingTakesItsAmount(db, op);
    case Transfer(_, _, _, _, _, _) => TransferMovesItsAmount(db, op);
    case Close(_, _) => CloseNeedsNothingLeft(db, op);
  }

  lemma IssueWritesAreLocked(db: Db, op: Op)
    requires Inv(db) && op.Create? && Step(db, op).1.Done?
    ensures Covers(WorkOf(db, op).value, db, Step(db, op).0)
  {
    hide Inv, Step, Takes;
    WhatIsTaken(WorkOf(db, op).value);
    IssueFollowsItsDates(db, op);
  }

  lemma PrepayWritesAreLocked(db: Db, op: Op)
    requires Inv(db) && op.Prepay? && Step(db, op).1.Prepaid?
    ensures WorkOf(db, op).Some? && Covers(WorkOf(db, op).value, db, Step(db, op).0)
  {
    hide Inv, Step, Takes, PendingIds, PendingAmounts, Replans;
    PrepaysExactlyWhenItMay(db, op);
    WhatIsTaken(WorkOf(db, op).value);
    PrepayFollowsItsMode(db, op);
    PrepayTakesItsAmount(db, op);
    assert forall i :: 0 <= i < |db.rows| && IsPending(db.rows[i], op.credit) ==> i in PendingIds(db.rows, op.credit);
  }

  /** At most this account, this credit and this row differ, and no code. */
  ghost predicate Touches(db: Db, db': Db, account: int, c: int, id: int) {
    && |db'.accounts| == |db.accounts| && |db'.credits| == |db.credits| && |db'.rows| == |db.rows|
    && (forall a :: 0 <= a < |db.accounts| && a != account ==> db'.accounts[a] == db.accounts[a])
    && (forall d :: 0 <= d < |db.credits| && d != c ==> db'.credits[d] == db.credits[d])
    && (forall i :: 0 <= i < |db.rows| && i != id ==> db'.rows[i] == db.rows[i])
    && (forall k :: k in db.codes.rows ==> k in db'.codes.rows && db'.codes.rows[k] == db.codes.rows[k])
  }

  lemma PaymentTouches(db: Db, id: int)
    requires Inv(db) && 0 <= id < |db.rows| && 0 <= db.rows[id].credit < |db.credits|
    ensures var c := db.rows[id].credit;
            Touches(db, Step(db, Op.ProcessPayment(id)).0, db.credits[c].account, c, id)
  {
    hide Inv, Step;
    var o := Step(db, Op.ProcessPayment(id)).1;
    if o.Processed? && o.status == PaidNow {
      PaidExactlyWhenCovered(db, id);
    } else {
      UncollectedRowsGoOverdue(db, id);
    }
  }

  lemma PaymentWritesAreLocked(db: Db, id: int)
    requires Inv(db) && 0 <= id < |db.rows| && 0 <= db.rows[id].credit < |db.credits|
    ensures WorkOf(db, Op.ProcessPayment(id)).Some?
    ensures Covers(WorkOf(db, Op.ProcessPayment(id)).value, db, Step(db, Op.ProcessPayment(id)).0)
  {
    hide Inv, Step, Takes;
    WhatIsTaken(WorkOf(db, Op.ProcessPayment(id)).value);
    PaymentTouches(db, id);
  }

  /** Every operation that runs in a transaction of its own writes only rows it has locked. */
  lemma WritesAreLocked(db: Db, op: Op)
    requires Inv(db) && WorkOf(db, op).Some?
    ensures Covers(WorkOf(db, op).value, db, Step(db, op).0)
  {
    hide Inv, Step;
    BankRuns.OutcomeOfItsKind(db, op);
    if Step(db, op).1.Failed? {
      BankRuns.FailureChangesNothing(db, op);
    } else if op.Create? {
      IssueWritesAreLocked(db, op);
    } else if op.Prepay? {
      PrepayWritesAreLocked(db, op);
    } else if op.ProcessPayment? {
      PaymentWritesAreLocked(db, op.row);
    } else {
      AccountWritesAreLocked(db, op);
    }
  }
}
