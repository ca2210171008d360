/** The bank day by day: requests in any order, with the scheduler running on its days. No instalment of a credit is
    charged before its payment date, and a balance is what the committed requests asked for. */
module Calendar {
  import opened Basics
  import opened Tables
  import opened Schedule
  import opened Prepayment
  import opened Bank
  import opened AccountEffects
  import opened CreditEffects
  import BankRuns
  import Credits
  import Policy
  import Scheduler

  // ----- prefixes of a schedule -----

  /** The amount of row id if it falls due by day t. */
  function AmountBy(rows: seq<Row>, t: int): int -> int {
    (id: int) => if 0 <= id < |rows| && rows[id].date <= t then rows[id].amount else 0
  }

  lemma PendingSnoc(rows: seq<Row>, c: int)
    requires rows != []
    ensures var n := |rows| - 1;
            PendingIds(rows, c) == PendingIds(rows[..n], c) + if IsPending(rows[n], c) then [n] else []
  {
  }

  lemma {:induction false} UnpaidIsPending(rows: seq<Row>, c: int, t: int)
    requires !HasOverdue(rows, c)
    ensures Sum(rows, UnpaidBy(c, t)) == Sum(PendingIds(rows, c), AmountBy(rows, t))
  {
    if rows != [] {
      hide Sum, PendingIds;
      var front, last := rows[..|rows| - 1], rows[|rows| - 1];
      assert rows == front + [last];
      assert forall i :: 0 <= i < |front| ==> front[i] == rows[i];
      UnpaidIsPending(front, c, t);
      SumAppend(front, last, UnpaidBy(c, t));
      var ids := PendingIds(front, c);
      SumCongruent(ids, ids, AmountBy(front, t), AmountBy(rows, t));
      SumAppend(ids, |front|, AmountBy(rows, t));
      PendingSnoc(rows, c);
      assert rows[|front|].status != RowOverdue || last.credit != c;
    } else {
      assert Sum(rows, UnpaidBy(c, t)) == 0;
    }
  }

  /** Rows in date order: those due by day t are the first m. */
  lemma DatePrefix(rows: seq<Row>, ids: seq<int>, t: int) returns (m: nat)
    requires forall k :: 0 <= k < |ids| ==> 0 <= ids[k] < |rows|
    requires forall k, l :: 0 <= k < l < |ids| ==> rows[ids[k]].date <= rows[ids[l]].date
    ensures m <= |ids| && forall k :: 0 <= k < |ids| ==> (k < m <==> rows[ids[k]].date <= t)
  {
    m := 0;
    while m < |ids| && rows[ids[m]].date <= t
      invariant m <= |ids| && forall k :: 0 <= k < m ==> rows[ids[k]].date <= t
    {
      m := m + 1;
    }
  }

  /** With no overdue row, what credit c has to pay by day t are its first m pending amounts. */
  lemma DueIsAPrefix(rows: seq<Row>, c: int, t: int) returns (m: nat)
    requires DatesInOrder(rows) && !HasOverdue(rows, c)
    ensures var ids := PendingIds(rows, c);
            && m <= |ids|
            && (forall k :: 0 <= k < |ids| ==> (k < m <==> rows[ids[k]].date <= t))
            && Sum(rows, UnpaidBy(c, t)) == Total(PendingAmounts(rows, c)[..m])
  {
    hide Sum, PendingIds;
    var ids, amounts := PendingIds(rows, c), PendingAmounts(rows, c);
    m := DatePrefix(rows, ids, t);
    UnpaidIsPending(rows, c, t);
    assert ids == ids[..m] + ids[m..];
    SumConcat(ids[..m], ids[m..], AmountBy(rows, t));
    SumCongruent(ids[..m], amounts[..m], AmountBy(rows, t), Cents);
    SumZero(ids[m..], AmountBy(rows, t));
  }

  lemma {:induction false} TotalsCompare(s: seq<int>, t: seq<int>)
    requires |s| == |t| && forall k :: 0 <= k < |s| ==> s[k] <= t[k]
    ensures Total(s) <= Total(t)
  {
    if s != [] {
      TotalsCompare(s[..|s| - 1], t[..|t| - 1]);
    }
  }

  /** Any first part of a replanned schedule asks for no more than the same part of the old one. */
  lemma ReplansNeverAskEarlier(mode: Credits.Mode, olds: seq<int>, news: seq<int>, debt: int, m: nat)
    requires Replans(mode, olds, news, debt) && 0 <= debt < Total(olds)
    requires AllPositive(olds) && NonIncreasing(olds) && m <= |olds|
    ensures Total(news[..if m <= |news| then m else |news|]) <= Total(olds[..m])
  {
    hide LeastCover;
    var n := if m <= |news| then m else |news|;
    if mode == Credits.ReducePaymentMode && debt > 0 {
      EvenPrefix(olds, news, m);
    } else {
      TotalsCompare(news[..n], olds[..n]);
      if n < m {
        PrefixTotals(olds, n, m);
      }
    }
  }

  /** Once an old amount is at most the smallest new one, all later old amounts are, and the rest of the new schedule
      makes up for its start. */
  lemma EvenPrefix(olds: seq<int>, news: seq<int>, m: nat)
    requires |news| == |olds| && m <= |olds| && NonIncreasing(olds) && Total(news) <= Total(olds)
    requires forall j, k :: 0 <= j < k < |news| ==> news[k] <= news[j] <= news[k] + 1
    ensures Total(news[..m]) <= Total(olds[..m])
  {
    hide Sum;
    var last := |news| - 1;
    if m == 0 || olds[m - 1] > news[last] {
      TotalsCompare(news[..m], olds[..m]);
    } else {
      TotalsCompare(olds[m..], news[m..]);
      SumConcat(olds[..m], olds[m..], Cents);
      SumConcat(news[..m], news[m..], Cents);
      assert olds[..m] + olds[m..] == olds && news[..m] + news[m..] == news;
    }
  }

  // ----- what is charged by a day -----

  /** Instalments of credit c charged by the scheduler. */
  function ChargedOn(c: int): Txn -> int {
    (t: Txn) => if t.credit == Some(c) && t.kind == CreditPayment then t.amount else 0
  }

  /** Instalments of credit c charged so far, and those still to be charged by day t. */
  function DueInAll(db: Db, c: int, t: int): int {
    Sum(db.txns, ChargedOn(c)) + Sum(db.rows, UnpaidBy(c, t))
  }

  lemma ReadyToPrepay(db: Db, c: int)
    requires Inv(db) && 0 <= c < |db.credits| && db.credits[c].status != CreditStatus.Overdue
    ensures Sound(db.credits, db.rows) && DatesInOrder(db.rows) && !HasOverdue(db.rows, c)
  {
    hide PendingIds;
  }

  /** The first rows of the schedule keep their dates, so the due ones are the same as far as they survive. */
  lemma SameDates(rows: seq<Row>, rows': seq<Row>, c: int, left: nat, t: int, m: nat, m': nat)
    requires OnlyPendingRewritten(rows, rows', c, left)
    requires var ids, ids' := PendingIds(rows, c), PendingIds(rows', c);
             && ids' == ids[..left] && m <= |ids| && m' <= left
             && (forall k :: 0 <= k < |ids| ==> (k < m <==> rows[ids[k]].date <= t))
             && (forall k :: 0 <= k < |ids'| ==> (k < m' <==> rows'[ids'[k]].date <= t))
    ensures m' == if m <= left then m else left
  {
    hide PendingIds;
    var ids := PendingIds(rows, c);
    if m < left {
      assert rows'[ids[m]].date == rows[ids[m]].date;
    }
    if m' < left {
      assert rows'[ids[m']].date == rows[ids[m']].date;
    }
  }

  lemma PrepayKeepsDates(db: Db, op: Op, t: int)
    requires Inv(db) && op.Prepay? && Step(db, op).1.Prepaid?
    ensures Sum(Step(db, op).0.rows, UnpaidBy(op.credit, t)) <= Sum(db.rows, UnpaidBy(op.credit, t))
  {
    hide Inv, Sum, PendingIds, PendingAmounts, Replans, Step, DatesInOrder, HasOverdue, OnlyPendingRewritten,
      NonIncreasing, AllPositive, UnpaidBy;
    var db', c := Step(db, op).0, op.credit;
    PrepayFollowsItsMode(db, op);
    PrepaysExactlyWhenItMay(db, op);
    StepKeepsInv(db, op);
    ReadyToPrepay(db, c);
    ReadyToPrepay(db', c);
    var olds, news := PendingAmounts(db.rows, c), PendingAmounts(db'.rows, c);
    var m := DueIsAPrefix(db.rows, c, t);
    var m' := DueIsAPrefix(db'.rows, c, t);
    SameDates(db.rows, db'.rows, c, |news|, t, m, m');
    Credits.PendingAmountsFit(db.credits, db.rows, c);
    ReplansNeverAskEarlier(op.mode, olds, news, Total(olds) - op.amount, m);
  }

  lemma IssueKeepsOtherDates(db: Db, op: Op, c: int, t: int)
    requires Inv(db) && 0 <= c < |db.credits| && op.Create? && Step(db, op).1.Done?
    ensures DueInAll(Step(db, op).0, c, t) == DueInAll(db, c, t)
  {
    hide Sum, Inv, Step;
    var db' := Step(db, op).0;
    IssueFollowsItsDates(db, op);
    var news := db'.rows[|db.rows|..];
    assert db'.rows == db.rows + news;
    SumConcat(db.rows, news, UnpaidBy(c, t));
    SumZero(news, UnpaidBy(c, t));
    SumAppend(db.txns, db'.txns[|db.txns|], ChargedOn(c));
  }

  lemma PrepayKeepsDueInAll(db: Db, op: Op, c: int, t: int)
    requires Inv(db) && 0 <= c < |db.credits| && op.Prepay? && Step(db, op).1.Prepaid?
    ensures DueInAll(Step(db, op).0, c, t) <= DueInAll(db, c, t)
    ensures op.credit != c ==> DueInAll(Step(db, op).0, c, t) == DueInAll(db, c, t)
  {
    hide Sum, Inv, Step, PendingIds, PendingAmounts, OnlyPendingRewritten;
    var db' := Step(db, op).0;
    PrepayTakesItsAmount(db, op);
    SumAppend(db.txns, db'.txns[|db.txns|], ChargedOn(c));
    if op.credit == c {
      PrepayKeepsDates(db, op, t);
    } else {
      PrepayFollowsItsMode(db, op);
      ElsewhereUnchanged(db.rows, db'.rows, op.credit, |PendingAmounts(db'.rows, op.credit)|, c, t);
    }
  }

  /** A request never makes an instalment due earlier, and only a prepayment of the credit lowers what is due. */
  lemma RequestKeepsDates(db: Db, op: Op, c: int, t: int)
    requires Inv(db) && 0 <= c < |db.credits| && !op.ProcessPayment?
    ensures DueInAll(Step(db, op).0, c, t) <= DueInAll(db, c, t)
    ensures !(op.Prepay? && op.credit == c) ==> DueInAll(Step(db, op).0, c, t) == DueInAll(db, c, t)
  {
    hide Sum, PendingIds, Inv, WriteBack, PendingAmounts, Credits.NewAmounts, Policy.PolicyError;
    var (db', o) := Step(db, op);
    if op.Create? && o.Done? {
      IssueKeepsOtherDates(db, op, c, t);
    } else if op.Prepay? && o.Prepaid? {
      PrepayKeepsDueInAll(db, op, c, t);
    } else if (op.Deposit? || op.Withdraw? || op.CardPayment? || op.Transfer?) && o.Done? {
      SumAppend(db.txns, db'.txns[|db.txns|], ChargedOn(c));
    }
  }

  lemma ElsewhereUnchanged(rows: seq<Row>, rows': seq<Row>, d: int, left: nat, c: int, t: int)
    requires OnlyPendingRewritten(rows, rows', d, left) && c != d
    ensures Sum(rows', UnpaidBy(c, t)) == Sum(rows, UnpaidBy(c, t))
  {
    hide PendingIds;
    var ids := PendingIds(rows, d);
    forall i | 0 <= i < |rows| ensures UnpaidBy(c, t)(rows'[i]) == UnpaidBy(c, t)(rows[i]) {
      if i in ids {
        var k :| 0 <= k < |ids| && ids[k] == i;
        assert k < left ==> rows'[ids[k]] == rows[ids[k]].(amount := rows'[ids[k]].amount);
      }
    }
    SumCongruent(rows', rows, UnpaidBy(c, t), UnpaidBy(c, t));
  }

  /** The scheduler charges an instalment of the day or earlier, or leaves it to be charged. */
  lemma PaymentKeepsDates(db: Db, id: int, c: int, t: int)
    requires Inv(db) && 0 <= id < |db.rows| && db.rows[id].date <= t
    ensures DueInAll(Step(db, Op.ProcessPayment(id)).0, c, t) == DueInAll(db, c, t)
  {
    hide Sum, Inv, Step;
    Scheduler.RowsNameCredits(db, id);
    var (db', o) := Step(db, Op.ProcessPayment(id));
    PaidExactlyWhenCovered(db, id);
    UncollectedRowsGoOverdue(db, id);
    SumUpdate(db.rows, id, db'.rows[id], UnpaidBy(c, t));
    if o.Processed? && o.status == PaidNow {
      var r := db.rows[id];
      var credit := db.credits[r.credit];
      var first := OfCredit(credit, r.credit, r.amount, CreditPayment);
      var second := OfCredit(credit, r.credit, r.penalty, TxnKind.Penalty);
      var logged := [first] + (if r.penalty > 0 then [second] else []);
      SumConcat(db.txns, logged, ChargedOn(c));
      SumFew(first, second, ChargedOn(c));
      assert logged == if r.penalty > 0 then [first, second] else [first];
    }
  }

  // ----- whole runs -----

  /** A request, or the scheduler's run of a day. */
  datatype Event = Request(op: Op) | Daily(today: int)

  function Next(db: Db, e: Event): Db {
    match e
    case Request(op) => Step(db, op).0
    case Daily(today) => Scheduler.ProcessDue(db, today)
  }

  function RunDays(db: Db, events: seq<Event>): Db {
    if events == [] then db else Next(RunDays(db, events[..|events| - 1]), events[|events| - 1])
  }

  /** No later than day t, and single payments are left to the scheduler. */
  predicate By(e: Event, t: int) {
    match e
    case Request(op) => !op.ProcessPayment?
    case Daily(today) => today <= t
  }

  lemma {:induction false} BatchKeepsDates(db: Db, ids: seq<int>, c: int, t: int)
    requires Inv(db) && 0 <= c < |db.credits|
    requires forall k :: 0 <= k < |ids| ==> 0 <= ids[k] < |db.rows| && db.rows[ids[k]].date <= t
    ensures var db' := Scheduler.ProcessBatch(db, ids);
            && Inv(db') && c < |db'.credits|
            && KeepsDates(db, db') && DueInAll(db', c, t) == DueInAll(db, c, t)
  {
    if ids != [] {
      hide Inv, DueInAll, Credits.ProcessPayment, Step;
      var front, id := ids[..|ids| - 1], ids[|ids| - 1];
      BatchKeepsDates(db, front, c, t);
      var mid := Scheduler.ProcessBatch(db, front);
      assert mid.rows[id].date == db.rows[id].date;
      PaymentKeepsDates(mid, id, c, t);
      StepKeepsInv(mid, Op.ProcessPayment(id));
      PaymentKeepsShape(mid, id);
      assert Scheduler.ProcessBatch(db, ids) == Credits.ProcessPayment(mid, id).0 == Step(mid, Op.ProcessPayment(id)).0
      by {
        SingleStep(mid, id);
      }
    }
  }

  lemma SingleStep(db: Db, id: int)
    ensures Step(db, Op.ProcessPayment(id)) == Credits.ProcessPayment(db, id)
  {
  }

  ghost predicate KeepsDates(db: Db, db': Db) {
    && |db'.rows| == |db.rows| && |db'.credits| == |db.credits|
    && forall i :: 0 <= i < |db.rows| ==> db'.rows[i].date == db.rows[i].date
  }

  lemma PaymentKeepsShape(db: Db, id: int)
    requires Inv(db) && 0 <= id < |db.rows|
    ensures KeepsDates(db, Step(db, Op.ProcessPayment(id)).0)
  {
    hide Inv, Step;
    Scheduler.RowsNameCredits(db, id);
    PaidExactlyWhenCovered(db, id);
    UncollectedRowsGoOverdue(db, id);
  }

  lemma NextKeepsDates(db: Db, e: Event, c: int, t: int)
    requires Inv(db) && 0 <= c < |db.credits| && By(e, t)
    ensures Inv(Next(db, e)) && c < |Next(db, e).credits|
    ensures DueInAll(Next(db, e), c, t) <= DueInAll(db, c, t)
    ensures !(e.Request? && e.op.Prepay? && e.op.credit == c) ==> DueInAll(Next(db, e), c, t) == DueInAll(db, c, t)
  {
    hide Inv, DueInAll, Step, Scheduler.ProcessBatch, Scheduler.FindDue;
    match e
    case Request(op) =>
      StepKeepsInv(db, op);
      RequestKeepsDates(db, op, c, t);
      BankRuns.TablesOnlyGrow(db, op);
    case Daily(today) =>
      Scheduler.BatchIsEarliest(db, today, Scheduler.BATCH_LIMIT);
      BatchKeepsDates(db, Scheduler.FindDue(db, today, Scheduler.BATCH_LIMIT), c, t);
  }

  lemma {:induction false} RunKeepsDates(db: Db, events: seq<Event>, c: int, t: int)
    requires Inv(db) && 0 <= c < |db.credits| && forall k :: 0 <= k < |events| ==> By(events[k], t)
    ensures var after := RunDays(db, events);
            && Inv(after) && c < |after.credits|
            && DueInAll(after, c, t) <= DueInAll(db, c, t)
            && ((forall k :: 0 <= k < |events| && events[k].Request? && events[k].op.Prepay? ==>
                   events[k].op.credit != c) ==> DueInAll(after, c, t) == DueInAll(db, c, t))
  {
    if events != [] {
      hide Inv, DueInAll, Next;
      var front := events[..|events| - 1];
      RunKeepsDates(db, front, c, t);
      NextKeepsDates(RunDays(db, front), events[|events| - 1], c, t);
    }
  }

  /** Issue a credit in any sound state and let anything happen until day t: the instalments charged, and those still
      unpaid that fall due by then, come to no more than one monthly payment per payment date up to t, and to exactly
      that when the credit was not prepaid. So no instalment is charged before its date. */
  lemma NoInstalmentBeforeItsDate(db: Db, issue: Op, events: seq<Event>, t: int)
    requires Inv(db) && issue.Create? && Step(db, issue).1.Done?
    requires forall k :: 0 <= k < |events| ==> By(events[k], t)
    ensures var c, after := |db.credits|, RunDays(Step(db, issue).0, events);
            var dueByThen := issue.req.monthly * DatesBy(issue.req.dates, t);
            var charged, unpaid := Sum(after.txns, ChargedOn(c)), Sum(after.rows, UnpaidBy(c, t));
            && 0 <= unpaid && charged + unpaid <= dueByThen
            && ((forall k :: 0 <= k < |events| && events[k].Request? && events[k].op.Prepay? ==>
                   events[k].op.credit != c) ==> charged + unpaid == dueByThen)
  {
    hide Sum, Inv, Step, DatesBy;
    var c, start := |db.credits|, Step(db, issue).0;
    IssueFollowsItsDates(db, issue);
    StepKeepsInv(db, issue);
    NothingChargedYet(db, start, c);
    RunKeepsDates(start, events, c, t);
    UnpaidIsNotNegative(RunDays(start, events), c, t);
  }

  lemma NothingChargedYet(db: Db, start: Db, c: int)
    requires Inv(db) && c == |db.credits| && |start.txns| == |db.txns| + 1 && db.txns <= start.txns
    requires start.txns[|db.txns|].kind == CreditIssue
    ensures Sum(start.txns, ChargedOn(c)) == 0
  {
    hide Sum, PendingIds;
    SumZero(start.txns, ChargedOn(c));
  }

  lemma UnpaidIsNotNegative(db: Db, c: int, t: int)
    requires Inv(db)
    ensures 0 <= Sum(db.rows, UnpaidBy(c, t))
  {
    SumAtLeast(db.rows, UnpaidBy(c, t));
  }

  // ----- balances and requests -----

  /** What a committed operation was to put into account a, negative to take it out. */
  function AskedOf(db: Db, op: Op, a: int): int {
    match op
    case Deposit(_, account, amount) => Only(account, amount)(a)
    case Withdraw(_, account, amount, _, _) => Only(account, -amount)(a)
    case CardPayment(_, account, amount, _, _) => Only(account, -amount)(a)
    case Transfer(_, from, to, amount, _, _) => Between(from, to, amount)(a)
    case Create(_, _, req, _, _) => Only(req.account, req.principal)(a)
    case Prepay(_, c, amount, _, _, _) => if 0 <= c < |db.credits| then Only(db.credits[c].account, -amount)(a) else 0
    case ProcessPayment(row) =>
      if 0 <= row < |db.rows| then Only(Scheduler.AccountOf(db, row), -Price(db.rows[row]))(a) else 0
    case _ => 0
  }

  /** Failed operations and payments not collected move nothing. */
  predicate Moves(o: Outcome) {
    o.Done? || o.Prepaid? || (o.Processed? && o.status == PaidNow)
  }

  function Asked(db: Db, op: Op, a: int): int {
    if Moves(Step(db, op).1) then AskedOf(db, op, a) else 0
  }

  /** Everything the operations of a run that committed were to put into account a. */
  function AskedInAll(ops: seq<Op>, a: int): int {
    if ops == [] then 0
    else
      var front := ops[..|ops| - 1];
      AskedInAll(front, a) + Asked(Run(EMPTY, front), ops[|ops| - 1], a)
  }

  lemma StepMovesWhatIsAsked(db: Db, op: Op, a: int)
    requires Inv(db)
    ensures Balance(Step(db, op).0.accounts, a) == Balance(db.accounts, a) + Asked(db, op, a)
  {
    hide Inv, Step;
    match op
    case OpenAccount(_) => OpenAccountAddsAnEmptyOne(db, op);
    case SetBlocked(_, _) => FlagMovesNothing(db, op, a);
    case Deposit(_, _, _) => RequestMovesWhatIsAsked(db, op, a);
    case Withdraw(_, _, _, _, _) => RequestMovesWhatIsAsked(db, op, a);
    case CardPayment(_, _, _, _, _) => RequestMovesWhatIsAsked(db, op, a);
    case Transfer(_, _, _, _, _, _) => RequestMovesWhatIsAsked(db, op, a);
    case Close(_, _) => FlagMovesNothing(db, op, a);
    case Create(_, _, _, _, _) => CreditMovesItsAmount(db, op, a);
    case Prepay(_, _, _, _, _, _) => CreditMovesItsAmount(db, op, a);
    case ProcessPayment(_) => CreditMovesItsAmount(db, op, a);
    case SaveCode(_, _, _, _, _) => CodesMoveNothing(db, op, a);
    case PurgeCodes(_) => CodesMoveNothing(db, op, a);
  }

  lemma BookedMoves(db: Db, db': Db, gain: int -> int, txns: seq<Txn>, code: Option<int>, a: int)
    requires Booked(db, db', gain, txns, code)
    requires HasAccount(db.accounts, a) || gain(a) == 0
    ensures Balance(db'.accounts, a) == Balance(db.accounts, a) + gain(a)
  {
  }

  lemma RequestMovesWhatIsAsked(db: Db, op: Op, a: int)
    requires op.Deposit? || op.Withdraw? || op.CardPayment? || op.Transfer?
    ensures Balance(Step(db, op).0.accounts, a) == Balance(db.accounts, a) + Asked(db, op, a)
  {
    hide Step, Booked, Balance;
    var (db', o) := Step(db, op);
    FailureMovesNothing(db, op, a);
    BankRuns.OutcomeOfItsKind(db, op);
    if !o.Done? {
    } else if op.Transfer? {
      TransferMovesItsAmount(db, op);
      BookedMoves(db, db', Between(op.from, op.to, op.amount),
                  [Plain(op.user, Some(op.from), Some(op.to), op.amount, TxnKind.Transfer)], op.code, a);
    } else if op.Deposit? {
      DepositAddsItsAmount(db, op);
      BookedMoves(db, db', Only(op.account, op.amount),
                  [Plain(op.user, None, Some(op.account), op.amount, TxnKind.Deposit)], None, a);
    } else {
      SpendingTakesItsAmount(db, op);
      var kind := if op.Withdraw? then TxnKind.Withdraw else TxnKind.CardPayment;
      BookedMoves(db, db', Only(op.account, -op.amount),
                  [Plain(op.user, Some(op.account), None, op.amount, kind)], op.code, a);
    }
  }

  lemma FlagMovesNothing(db: Db, op: Op, a: int)
    requires op.SetBlocked? || op.Close?
    ensures Balance(Step(db, op).0.accounts, a) == Balance(db.accounts, a)
  {
  }

  lemma FailureMovesNothing(db: Db, op: Op, a: int)
    ensures !Moves(Step(db, op).1) ==> Balance(Step(db, op).0.accounts, a) == Balance(db.accounts, a)
  {
    hide Sum, WriteBack, PendingIds, Credits.NewAmounts, Policy.PolicyError;
  }

  lemma CodesMoveNothing(db: Db, op: Op, a: int)
    requires op.SaveCode? || op.PurgeCodes?
    ensures Balance(Step(db, op).0.accounts, a) == Balance(db.accounts, a)
  {
  }

  lemma CreditMovesItsAmount(db: Db, op: Op, a: int)
    requires Inv(db) && (op.Create? || op.Prepay? || op.ProcessPayment?)
    ensures Balance(Step(db, op).0.accounts, a) == Balance(db.accounts, a) + Asked(db, op, a)
  {
    hide Inv, Step, Booked, Balance;
    FailureMovesNothing(db, op, a);
    var db' := Step(db, op).0;
    if op.Create? && Step(db, op).1.Done? {
      IssueFollowsItsDates(db, op);
      IssuesExactlyWhenItMay(db, op);
      BookedMoves(db, db', Only(op.req.account, op.req.principal),
                  [Txn(op.req.user, None, Some(op.req.account), Some(|db.credits|), op.req.principal, CreditIssue,
                       TxnCompleted)], Some(op.mfa), a);
    } else if op.Prepay? && Step(db, op).1.Prepaid? {
      PrepayTakesItsAmount(db, op);
      PrepaysExactlyWhenItMay(db, op);
      var account := db.credits[op.credit].account;
      BookedMoves(db, db', Only(account, -op.amount),
                  [Txn(op.user, Some(account), None, Some(op.credit), op.amount, CreditPrepayment, TxnCompleted)],
                  Some(op.mfa), a);
    } else if op.ProcessPayment? && Moves(Step(db, op).1) {
      CollectedRowExists(db, op);
      PaidExactlyWhenCovered(db, op.row);
      Scheduler.RowsNameCredits(db, op.row);
      var r := db.rows[op.row];
      var credit := db.credits[r.credit];
      BookedMoves(db, db', Only(credit.account, -Price(r)),
                  [OfCredit(credit, r.credit, r.amount, CreditPayment)]
                  + (if r.penalty > 0 then [OfCredit(credit, r.credit, r.penalty, TxnKind.Penalty)] else []), None, a);
    }
    BankRuns.OutcomeOfItsKind(db, op);
  }

  lemma CollectedRowExists(db: Db, op: Op)
    requires op.ProcessPayment? && Moves(Step(db, op).1)
    ensures 0 <= op.row < |db.rows| && Step(db, op).1.Processed?
  {
    hide Sum;
  }

  lemma LastOne(ops: seq<Op>, a: int)
    requires ops != []
    ensures var front, op := ops[..|ops| - 1], ops[|ops| - 1];
            && Run(EMPTY, ops) == Step(Run(EMPTY, front), op).0
            && AskedInAll(ops, a) == AskedInAll(front, a) + Asked(Run(EMPTY, front), op, a)
  {
  }

  /** Over every run from the empty bank, a balance is the sum of what the committed requests asked for: deposits,
      withdrawals, transfers, principals, prepayments, and the collected instalments with their penalties. */
  lemma {:induction false} BalanceIsWhatWasAsked(ops: seq<Op>, a: int)
    ensures Balance(Run(EMPTY, ops).accounts, a) == AskedInAll(ops, a)
  {
    if ops != [] {
      hide Inv, Step, Asked, Balance, Run, AskedInAll;
      var front, op := ops[..|ops| - 1], ops[|ops| - 1];
      BalanceIsWhatWasAsked(front, a);
      EveryRunIsSound(front);
      LastOne(ops, a);
      StepMovesWhatIsAsked(Run(EMPTY, front), op, a);
    }
  }
}
