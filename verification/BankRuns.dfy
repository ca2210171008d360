/** What every run of the bank guarantees: debt is conserved, statuses and rows only move forward,
    closed accounts stay at rest, and prepayments never raise a monthly payment. */
module BankRuns {
  import opened Basics
  import opened Tables
  import opened Ledger
  import opened Schedule
  import opened Prepayment
  import opened Bank
  import Accounts
  import Credits
  import Policy

  /** A failed operation is a rollback: nothing changes. */
  lemma FailureChangesNothing(db: Db, op: Op)
    requires Step(db, op).1.Failed?
    ensures Step(db, op).0 == db
  {
  }

  /** Only a prepayment answers Prepaid, and only a scheduled payment Processed. */
  lemma OutcomeOfItsKind(db: Db, op: Op)
    ensures Step(db, op).1.Prepaid? ==> op.Prepay?
    ensures !op.Prepay? && !op.ProcessPayment? ==> Step(db, op).1.Done? || Step(db, op).1.Failed?
    ensures op.Prepay? ==> Step(db, op).1.Prepaid? || Step(db, op).1.Failed?
  {
    hide Sum, WriteBack, PendingIds, Credits.NewAmounts, Policy.PolicyError;
  }

  // ----- what holds in every reachable state -----

  /** Every account's balance is non-negative and is the net amount the statistics query folds from the log. */
  lemma BalanceIsRecomputed(ops: seq<Op>, a: int)
    ensures 0 <= Balance(Run(EMPTY, ops).accounts, a) == Net(Run(EMPTY, ops).txns, a)
  {
    EveryRunIsSound(ops);
  }

  /** A credit's pending amounts are positive and non-increasing, the stored monthly payment is at least the first of
      them, and there are no more of them than the stored term. */
  lemma ScheduleShape(ops: seq<Op>, c: int)
    requires 0 <= c < |Run(EMPTY, ops).credits|
    ensures var db := Run(EMPTY, ops);
            var amounts := PendingAmounts(db.rows, c);
            && AllPositive(amounts) && NonIncreasing(amounts)
            && (amounts != [] ==> amounts[0] <= db.credits[c].monthly)
            && |amounts| <= db.credits[c].term
  {
    EveryRunIsSound(ops);
    Credits.PendingAmountsFit(Run(EMPTY, ops).credits, Run(EMPTY, ops).rows, c);
  }

  /** A credit is closed exactly when all its rows are paid, an active one has no overdue row, and the penalties logged
      for it are those of its paid rows. */
  lemma StatusCoupling(ops: seq<Op>, c: int)
    requires 0 <= c < |Run(EMPTY, ops).credits|
    ensures var db := Run(EMPTY, ops);
            && (db.credits[c].status == CreditStatus.Closed <==> AllPaid(db.rows, c))
            && (db.credits[c].status == Active ==> !HasOverdue(db.rows, c))
            && Sum(db.txns, PenaltyTxnOn(c)) == Sum(db.rows, PenaltyPaidOn(c))
  {
    EveryRunIsSound(ops);
  }

  /** A pending row has no penalty; an overdue row's is the cents nearest to a tenth of its amount, halves up. */
  lemma PenaltyIsATenth(ops: seq<Op>, i: int)
    requires 0 <= i < |Run(EMPTY, ops).rows|
    ensures var r := Run(EMPTY, ops).rows[i];
            && (r.status == RowPending ==> r.penalty == 0)
            && (r.status == RowOverdue ==> -5 < 10 * r.penalty - r.amount <= 5)
            && (r.status == RowPaid ==> r.penalty == 0 || -5 < 10 * r.penalty - r.amount <= 5)
  {
    EveryRunIsSound(ops);
  }

  // ----- one-time codes -----

  /** The code an operation carries, if it is one that can. */
  function CodeOf(op: Op): Option<int> {
    match op
    case Withdraw(_, _, _, code, _) => code
    case CardPayment(_, _, _, code, _) => code
    case Transfer(_, _, _, _, code, _) => code
    case Create(_, _, _, mfa, _) => Some(mfa)
    case Prepay(_, _, _, _, mfa, _) => Some(mfa)
    case _ => None
  }

  /** The time at which an operation with a code checks it. */
  function TimeOf(op: Op): int
    requires CodeOf(op).Some?
  {
    op.now
  }

  predicate Succeeds(db: Db, op: Op) { !Step(db, op).1.Failed? }

  predicate IdsGivenOut(codes: CodeTable) {
    forall id :: id in codes.rows ==> id < codes.next
  }

  predicate Spent(codes: CodeTable, id: int) {
    id < codes.next && (id in codes.rows ==> codes.rows[id].used)
  }

  /** An operation that carries a code commits only while the code is unspent and unexpired, and spends it and no
      other. */
  lemma CommitSpendsItsCode(db: Db, op: Op)
    requires CodeOf(op).Some? && IdsGivenOut(db.codes)
    ensures var id := CodeOf(op).value;
            var codes := Step(db, op).0.codes;
            if Succeeds(db, op)
            then Usable(db.codes, id, TimeOf(op)) && Spent(codes, id) && codes == UseCode(db.codes, id)
            else codes == db.codes
  {
    hide Sum, Schedule.WriteBack, Credits.NewAmounts;
  }

  lemma StepKeepsSpent(db: Db, op: Op, id: int)
    requires IdsGivenOut(db.codes)
    ensures IdsGivenOut(Step(db, op).0.codes)
    ensures Spent(db.codes, id) ==> Spent(Step(db, op).0.codes, id)
  {
    hide Sum, Schedule.WriteBack, Credits.NewAmounts;
  }

  lemma {:induction false} RunKeepsSpent(db: Db, ops: seq<Op>, id: int)
    requires IdsGivenOut(db.codes)
    ensures IdsGivenOut(Run(db, ops).codes)
    ensures Spent(db.codes, id) ==> Spent(Run(db, ops).codes, id)
  {
    if ops != [] {
      RunKeepsSpent(db, ops[..|ops| - 1], id);
      StepKeepsSpent(Run(db, ops[..|ops| - 1]), ops[|ops| - 1], id);
    }
  }

  lemma {:induction false} RunConcat(db: Db, ops: seq<Op>, more: seq<Op>)
    ensures Run(db, ops + more) == Run(Run(db, ops), more)
  {
    if more == [] {
      assert ops + more == ops;
    } else {
      assert (ops + more)[..|ops + more| - 1] == ops + more[..|more| - 1];
      RunConcat(db, ops, more[..|more| - 1]);
    }
  }

  /** In any run of the bank, of all operations carrying the same code at most one commits. */
  lemma CodeCommitsOnce(ops: seq<Op>, i: nat, j: nat)
    requires i < j < |ops| && CodeOf(ops[i]).Some? && CodeOf(ops[i]) == CodeOf(ops[j])
    requires Succeeds(Run(EMPTY, ops[..i]), ops[i])
    ensures !Succeeds(Run(EMPTY, ops[..j]), ops[j])
  {
    hide Step;
    var id := CodeOf(ops[i]).value;
    RunKeepsSpent(EMPTY, ops[..i], id);
    CommitSpendsItsCode(Run(EMPTY, ops[..i]), ops[i]);
    RunConcat(EMPTY, ops[..i], [ops[i]]);
    assert ops[..i] + [ops[i]] == ops[..i + 1];
    assert [ops[i]][..0] == [];
    RunKeepsSpent(EMPTY, ops[..i + 1], id);
    RunConcat(EMPTY, ops[..i + 1], ops[i + 1..j]);
    assert ops[..i + 1] + ops[i + 1..j] == ops[..j];
    RunKeepsSpent(Run(EMPTY, ops[..i + 1]), ops[i + 1..j], id);
    CommitSpendsItsCode(Run(EMPTY, ops[..j]), ops[j]);
  }

  // ----- debt conservation -----

  /** What has been repaid on credit c plus what it still owes. */
  function Settled(db: Db, c: int): int {
    Sum(db.txns, RepaidOn(c)) + Sum(db.rows, OwedOn(c))
  }

  lemma PrepayConservesDebt(db: Db, user: int, c: int, amount: int, mode: Credits.Mode, mfa: int, now: int, d: int)
    requires Inv(db)
    ensures Settled(Credits.Prepay(db, user, c, amount, mode, mfa, now).0, d) == Settled(db, d)
  {
    hide WriteBack, PendingIds, ReduceTerm;
    var (db', outcome) := Credits.Prepay(db, user, c, amount, mode, mfa, now);
    if outcome.Prepaid? {
      var ids, amounts := PendingIds(db.rows, c), PendingAmounts(db.rows, c);
      var news := Credits.NewAmounts(amounts, amount, mode).value;
      Credits.PendingAmountsFit(db.credits, db.rows, c);
      Credits.NewAmountsFit(amounts, amount, mode);
      SumAppend(db.txns, db'.txns[|db.txns|], RepaidOn(d));
      WriteBackOwed(db.rows, ids, news, c);
      WriteBackElsewhere(db.rows, ids, news, c, d);
    }
  }

  lemma ProcessPaymentConservesDebt(db: Db, id: int, d: int)
    requires Inv(db)
    ensures Settled(Credits.ProcessPayment(db, id).0, d) == Settled(db, d)
  {
    hide Sum, PendingIds, TermsCover;
    var (db', outcome) := Credits.ProcessPayment(db, id);
    if outcome.Processed? {
      if outcome.status == PaidNow {
        PaymentTxnSums(db, id, d);
      } else if outcome.status == StillOverdue && db.rows[id].status == RowPending {
        SumUpdate(db.rows, id, db'.rows[id], OwedOn(d));
      }
    }
  }

  lemma IssueConservesOtherDebt(db: Db, req: Credits.Request, mfa: int, now: int, d: int)
    requires d < |db.credits|
    ensures Settled(Credits.Issue(db, req, mfa, now).0, d) == Settled(db, d)
  {
    hide Sum, PendingIds;
    var (db', outcome) := Credits.Issue(db, req, mfa, now);
    if outcome.Done? {
      var c := |db.credits|;
      SumAppend(db.txns, db'.txns[|db.txns|], RepaidOn(d));
      SumConcat(db.rows, Credits.NewRows(c, req), OwedOn(d));
      SumZero(Credits.NewRows(c, req), OwedOn(d));
    }
  }

  /** A new credit starts with nothing repaid and its whole schedule owed. */
  lemma IssueOwesItsSchedule(db: Db, req: Credits.Request, mfa: int, now: int)
    requires Inv(db) && Credits.Issue(db, req, mfa, now).1.Done?
    ensures Settled(Credits.Issue(db, req, mfa, now).0, |db.credits|) == |req.dates| * req.monthly
  {
    hide Sum, PendingIds;
    var c := |db.credits|;
    SumAppend(db.txns, Credits.Issue(db, req, mfa, now).0.txns[|db.txns|], RepaidOn(c));
    UnissuedCreditIsUntouched(db, c);
    SumConcat(db.rows, Credits.NewRows(c, req), OwedOn(c));
    UniformSchedule(c, req, |req.dates|);
    assert Credits.NewRows(c, req)[..|req.dates|] == Credits.NewRows(c, req);
  }

  lemma UnissuedCreditIsUntouched(db: Db, c: int)
    requires TxnsNameCredits(db.txns, db.credits) && RowsSound(db.credits, db.rows) && |db.credits| <= c
    ensures Settled(db, c) == 0
    ensures Sum(db.txns, RepaidOn(c)) == 0
  {
    SumZero(db.txns, RepaidOn(c));
    SumZero(db.rows, OwedOn(c));
  }

  lemma {:induction false} UniformSchedule(c: int, req: Credits.Request, n: nat)
    requires n <= |req.dates|
    ensures Sum(Credits.NewRows(c, req)[..n], OwedOn(c)) == n * req.monthly
  {
    if n > 0 {
      UniformSchedule(c, req, n - 1);
      assert Credits.NewRows(c, req)[..n][..n - 1] == Credits.NewRows(c, req)[..n - 1];
      assert n * req.monthly == (n - 1) * req.monthly + req.monthly;
    }
  }

  lemma UnrelatedTxn(db: Db, t: Txn, d: int)
    requires t.kind != CreditPayment && t.kind != CreditPrepayment
    ensures Sum(db.txns + [t], RepaidOn(d)) == Sum(db.txns, RepaidOn(d))
  {
    SumAppend(db.txns, t, RepaidOn(d));
  }

  /** No operation changes what an existing credit has repaid plus owes. */
  lemma StepConservesDebt(db: Db, op: Op, d: int)
    requires Inv(db) && d < |db.credits|
    ensures Settled(Step(db, op).0, d) == Settled(db, d)
  {
    hide Sum, Inv;
    match op
    case Create(config, income, req, mfa, now) => IssueConservesOtherDebt(db, req, mfa, now, d);
    case Prepay(user, c, amount, mode, mfa, now) => PrepayConservesDebt(db, user, c, amount, mode, mfa, now, d);
    case ProcessPayment(id) => ProcessPaymentConservesDebt(db, id, d);
    case Deposit(_, _, _) => LoggedOnce(db, op, d);
    case Withdraw(_, _, _, _, _) => LoggedOnce(db, op, d);
    case CardPayment(_, _, _, _, _) => LoggedOnce(db, op, d);
    case Transfer(_, _, _, _, _, _) => LoggedOnce(db, op, d);
    case OpenAccount(_) =>
    case SetBlocked(_, _) =>
    case Close(_, _) =>
    case SaveCode(_, _, _, _, _) =>
    case PurgeCodes(_) =>
  }

  lemma LoggedOnce(db: Db, op: Op, d: int)
    requires op.Deposit? || op.Withdraw? || op.CardPayment? || op.Transfer?
    ensures Settled(Step(db, op).0, d) == Settled(db, d)
  {
    if Step(db, op).1.Done? {
      UnrelatedTxn(db, Step(db, op).0.txns[|db.txns|], d);
    }
  }

  lemma {:induction false} RunConservesDebt(db: Db, more: seq<Op>, c: int)
    requires Inv(db) && c < |db.credits|
    ensures c < |Run(db, more).credits|
    ensures Settled(Run(db, more), c) == Settled(db, c)
  {
    if more != [] {
      var front := more[..|more| - 1];
      RunConservesDebt(db, front, c);
      RunKeepsInv(db, front);
      StepConservesDebt(Run(db, front), more[|more| - 1], c);
      TablesOnlyGrow(Run(db, front), more[|more| - 1]);
    }
  }

  /** Debt conservation over every run: issue a credit in any sound state and run anything after it; whatever was
      prepaid, paid or missed, repayments plus unpaid rows add up to the schedule the credit was issued with. */
  lemma DebtIsConserved(db: Db, issue: Op, more: seq<Op>)
    requires Inv(db) && issue.Create? && Step(db, issue).1.Done?
    ensures Settled(Run(Step(db, issue).0, more), |db.credits|) == |issue.req.dates| * issue.req.monthly
  {
    hide Inv, Settled;
    var after := Step(db, issue).0;
    assert Inv(after) by { StepKeepsInv(db, issue); }
    assert Settled(after, |db.credits|) == |issue.req.dates| * issue.req.monthly by {
      IssueOwesItsSchedule(db, issue.req, issue.mfa, issue.now);
    }
    assert |after.credits| == |db.credits| + 1;
    RunConservesDebt(after, more, |db.credits|);
  }

  lemma TablesOnlyGrow(db: Db, op: Op)
    ensures |db.credits| <= |Step(db, op).0.credits| && |db.accounts| <= |Step(db, op).0.accounts|
    ensures |db.rows| <= |Step(db, op).0.rows| && db.txns <= Step(db, op).0.txns
  {
    hide Sum, PendingIds, WriteBack;
  }

  // ----- statuses and rows only move forward -----

  function CreditRank(s: CreditStatus): int {
    match s case Active => 0 case Overdue => 1 case Closed => 2
  }

  function RowRank(s: RowStatus): int {
    match s case RowPending => 0 case RowOverdue => 1 case RowPaid => 2
  }

  /** Active, then overdue, then closed: no operation moves a credit back, so a closed credit never reopens. */
  lemma StatusesMoveForward(db: Db, op: Op, c: int)
    requires Inv(db) && 0 <= c < |db.credits|
    ensures var db' := Step(db, op).0;
            && c < |db'.credits|
            && db'.credits[c].user == db.credits[c].user && db'.credits[c].account == db.credits[c].account
            && CreditRank(db.credits[c].status) <= CreditRank(db'.credits[c].status)
  {
    hide WriteBack, Sum, PendingIds, TermsCover;
    if op.ProcessPayment? && 0 <= op.row < |db.rows| && db.rows[op.row].status != RowPaid {
      assert !AllPaid(db.rows, db.rows[op.row].credit);
    }
  }

  /** Over every run from a sound state a credit only moves forward, so a closed credit never reopens. */
  lemma {:induction false} StatusesMoveForwardOverRuns(db: Db, more: seq<Op>, c: int)
    requires Inv(db) && 0 <= c < |db.credits|
    ensures var after := Run(db, more);
            && c < |after.credits|
            && after.credits[c].user == db.credits[c].user && after.credits[c].account == db.credits[c].account
            && CreditRank(db.credits[c].status) <= CreditRank(after.credits[c].status)
            && (db.credits[c].status == CreditStatus.Closed ==> after.credits[c].status == CreditStatus.Closed)
  {
    if more != [] {
      hide Inv, Step;
      var front := more[..|more| - 1];
      StatusesMoveForwardOverRuns(db, front, c);
      RunKeepsInv(db, front);
      StatusesMoveForward(Run(db, front), more[|more| - 1], c);
    }
  }

  /** A row that left the pending state keeps its amount and its penalty: a penalty is charged once,
      and a paid row never changes again. */
  ghost predicate RowMovesForward(r: Row, r': Row) {
    && r'.credit == r.credit && r'.date == r.date
    && RowRank(r.status) <= RowRank(r'.status)
    && (r.status != RowPending ==> r'.amount == r.amount && r'.penalty == r.penalty)
    && (r.status == RowPaid ==> r' == r)
  }

  lemma RowsMoveForward(db: Db, op: Op, i: int)
    requires Inv(db) && 0 <= i < |db.rows|
    ensures i < |Step(db, op).0.rows| && RowMovesForward(db.rows[i], Step(db, op).0.rows[i])
  {
    hide WriteBack, Sum, PendingIds, TermsCover;
    if op.Prepay? && Step(db, op).1.Prepaid? {
      PrepayMovesRowsForward(db, op, i);
    }
  }

  lemma PrepayMovesRowsForward(db: Db, op: Op, i: int)
    requires Inv(db) && 0 <= i < |db.rows| && op.Prepay? && Step(db, op).1.Prepaid?
    ensures RowMovesForward(db.rows[i], Step(db, op).0.rows[i])
  {
    PrepaidRow(db.credits, db.rows, op.credit, op.amount, op.mode, i);
  }

  lemma PrepaidRow(credits: seq<Credit>, rows: seq<Row>, c: int, amount: int, mode: Credits.Mode, i: int)
    requires Sound(credits, rows) && 0 <= c < |credits| && 0 <= i < |rows|
    requires PendingIds(rows, c) != [] && 0 < amount <= Total(PendingAmounts(rows, c))
    requires Credits.NewAmounts(PendingAmounts(rows, c), amount, mode).Some?
    ensures var news := Credits.NewAmounts(PendingAmounts(rows, c), amount, mode).value;
            RowMovesForward(rows[i], WriteBack(rows, PendingIds(rows, c), news)[i])
  {
    hide WriteBack, Sum, PendingIds, ReduceTerm;
    var amounts := PendingAmounts(rows, c);
    Credits.PendingAmountsFit(credits, rows, c);
    Credits.NewAmountsFit(amounts, amount, mode);
    Credits.RewrittenRow(rows, c, Credits.NewAmounts(amounts, amount, mode).value, amounts[0], i);
  }

  /** Over any run from a sound state, every row only moves forward. */
  lemma {:induction false} RowsMoveForwardOverRuns(db: Db, more: seq<Op>, i: int)
    requires Inv(db) && 0 <= i < |db.rows|
    ensures i < |Run(db, more).rows| && RowMovesForward(db.rows[i], Run(db, more).rows[i])
  {
    if more != [] {
      var front := more[..|more| - 1];
      RowsMoveForwardOverRuns(db, front, i);
      RunKeepsInv(db, front);
      RowsMoveForward(Run(db, front), more[|more| - 1], i);
    }
  }

  // ----- closed accounts -----

  /** Once closed, an account stays closed through every later step, with balance zero,
      no open credit and no unpaid row. */
  lemma {:induction false} ClosedAccountsStayAtRest(db: Db, more: seq<Op>, a: int)
    requires Inv(db) && HasAccount(db.accounts, a) && db.accounts[a].closed
    ensures var after := Run(db, more);
            && HasAccount(after.accounts, a) && after.accounts[a].closed && after.accounts[a].balance == 0
            && (forall c :: 0 <= c < |after.credits| && after.credits[c].account == a ==>
                  after.credits[c].status == CreditStatus.Closed && AllPaid(after.rows, c))
  {
    RunKeepsInv(db, more);
    if more != [] {
      var front := more[..|more| - 1];
      ClosedAccountsStayAtRest(db, front, a);
      ClosedStaysClosed(Run(db, front), more[|more| - 1], a);
    }
  }

  lemma ClosedStaysClosed(db: Db, op: Op, a: int)
    requires HasAccount(db.accounts, a) && db.accounts[a].closed
    ensures HasAccount(Step(db, op).0.accounts, a) && Step(db, op).0.accounts[a].closed
  {
    hide Sum, PendingIds, WriteBack;
  }

  /** On a sound state the blocking-credit query is the status test alone: unpaid rows only hang off open credits. */
  lemma BlockingCreditIsOpenCredit(db: Db, a: int)
    requires Inv(db)
    ensures Accounts.HasBlockingCredit(db, a) <==>
            exists c ::
              0 <= c < |db.credits| && db.credits[c].account == a && db.credits[c].status != CreditStatus.Closed
  {
  }

  // ----- prepayment -----

  /** With no overdue row, what Prepay calls outstanding is what the credit owes. */
  lemma OutstandingIsOwed(rows: seq<Row>, c: int)
    requires !HasOverdue(rows, c)
    ensures Total(PendingAmounts(rows, c)) == Sum(rows, OwedOn(c))
  {
    PendingTotal(rows, c);
    SumCongruent(rows, rows, PendingOn(c), OwedOn(c));
  }

  /** A successful prepayment never raises the monthly payment and never lengthens the term, and the term and the debt
      it reports are the number and the total of the rows still unpaid. */
  lemma PrepaymentOutcome(db: Db, user: int, c: int, amount: int, mode: Credits.Mode, mfa: int, now: int)
    requires Inv(db) && Credits.Prepay(db, user, c, amount, mode, mfa, now).1.Prepaid?
    ensures var (db', o) := Credits.Prepay(db, user, c, amount, mode, mfa, now);
            && 0 <= o.newMonthly <= o.oldMonthly
            && 0 <= o.newTerm <= |PendingIds(db.rows, c)| <= o.oldTerm
            && o.newTerm == |PendingIds(db'.rows, c)|
            && o.remaining == Sum(db'.rows, OwedOn(c)) == Sum(db.rows, OwedOn(c)) - amount
            && (o.closed <==> o.remaining == 0)
            && (o.closed <==> db'.credits[c].status == CreditStatus.Closed)
            && db'.credits[c].principal == o.remaining
  {
    hide Sum, WriteBack, PendingIds, Positive;
    var (db', o) := Credits.Prepay(db, user, c, amount, mode, mfa, now);
    var ids, amounts := PendingIds(db.rows, c), PendingAmounts(db.rows, c);
    var news := Credits.NewAmounts(amounts, amount, mode).value;
    Credits.PendingAmountsFit(db.credits, db.rows, c);
    Credits.NewAmountsFit(amounts, amount, mode);
    OutstandingIsOwed(db.rows, c);
    WriteBackOwed(db.rows, ids, news, c);
    PositiveIsShorter(news);
    Credits.WriteBackCounts(db.rows, c, news, c);
    if o.closed {
      Credits.NonePositive(news);
    }
  }

  lemma {:induction false} PositiveIsShorter(s: seq<int>)
    ensures |Positive(s)| <= |s|
  {
    if s != [] {
      PositiveIsShorter(s[..|s| - 1]);
    }
  }

  /** The separate overdue-row check of Prepay never decides anything: an active credit has no overdue row. */
  lemma OverdueCheckIsRedundant(db: Db, c: int)
    requires Inv(db) && 0 <= c < |db.credits| && db.credits[c].status == Active
    ensures !HasOverdue(db.rows, c) && PendingIds(db.rows, c) != []
  {
    assert !AllPaid(db.rows, c);
    var i :| 0 <= i < |db.rows| && db.rows[i].credit == c && db.rows[i].status != RowPaid;
    assert IsPending(db.rows[i], c);
  }

  /** The same row processed again and again, as a stale or repeated due list would. */
  function Retried(db: Db, id: int, n: nat): Db {
    if n == 0 then db else Credits.ProcessPayment(Retried(db, id, n - 1), id).0
  }

  /** What collecting the row costs its account over those retries: nothing until it is paid, then amount and penalty.
      */
  function Charged(before: Row, after: Row): int {
    if before.status != RowPaid && after.status == RowPaid then after.amount + after.penalty else 0
  }

  /** From db to db' row id's account is charged exactly for the row, the amount does not change, and the penalty is the
      row's own or the tenth it gets when it first goes overdue. */
  ghost predicate ChargedOnce(db: Db, db': Db, id: int) {
    && 0 <= id < |db.rows| == |db'.rows| && 0 <= db.rows[id].credit < |db.credits| == |db'.credits|
    && HasAccount(db.accounts, db.credits[db.rows[id].credit].account) && |db'.accounts| == |db.accounts|
    && var r, r', a := db.rows[id], db'.rows[id], db.credits[db.rows[id].credit].account;
    && r'.credit == r.credit && db'.credits[r.credit].account == a
    && db'.accounts[a].balance == db.accounts[a].balance - Charged(r, r')
    && r'.amount == r.amount
    && RowRank(r.status) <= RowRank(r'.status)
    && r'.penalty in {r.penalty, PenaltyFor(r.amount)}
    && (r.status != RowPending ==> r'.penalty == r.penalty)
    && (r.status == RowPaid ==> db' == db)
  }

  lemma OnePaymentCharges(db: Db, id: int)
    requires Inv(db) && 0 <= id < |db.rows|
    ensures ChargedOnce(db, Credits.ProcessPayment(db, id).0, id)
  {
    hide Sum, PendingIds;
  }

  lemma ChargesCompose(db: Db, mid: Db, db': Db, id: int)
    requires ChargedOnce(db, mid, id) && ChargedOnce(mid, db', id)
    ensures ChargedOnce(db, db', id)
  {
    hide PenaltyFor;
  }

  /** However often a row is processed, its account is charged at most once, and a penalty is set at most once. */
  lemma {:induction false} RetryIsSafe(db: Db, id: int, n: nat)
    requires Inv(db) && 0 <= id < |db.rows|
    ensures Inv(Retried(db, id, n)) && ChargedOnce(db, Retried(db, id, n), id)
  {
    if n == 0 {
      NothingCharged(db, id);
    } else {
      hide Inv, Credits.ProcessPayment;
      RetryIsSafe(db, id, n - 1);
      var before := Retried(db, id, n - 1);
      OnePaymentCharges(before, id);
      ProcessPaymentKeepsInv(before, id);
      ChargesCompose(db, before, Retried(db, id, n), id);
    }
  }

  lemma NothingCharged(db: Db, id: int)
    requires Inv(db) && 0 <= id < |db.rows|
    ensures ChargedOnce(db, db, id)
  {
    hide Sum, PendingIds;
  }

  // ----- transfers and open credits -----

  function BalanceOf(a: Account): int { a.balance }

  /** A transfer moves exactly its amount between accounts without creating or destroying any; to itself it moves
      none. */
  lemma TransferKeepsTotal(db: Db, user: int, from: int, to: int, amount: int, code: Option<int>, now: int)
    ensures var db' := Accounts.Transfer(db, user, from, to, amount, code, now).0;
            && Sum(db'.accounts, BalanceOf) == Sum(db.accounts, BalanceOf)
            && (from == to ==> db'.accounts == db.accounts)
            && (Succeeds(db, Op.Transfer(user, from, to, amount, code, now)) && from != to ==>
                  && Balance(db'.accounts, from) == Balance(db.accounts, from) - amount
                  && Balance(db'.accounts, to) == Balance(db.accounts, to) + amount)
  {
    hide Sum;
    var (db', o) := Accounts.Transfer(db, user, from, to, amount, code, now);
    if o.Done? {
      var mid := AddBalance(db.accounts, from, -amount);
      SumUpdate(db.accounts, from, mid[from], BalanceOf);
      SumUpdate(mid, to, db'.accounts[to], BalanceOf);
    }
  }

  /** Only issuing raises a user's count of open credits, and by one. */
  lemma OpenCreditsStep(db: Db, op: Op, user: int)
    requires Inv(db) && !op.Create?
    ensures Policy.OpenCredits(Step(db, op).0.credits, user) <= Policy.OpenCredits(db.credits, user)
  {
    hide Inv, Sum, WriteBack, PendingIds;
    if op.Prepay? && Step(db, op).1.Prepaid? {
      OpenCreditsAt(db, op, op.credit, user);
    } else if op.ProcessPayment? && Step(db, op).1.Processed? {
      OpenCreditsAt(db, op, db.rows[op.row].credit, user);
    }
  }

  lemma OpenCreditsAt(db: Db, op: Op, c: int, user: int)
    requires Inv(db) && 0 <= c < |db.credits| && 0 <= c < |Step(db, op).0.credits|
    requires Step(db, op).0.credits == db.credits[c := Step(db, op).0.credits[c]]
    ensures Policy.OpenCredits(Step(db, op).0.credits, user) <= Policy.OpenCredits(db.credits, user)
  {
    StatusesMoveForward(db, op, c);
    SumUpdate(db.credits, c, Step(db, op).0.credits[c], Policy.OpenOn(user));
  }

  lemma OpenCreditsIssue(db: Db, req: Credits.Request, mfa: int, now: int, user: int)
    requires Credits.Issue(db, req, mfa, now).1.Done?
    ensures Policy.OpenCredits(Credits.Issue(db, req, mfa, now).0.credits, user)
         == Policy.OpenCredits(db.credits, user) + if user == req.user then 1 else 0
  {
    SumAppend(db.credits, Credits.Issue(db, req, mfa, now).0.credits[|db.credits|], Policy.OpenOn(user));
  }
}
