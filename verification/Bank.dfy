/** The bank as one state machine: every committed or rolled-back operation is a step. */
module Bank {
  import opened Basics
  import opened Tables
  import opened Ledger
  import opened Schedule
  import opened Prepayment
  import Accounts
  import Credits
  import Mfa
  import Policy

  datatype Op =
    | OpenAccount(user: int)
    | SetBlocked(account: int, blocked: bool)
    | Deposit(user: int, account: int, amount: int)
    | Withdraw(user: int, account: int, amount: int, code: Option<int>, now: int)
    | CardPayment(user: int, account: int, amount: int, code: Option<int>, now: int)
    | Transfer(user: int, from: int, to: int, amount: int, code: Option<int>, now: int)
    | Close(user: int, account: int)
    | Create(config: Policy.Config, income: int, req: Credits.Request, mfa: int, now: int)
    | Prepay(user: int, credit: int, amount: int, mode: Credits.Mode, mfa: int, now: int)
    | ProcessPayment(row: int)
    | SaveCode(user: int, operation: string, secret: string, now: int, expires: int)
    | PurgeCodes(now: int)

  function Step(db: Db, op: Op): (Db, Outcome) {
    match op
    case OpenAccount(user) => Accounts.OpenAccount(db, user)
    case SetBlocked(id, blocked) => Accounts.SetBlocked(db, id, blocked)
    case Deposit(user, id, amount) => Accounts.Deposit(db, user, id, amount)
    case Withdraw(user, id, amount, code, now) => Accounts.Spend(db, user, id, amount, TxnKind.Withdraw, code, now)
    case CardPayment(user, id, amount, code, now) =>
      Accounts.Spend(db, user, id, amount, TxnKind.CardPayment, code, now)
    case Transfer(user, from, to, amount, code, now) => Accounts.Transfer(db, user, from, to, amount, code, now)
    case Close(user, id) => Accounts.Close(db, user, id)
    case Create(config, income, req, mfa, now) => Credits.Create(db, config, income, req, mfa, now)
    case Prepay(user, credit, amount, mode, mfa, now) => Credits.Prepay(db, user, credit, amount, mode, mfa, now)
    case ProcessPayment(row) => Credits.ProcessPayment(db, row)
    case SaveCode(user, operation, secret, now, expires) =>
      (db.(codes := Mfa.SaveCode(db.codes, user, operation, secret, now, expires)), Done(db.codes.next))
    case PurgeCodes(now) => (db.(codes := Mfa.Purge(db.codes, now)), Done(0))
  }

  function Run(db: Db, ops: seq<Op>): Db {
    if ops == [] then db else Step(Run(db, ops[..|ops| - 1]), ops[|ops| - 1]).0
  }

  // ----- invariants -----

  /** A credit's account exists and belongs to the credit's user. */
  ghost predicate Owned(accounts: seq<Account>, credits: seq<Credit>) {
    forall c :: 0 <= c < |credits| ==>
      HasAccount(accounts, credits[c].account) && accounts[credits[c].account].user == credits[c].user
  }

  /** A closed account is empty and every credit on it is closed. */
  ghost predicate ClosedAtRest(accounts: seq<Account>, credits: seq<Credit>) {
    forall a :: 0 <= a < |accounts| && accounts[a].closed ==>
      && accounts[a].balance == 0
      && forall c :: 0 <= c < |credits| && credits[c].account == a ==> credits[c].status == CreditStatus.Closed
  }

  /** credit_payment and credit_prepayment amounts of credit c. */
  function RepaidOn(c: int): Txn -> int {
    (t: Txn) => if t.credit == Some(c) && (t.kind == CreditPayment || t.kind == CreditPrepayment) then t.amount else 0
  }

  function PenaltyTxnOn(c: int): Txn -> int {
    (t: Txn) => if t.credit == Some(c) && t.kind == Penalty then t.amount else 0
  }

  ghost predicate TxnsNameCredits(txns: seq<Txn>, credits: seq<Credit>) {
    forall i :: 0 <= i < |txns| && txns[i].credit.Some? ==> 0 <= txns[i].credit.value < |credits|
  }

  /** The penalties logged for a credit are exactly those of its paid rows. */
  ghost predicate PenaltiesBooked(txns: seq<Txn>, rows: seq<Row>) {
    forall c: int :: Sum(txns, PenaltyTxnOn(c)) == Sum(rows, PenaltyPaidOn(c))
  }

  ghost predicate Books(accounts: seq<Account>, txns: seq<Txn>, credits: seq<Credit>) {
    && Agrees(accounts, txns)
    && Owned(accounts, credits)
    && ClosedAtRest(accounts, credits)
    && TxnsNameCredits(txns, credits)
  }

  ghost predicate Inv(db: Db) {
    && Sound(db.credits, db.rows)
    && TermsCover(db.credits, db.rows)
    && Books(db.accounts, db.txns, db.credits)
    && PenaltiesBooked(db.txns, db.rows)
  }

  // ----- each operation keeps them -----

  /** Operations that leave the transaction log, the credits and the schedules alone. */
  lemma AccountEditKeepsInv(db: Db, id: int, account: Account)
    requires Inv(db) && HasAccount(db.accounts, id)
    requires account.user == db.accounts[id].user && account.balance == db.accounts[id].balance
    requires account.closed && !db.accounts[id].closed ==>
      account.balance == 0 && !Accounts.HasBlockingCredit(db, id)
    ensures Inv(db.(accounts := db.accounts[id := account]))
  {
    var accounts' := db.accounts[id := account];
    forall a: int ensures Balance(accounts', a) == Balance(db.accounts, a) {}
  }

  lemma OpenAccountKeepsInv(db: Db, user: int)
    requires Inv(db)
    ensures Inv(Accounts.OpenAccount(db, user).0)
  {
    var accounts' := db.accounts + [Account(user, 0, false, false)];
    forall a: int ensures Balance(accounts', a) == Balance(db.accounts, a) {}
  }

  /** A transaction that names no credit and moves exactly what it logs. */
  lemma PlainMoveKeepsInv(db: Db, accounts': seq<Account>, t: Txn, codes': CodeTable)
    requires Inv(db) && t.credit == None
    requires |accounts'| == |db.accounts|
    requires forall a :: 0 <= a < |accounts'| ==>
      && accounts'[a].user == db.accounts[a].user && accounts'[a].closed == db.accounts[a].closed
      && (accounts'[a].closed ==> accounts'[a].balance == db.accounts[a].balance)
    requires forall a: int :: 0 <= Balance(accounts', a) == Balance(db.accounts, a) + EffectOn(a)(t)
    ensures Inv(db.(accounts := accounts', txns := db.txns + [t], codes := codes'))
  {
    hide PendingIds, Sum;
    PostKeepsAgreement(db.accounts, accounts', db.txns, t);
    forall c: int ensures Sum(db.txns + [t], PenaltyTxnOn(c)) == Sum(db.txns, PenaltyTxnOn(c)) {
      SumAppend(db.txns, t, PenaltyTxnOn(c));
    }
  }

  lemma DepositKeepsInv(db: Db, user: int, id: int, amount: int)
    requires Inv(db)
    ensures Inv(Accounts.Deposit(db, user, id, amount).0)
  {
    if Accounts.Deposit(db, user, id, amount).1.Done? {
      var t := Txn(user, None, Some(id), None, amount, TxnKind.Deposit, TxnCompleted);
      var accounts' := AddBalance(db.accounts, id, amount);
      forall a: int ensures 0 <= Balance(accounts', a) == Balance(db.accounts, a) + EffectOn(a)(t) {
        assert 0 <= Balance(db.accounts, a);
      }
      PlainMoveKeepsInv(db, accounts', t, db.codes);
    }
  }

  lemma SpendKeepsInv(db: Db, user: int, id: int, amount: int, kind: TxnKind, code: Option<int>, now: int)
    requires Inv(db)
    ensures Inv(Accounts.Spend(db, user, id, amount, kind, code, now).0)
  {
    if Accounts.Spend(db, user, id, amount, kind, code, now).1.Done? {
      var t := Txn(user, Some(id), None, None, amount, kind, TxnCompleted);
      var accounts' := AddBalance(db.accounts, id, -amount);
      forall a: int ensures 0 <= Balance(accounts', a) == Balance(db.accounts, a) + EffectOn(a)(t) {
        assert 0 <= Balance(db.accounts, a);
      }
      PlainMoveKeepsInv(db, accounts', t, Consume(db.codes, code, now).value);
    }
  }

  lemma TransferKeepsInv(db: Db, user: int, from: int, to: int, amount: int, code: Option<int>, now: int)
    requires Inv(db)
    ensures Inv(Accounts.Transfer(db, user, from, to, amount, code, now).0)
  {
    if Accounts.Transfer(db, user, from, to, amount, code, now).1.Done? {
      var t := Txn(user, Some(from), Some(to), None, amount, TxnKind.Transfer, TxnCompleted);
      var accounts' := Accounts.Move(db.accounts, from, to, amount);
      forall a: int ensures 0 <= Balance(accounts', a) == Balance(db.accounts, a) + EffectOn(a)(t) {
        assert 0 <= Balance(db.accounts, a);
      }
      PlainMoveKeepsInv(db, accounts', t, Consume(db.codes, code, now).value);
    }
  }

  lemma IssueKeepsInv(db: Db, req: Credits.Request, mfa: int, now: int)
    requires Inv(db)
    ensures Inv(Credits.Issue(db, req, mfa, now).0)
  {
    hide Sum, PendingIds, TermsCover;
    var (db', outcome) := Credits.Issue(db, req, mfa, now);
    if outcome.Done? {
      var c := |db.credits|;
      Credits.IssueKeepsSound(db.credits, db.rows, req, db'.credits[c]);
      Credits.IssueKeepsTerms(db.credits, db.rows, req, db'.credits[c]);
      var t := db'.txns[|db.txns|];
      PostKeepsAgreement(db.accounts, db'.accounts, db.txns, t);
      forall d: int ensures Sum(db'.txns, PenaltyTxnOn(d)) == Sum(db'.rows, PenaltyPaidOn(d)) {
        SumAppend(db.txns, t, PenaltyTxnOn(d));
        SumConcat(db.rows, Credits.NewRows(c, req), PenaltyPaidOn(d));
        SumZero(Credits.NewRows(c, req), PenaltyPaidOn(d));
        assert Sum(db.txns, PenaltyTxnOn(d)) == Sum(db.rows, PenaltyPaidOn(d));
      }
    }
  }

  /** Taking money off an open account for a credit keeps the ledger, the ownership and the closed accounts. */
  lemma ChargeKeepsBooks(
      accounts: seq<Account>, txns: seq<Txn>, credits: seq<Credit>, c: int, t: Txn, credits': seq<Credit>)
    requires Books(accounts, txns, credits) && 0 <= c < |credits|
    requires var a := credits[c].account; !accounts[a].closed && t.amount <= accounts[a].balance
    requires t.from == Some(credits[c].account) && t.to == None && t.status == TxnCompleted && t.credit == Some(c)
    requires SameTerms(credits, credits', c)
    ensures Books(AddBalance(accounts, credits[c].account, -t.amount), txns + [t], credits')
  {
    var accounts' := AddBalance(accounts, credits[c].account, -t.amount);
    forall a: int ensures 0 <= Balance(accounts', a) == Balance(accounts, a) + EffectOn(a)(t) {
      assert 0 <= Balance(accounts, a);
    }
    PostKeepsAgreement(accounts, accounts', txns, t);
  }

  /** Only credit c may differ, and not in its user or account. */
  ghost predicate SameTerms(credits: seq<Credit>, credits': seq<Credit>, c: int) {
    && |credits'| == |credits|
    && forall d :: 0 <= d < |credits| ==>
      && credits'[d].account == credits[d].account && credits'[d].user == credits[d].user
      && (d != c ==> credits'[d] == credits[d])
  }

  lemma PrepayKeepsInv(db: Db, user: int, c: int, amount: int, mode: Credits.Mode, mfa: int, now: int)
    requires Inv(db)
    ensures Inv(Credits.Prepay(db, user, c, amount, mode, mfa, now).0)
  {
    hide Sum, WriteBack, PendingIds, PendingAmounts, Agrees, Credits.NewAmounts;
    var (db', outcome) := Credits.Prepay(db, user, c, amount, mode, mfa, now);
    if outcome.Prepaid? {
      var t := Txn(user, Some(db.credits[c].account), None, Some(c), amount, CreditPrepayment, TxnCompleted);
      var news := Credits.NewAmounts(PendingAmounts(db.rows, c), amount, mode).value;
      Credits.PrepayKeepsSound(db.credits, db.rows, c, amount, mode);
      Credits.PrepayKeepsTerms(db.credits, db.rows, c, amount, mode);
      ChargeKeepsBooks(db.accounts, db.txns, db.credits, c, t, db'.credits);
      PrepaymentBooksNoPenalty(db, c, news, t);
    }
  }

  lemma PrepaymentBooksNoPenalty(db: Db, c: int, news: seq<int>, t: Txn)
    requires RowsSound(db.credits, db.rows) && PenaltiesBooked(db.txns, db.rows)
    requires |news| == |PendingIds(db.rows, c)| && t.kind == CreditPrepayment
    ensures PenaltiesBooked(db.txns + [t], WriteBack(db.rows, PendingIds(db.rows, c), news))
  {
    var rows' := WriteBack(db.rows, PendingIds(db.rows, c), news);
    forall d: int ensures Sum(db.txns + [t], PenaltyTxnOn(d)) == Sum(rows', PenaltyPaidOn(d)) {
      SumAppend(db.txns, t, PenaltyTxnOn(d));
      WriteBackElsewhere(db.rows, PendingIds(db.rows, c), news, c, d);
      assert Sum(db.txns, PenaltyTxnOn(d)) == Sum(db.rows, PenaltyPaidOn(d));
    }
  }

  /** A payment is charged once but logged as amount and penalty: both steps of that log keep the books. */
  lemma PaymentKeepsBooks(db: Db, id: int, credits': seq<Credit>)
    requires Inv(db) && 0 <= id < |db.rows| && db.rows[id].status != RowPaid
    requires var r := db.rows[id]; var a := db.credits[r.credit].account;
             !db.accounts[a].closed && WithdrawalFor(r) <= db.accounts[a].balance
    requires SameTerms(db.credits, credits', db.rows[id].credit)
    ensures var r := db.rows[id];
            var credit := db.credits[r.credit];
            Books(AddBalance(db.accounts, credit.account, -WithdrawalFor(r)),
                  db.txns + Credits.PaymentTxns(credit, r), credits')
  {
    hide PendingIds, TermsCover, Sum;
    var r := db.rows[id];
    var credit := db.credits[r.credit];
    var paid := Credits.PaymentTxns(credit, r);
    if r.penalty > 0 {
      ChargeKeepsBooks(db.accounts, db.txns, db.credits, r.credit, paid[0], db.credits);
      var accounts1, txns1 := AddBalance(db.accounts, credit.account, -r.amount), db.txns + [paid[0]];
      ChargeKeepsBooks(accounts1, txns1, db.credits, r.credit, paid[1], credits');
      assert AddBalance(accounts1, credit.account, -r.penalty)
          == AddBalance(db.accounts, credit.account, -WithdrawalFor(r));
      assert db.txns + paid == txns1 + [paid[1]];
    } else {
      ChargeKeepsBooks(db.accounts, db.txns, db.credits, r.credit, paid[0], credits');
      assert paid == [paid[0]];
    }
  }

  lemma PaymentTxnSums(db: Db, id: int, d: int)
    requires 0 <= id < |db.rows| && 0 <= db.rows[id].credit < |db.credits|
    requires db.rows[id].status != RowPaid && PenaltyRule(db.rows[id]) && 0 < db.rows[id].amount
    ensures var r := db.rows[id];
            var txns' := db.txns + Credits.PaymentTxns(db.credits[r.credit], r);
            var rows' := db.rows[id := r.(status := RowPaid)];
            && Sum(txns', PenaltyTxnOn(d)) - Sum(db.txns, PenaltyTxnOn(d))
                 == Sum(rows', PenaltyPaidOn(d)) - Sum(db.rows, PenaltyPaidOn(d))
            && Sum(txns', RepaidOn(d)) - Sum(db.txns, RepaidOn(d))
                 == Sum(db.rows, OwedOn(d)) - Sum(rows', OwedOn(d))
  {
    hide Sum;
    var r := db.rows[id];
    var paid := Credits.PaymentTxns(db.credits[r.credit], r);
    SumUpdate(db.rows, id, r.(status := RowPaid), PenaltyPaidOn(d));
    SumUpdate(db.rows, id, r.(status := RowPaid), OwedOn(d));
    SumConcat(db.txns, paid, PenaltyTxnOn(d));
    SumConcat(db.txns, paid, RepaidOn(d));
    var second := paid[|paid| - 1];
    assert paid == if r.penalty > 0 then [paid[0], second] else [paid[0]];
    SumFew(paid[0], second, PenaltyTxnOn(d));
    SumFew(paid[0], second, RepaidOn(d));
  }

  lemma StatusChangeKeepsBooks(
      accounts: seq<Account>, txns: seq<Txn>, credits: seq<Credit>, c: int, credits': seq<Credit>)
    requires Books(accounts, txns, credits) && SameTerms(credits, credits', c)
    requires 0 <= c < |credits| && !accounts[credits[c].account].closed
    ensures Books(accounts, txns, credits')
  {
  }

  lemma ProcessPaymentKeepsInv(db: Db, id: int)
    requires Inv(db)
    ensures Inv(Credits.ProcessPayment(db, id).0)
  {
    hide Sum, Agrees, PendingIds;
    var (db', outcome) := Credits.ProcessPayment(db, id);
    if outcome.Processed? && outcome.status == PaidNow {
      Credits.PaidKeepsSound(db.credits, db.rows, id);
      Credits.RowChangeKeepsTerms(db.credits, db.rows, id, db'.rows[id], db'.credits);
      PaymentKeepsBooks(db, id, db'.credits);
      forall d: int ensures Sum(db'.txns, PenaltyTxnOn(d)) == Sum(db'.rows, PenaltyPaidOn(d)) {
        PaymentTxnSums(db, id, d);
        assert Sum(db.txns, PenaltyTxnOn(d)) == Sum(db.rows, PenaltyPaidOn(d));
      }
    } else if outcome.Processed? && outcome.status == StillOverdue && db.rows[id].status == RowPending {
      Credits.OverdueKeepsSound(db.credits, db.rows, id);
      Credits.RowChangeKeepsTerms(db.credits, db.rows, id, db'.rows[id], db'.credits);
      StatusChangeKeepsBooks(db.accounts, db.txns, db.credits, db.rows[id].credit, db'.credits);
      forall d: int ensures Sum(db'.rows, PenaltyPaidOn(d)) == Sum(db.rows, PenaltyPaidOn(d)) {
        SumUpdate(db.rows, id, db'.rows[id], PenaltyPaidOn(d));
      }
    }
  }

  /** Every operation keeps every invariant. */
  lemma StepKeepsInv(db: Db, op: Op)
    requires Inv(db)
    ensures Inv(Step(db, op).0)
  {
    hide Inv;
    match op
    case OpenAccount(user) => OpenAccountKeepsInv(db, user);
    case SetBlocked(id, blocked) =>
      if Step(db, op).1.Done? {
        AccountEditKeepsInv(db, id, db.accounts[id].(blocked := blocked));
      }
    case Deposit(user, id, amount) => DepositKeepsInv(db, user, id, amount);
    case Withdraw(user, id, amount, code, now) => SpendKeepsInv(db, user, id, amount, TxnKind.Withdraw, code, now);
    case CardPayment(user, id, amount, code, now) =>
      SpendKeepsInv(db, user, id, amount, TxnKind.CardPayment, code, now);
    case Transfer(user, from, to, amount, code, now) => TransferKeepsInv(db, user, from, to, amount, code, now);
    case Close(user, id) =>
      if Step(db, op).1.Done? {
        AccountEditKeepsInv(db, id, db.accounts[id].(closed := true));
      }
    case Create(config, income, req, mfa, now) => IssueKeepsInv(db, req, mfa, now);
    case Prepay(user, credit, amount, mode, mfa, now) => PrepayKeepsInv(db, user, credit, amount, mode, mfa, now);
    case ProcessPayment(row) => ProcessPaymentKeepsInv(db, row);
    case SaveCode(_, _, _, _, _) => CodesKeepInv(db, Step(db, op).0.codes);
    case PurgeCodes(_) => CodesKeepInv(db, Step(db, op).0.codes);
  }

  lemma CodesKeepInv(db: Db, codes: CodeTable)
    requires Inv(db)
    ensures Inv(db.(codes := codes))
  {
  }

  lemma EmptyIsSound()
    ensures Inv(EMPTY)
  {
    assert Books([], [], []) by {
      forall a: int ensures Balance([], a) == 0 == Net([], a) {}
    }
    assert PenaltiesBooked([], []) by {
      forall c: int ensures Sum([], PenaltyTxnOn(c)) == 0 == Sum([], PenaltyPaidOn(c)) {}
    }
    assert Sound([], []);
  }

  lemma {:induction false} RunKeepsInv(db: Db, ops: seq<Op>)
    requires Inv(db)
    ensures Inv(Run(db, ops))
  {
    if ops != [] {
      RunKeepsInv(db, ops[..|ops| - 1]);
      StepKeepsInv(Run(db, ops[..|ops| - 1]), ops[|ops| - 1]);
    }
  }

  /** Over every run from the empty bank, all invariants hold. */
  lemma EveryRunIsSound(ops: seq<Op>)
    ensures Inv(Run(EMPTY, ops))
  {
    EmptyIsSound();
    RunKeepsInv(EMPTY, ops);
  }
}
