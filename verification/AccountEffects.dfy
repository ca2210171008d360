/** What an account operation does to the tables, told from its request alone: when it commits, who gains and loses
    how much, what is logged, and which refusal comes first. */
module AccountEffects {
  import opened Basics
  import opened Tables
  import opened Bank
  import BankRuns

  /** The account exists and is neither closed nor blocked. */
  predicate InUse(accounts: seq<Account>, id: int) {
    HasAccount(accounts, id) && !accounts[id].closed && !accounts[id].blocked
  }

  /** No code is asked for, or the one given is unspent and unexpired. */
  predicate CodePasses(codes: CodeTable, code: Option<int>, now: int) {
    code.Some? ==> code.value in codes.rows && !codes.rows[code.value].used && now < codes.rows[code.value].expires
  }

  /** From db to db' every account changed its balance by `gain` of its id and nothing else, `txns` were logged,
      and of the codes only the given one was spent. */
  ghost predicate Booked(db: Db, db': Db, gain: int -> int, txns: seq<Txn>, code: Option<int>) {
    && |db'.accounts| == |db.accounts|
    && (forall a :: 0 <= a < |db.accounts| ==>
          db'.accounts[a] == db.accounts[a].(balance := db.accounts[a].balance + gain(a)))
    && db'.txns == db.txns + txns
    && OnlyCodeSpent(db.codes, db'.codes, code)
  }

  ghost predicate OnlyCodeSpent(codes: CodeTable, codes': CodeTable, code: Option<int>) {
    && codes'.next == codes.next && codes'.rows.Keys == codes.rows.Keys
    && forall id :: id in codes.rows ==>
      codes'.rows[id] == if code == Some(id) then codes.rows[id].(used := true) else codes.rows[id]
  }

  /** A completed transaction that belongs to no credit. */
  function Plain(user: int, from: Option<int>, to: Option<int>, amount: int, kind: TxnKind): Txn {
    Txn(user, from, to, None, amount, kind, TxnCompleted)
  }

  /** `gain` for account id and nothing for any other. */
  function Only(id: int, gain: int): int -> int {
    (a: int) => if a == id then gain else 0
  }

  function Between(from: int, to: int, amount: int): int -> int {
    (a: int) => (if a == to then amount else 0) - (if a == from then amount else 0)
  }

  /** A transfer commits exactly when both accounts are in use, the source is the user's, the code passes, the amount
      is positive and covered, and the target has room for it. Then the source holds exactly the amount less, the
      target exactly the amount more, and no other account changes. */
  lemma TransferMovesItsAmount(db: Db, op: Op)
    requires op.Transfer?
    ensures var (db', o) := Step(db, op);
            && (o.Done? <==>
                  && InUse(db.accounts, op.from) && InUse(db.accounts, op.to)
                  && db.accounts[op.from].user == op.user
                  && CodePasses(db.codes, op.code, op.now)
                  && 0 < op.amount <= db.accounts[op.from].balance
                  && db.accounts[op.to].balance + (if op.from == op.to then 0 else op.amount) <= MAX_CENTS)
            && (o.Done? ==>
                  && o.id == |db.txns| && db'.credits == db.credits && db'.rows == db.rows
                  && Booked(db, db', Between(op.from, op.to, op.amount),
                            [Plain(op.user, Some(op.from), Some(op.to), op.amount, TxnKind.Transfer)], op.code))
  {
  }

  /** What a transfer is refused for, in the order the checks are made. */
  lemma TransferRefusals(db: Db, op: Op)
    requires op.Transfer? && Step(db, op).1.Failed?
    ensures var e, accounts := Step(db, op).1.error, db.accounts;
            var owned := HasAccount(accounts, op.from) && HasAccount(accounts, op.to)
                           && accounts[op.from].user == op.user;
            var inUse := owned && InUse(accounts, op.from) && InUse(accounts, op.to);
            var passed := inUse && CodePasses(db.codes, op.code, op.now);
            && (e == AccountNotFound <==> !owned)
            && (e == AccountClosed <==> owned && (accounts[op.from].closed || accounts[op.to].closed))
            && (e == AccountBlocked <==> owned && !inUse && !accounts[op.from].closed && !accounts[op.to].closed)
            && (e == MfaCodeNotFound <==> inUse && !passed)
            && (e == InsufficientFunds <==> passed && accounts[op.from].balance < op.amount)
            && (e == Constraint <==> passed && op.amount <= accounts[op.from].balance)
  {
  }

  /** A deposit commits exactly on the user's own account in use, for a positive amount the balance has room for,
      and adds exactly that amount to that account alone. */
  lemma DepositAddsItsAmount(db: Db, op: Op)
    requires op.Deposit?
    ensures var (db', o) := Step(db, op);
            && (o.Done? <==>
                  && InUse(db.accounts, op.account) && db.accounts[op.account].user == op.user
                  && 0 < op.amount && db.accounts[op.account].balance + op.amount <= MAX_CENTS)
            && (o.Done? ==>
                  && o.id == |db.txns| && db'.credits == db.credits && db'.rows == db.rows
                  && Booked(db, db', Only(op.account, op.amount),
                            [Plain(op.user, None, Some(op.account), op.amount, TxnKind.Deposit)], None))
            && (o.Failed? ==> o.error == OwnAccountRefusal(db.accounts, op.account, op.user, Constraint))
  {
  }

  /** Why the user cannot move money on the account, and `otherwise` when the account is not the reason. */
  function OwnAccountRefusal(accounts: seq<Account>, id: int, user: int, otherwise: Error): (e: Error)
    ensures e == otherwise || !(InUse(accounts, id) && accounts[id].user == user)
  {
    if InUse(accounts, id) && accounts[id].user == user then otherwise
    else if HasAccount(accounts, id) && accounts[id].user == user then
      if accounts[id].closed then AccountClosed else AccountBlocked
    else AccountNotFound
  }

  /** A withdrawal or card payment commits exactly on the user's own account in use, with a code that passes, for a
      positive amount the balance covers, and takes exactly that amount off that account alone. */
  lemma SpendingTakesItsAmount(db: Db, op: Op)
    requires op.Withdraw? || op.CardPayment?
    ensures var (db', o) := Step(db, op);
            var usable := InUse(db.accounts, op.account) && db.accounts[op.account].user == op.user;
            && (o.Done? <==>
                  usable && CodePasses(db.codes, op.code, op.now) && 0 < op.amount <= db.accounts[op.account].balance)
            && (o.Done? ==>
                  && o.id == |db.txns| && db'.credits == db.credits && db'.rows == db.rows
                  && Booked(db, db', Only(op.account, -op.amount),
                            [Plain(op.user, Some(op.account), None, op.amount,
                                   if op.Withdraw? then TxnKind.Withdraw else TxnKind.CardPayment)], op.code))
            && (o.Failed? ==>
                  o.error == OwnAccountRefusal(db.accounts, op.account, op.user,
                    if !CodePasses(db.codes, op.code, op.now) then MfaCodeNotFound
                    else if usable && db.accounts[op.account].balance < op.amount then InsufficientFunds
                    else Constraint))
  {
  }

  /** Nothing but the accounts table may differ. */
  ghost predicate OnlyAccounts(db: Db, db': Db) {
    db'.txns == db.txns && db'.credits == db.credits && db'.rows == db.rows && db'.codes == db.codes
  }

  /** A new account is the user's, empty, open and unblocked, and no account changes. */
  lemma OpenAccountAddsAnEmptyOne(db: Db, op: Op)
    requires op.OpenAccount?
    ensures var (db', o) := Step(db, op);
            && o.Done? && o.id == |db.accounts| && |db'.accounts| == |db.accounts| + 1
            && db'.accounts[o.id].user == op.user && db'.accounts[o.id].balance == 0
            && InUse(db'.accounts, o.id)
            && (forall a :: 0 <= a < |db.accounts| ==> db'.accounts[a] == db.accounts[a])
            && OnlyAccounts(db, db')
  {
  }

  /** Blocking is done exactly on an account not yet in the wanted state, and changes that flag alone. */
  lemma SetBlockedSetsOneFlag(db: Db, op: Op)
    requires op.SetBlocked?
    ensures var (db', o) := Step(db, op);
            && (o.Done? <==> HasAccount(db.accounts, op.account) && db.accounts[op.account].blocked != op.blocked)
            && (o.Failed? ==> o.error == if HasAccount(db.accounts, op.account) then StatusNotChanged
                                         else AccountNotFound)
            && (o.Done? ==>
                  && |db'.accounts| == |db.accounts| && OnlyAccounts(db, db')
                  && forall a :: 0 <= a < |db.accounts| ==>
                       db'.accounts[a]
                         == if a == op.account then db.accounts[a].(blocked := op.blocked) else db.accounts[a])
  {
  }

  /** In a sound state an account closes exactly when it is the user's, in use, empty and without an open credit;
      only its flag changes. */
  lemma CloseNeedsNothingLeft(db: Db, op: Op)
    requires Inv(db) && op.Close?
    ensures var (db', o) := Step(db, op);
            var usable := InUse(db.accounts, op.account) && db.accounts[op.account].user == op.user;
            var openCredit := exists c :: 0 <= c < |db.credits| && db.credits[c].account == op.account
                                            && db.credits[c].status != CreditStatus.Closed;
            && (o.Done? <==> usable && db.accounts[op.account].balance == 0 && !openCredit)
            && (o.Done? ==>
                  && |db'.accounts| == |db.accounts| && OnlyAccounts(db, db')
                  && forall a :: 0 <= a < |db.accounts| ==>
                       db'.accounts[a] == if a == op.account then db.accounts[a].(closed := true) else db.accounts[a])
            && (o.Failed? && usable ==>
                  o.error == if db.accounts[op.account].balance != 0 then AccountBalanceMustBeZero
                             else AccountHasActiveCredit)
            && (o.Failed? && !usable ==>
                  o.error == if HasAccount(db.accounts, op.account) && db.accounts[op.account].user == op.user
                             then if db.accounts[op.account].closed then AccountAlreadyClosed else AccountBlocked
                             else AccountNotFound)
  {
    BankRuns.BlockingCreditIsOpenCredit(db, op.account);
  }
}
