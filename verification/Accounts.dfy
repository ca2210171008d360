/** Account operations. Each returns the committed tables, or the unchanged ones with the reason it was rolled back. */
module Accounts {
  import opened Basics
  import opened Tables

  function OpenAccount(db: Db, user: int): (Db, Outcome) {
    (db.(accounts := db.accounts + [Account(user, 0, false, false)]), Done(|db.accounts|))
  }

  function SetBlocked(db: Db, id: int, blocked: bool): (Db, Outcome) {
    if !HasAccount(db.accounts, id) then (db, Failed(AccountNotFound))
    else if db.accounts[id].blocked == blocked then (db, Failed(StatusNotChanged))
    else (db.(accounts := db.accounts[id := db.accounts[id].(blocked := blocked)]), Done(id))
  }

  function Deposit(db: Db, user: int, id: int, amount: int): (Db, Outcome) {
    var lock := LockAccount(db.accounts, id, user);
    if lock.Some? then (db, Failed(lock.value))
    else if amount <= 0 || db.accounts[id].balance + amount > MAX_CENTS then (db, Failed(Constraint))
    else
      (db.(accounts := AddBalance(db.accounts, id, amount),
           txns := db.txns + [Txn(user, None, Some(id), None, amount, TxnKind.Deposit, TxnCompleted)]),
       Done(|db.txns|))
  }

  /** Withdraw and CardPayment, with or without a one-time code. */
  function Spend(db: Db, user: int, id: int, amount: int, kind: TxnKind, code: Option<int>, now: int): (Db, Outcome) {
    var lock := LockAccount(db.accounts, id, user);
    var codes := Consume(db.codes, code, now);
    if lock.Some? then (db, Failed(lock.value))
    else if codes.None? then (db, Failed(MfaCodeNotFound))
    else if db.accounts[id].balance < amount then (db, Failed(InsufficientFunds))
    else if amount <= 0 then (db, Failed(Constraint))
    else
      (db.(accounts := AddBalance(db.accounts, id, -amount),
           txns := db.txns + [Txn(user, Some(id), None, None, amount, kind, TxnCompleted)],
           codes := codes.value),
       Done(|db.txns|))
  }

  /** What lockTransferAccounts reports; only the source has to belong to the user. */
  function LockTransfer(accounts: seq<Account>, user: int, from: int, to: int): Option<Error> {
    if !HasAccount(accounts, from) || !HasAccount(accounts, to) || accounts[from].user != user
    then Some(AccountNotFound)
    else if accounts[from].closed || accounts[to].closed then Some(AccountClosed)
    else if accounts[from].blocked || accounts[to].blocked then Some(AccountBlocked)
    else None
  }

  function Move(accounts: seq<Account>, from: int, to: int, amount: int): seq<Account>
    requires HasAccount(accounts, from) && HasAccount(accounts, to)
  {
    AddBalance(AddBalance(accounts, from, -amount), to, amount)
  }

  function Transfer(db: Db, user: int, from: int, to: int, amount: int, code: Option<int>, now: int): (Db, Outcome) {
    var lock := LockTransfer(db.accounts, user, from, to);
    var codes := Consume(db.codes, code, now);
    if lock.Some? then (db, Failed(lock.value))
    else if codes.None? then (db, Failed(MfaCodeNotFound))
    else if db.accounts[from].balance < amount then (db, Failed(InsufficientFunds))
    else if amount <= 0 || Move(db.accounts, from, to, amount)[to].balance > MAX_CENTS then (db, Failed(Constraint))
    else
      (db.(accounts := Move(db.accounts, from, to, amount),
           txns := db.txns + [Txn(user, Some(from), Some(to), None, amount, TxnKind.Transfer, TxnCompleted)],
           codes := codes.value),
       Done(|db.txns|))
  }

  /** accountHasBlockingCredit: an open credit, or one with an unpaid row. */
  predicate HasBlockingCredit(db: Db, id: int) {
    exists c :: 0 <= c < |db.credits| && db.credits[c].account == id &&
      (db.credits[c].status != CreditStatus.Closed ||
       exists i :: 0 <= i < |db.rows| && db.rows[i].credit == c && db.rows[i].status != RowPaid)
  }

  function Close(db: Db, user: int, id: int): (Db, Outcome) {
    if !HasAccount(db.accounts, id) || db.accounts[id].user != user then (db, Failed(AccountNotFound))
    else if db.accounts[id].closed then (db, Failed(AccountAlreadyClosed))
    else if db.accounts[id].blocked then (db, Failed(AccountBlocked))
    else if db.accounts[id].balance != 0 then (db, Failed(AccountBalanceMustBeZero))
    else if HasBlockingCredit(db, id) then (db, Failed(AccountHasActiveCredit))
    else (db.(accounts := db.accounts[id := db.accounts[id].(closed := true)]), Done(id))
  }
}
