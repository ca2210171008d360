/** The rows of the bank's tables and the reads every operation starts from.
    Money is an integer number of cents; an id is the row's position in its append-only table. */
module Tables {
  import opened Basics

  /** NUMERIC(14,2) holds at most 999,999,999,999.99. */
  const MAX_CENTS: int := 99_999_999_999_999

  datatype Account = Account(user: int, balance: int, blocked: bool, closed: bool)

  datatype TxnKind =
    | Deposit | Withdraw | Transfer | CardPayment | CardTransfer
    | CreditPayment | CreditIssue | CreditPrepayment | Penalty
  datatype TxnStatus = TxnPending | TxnCompleted | TxnFailed
  datatype Txn = Txn(
    user: int, from: Option<int>, to: Option<int>, credit: Option<int>,
    amount: int, kind: TxnKind, status: TxnStatus)

  datatype CreditStatus = Active | Overdue | Closed
  datatype Credit = Credit(
    user: int, account: int, principal: int, rate: int, term: int, monthly: int, status: CreditStatus)

  datatype RowStatus = RowPending | RowOverdue | RowPaid
  datatype Row = Row(credit: int, date: int, amount: int, penalty: int, status: RowStatus)

  /** A one-time code, bound to the operation it was issued for. */
  datatype Code = Code(user: int, operation: string, secret: string, created: int, expires: int, used: bool)

  /** mfa_codes: rows can be deleted, ids are never given out twice. */
  datatype CodeTable = CodeTable(rows: map<int, Code>, next: int)

  datatype Db = Db(accounts: seq<Account>, txns: seq<Txn>, credits: seq<Credit>, rows: seq<Row>, codes: CodeTable)

  const EMPTY := Db([], [], [], [], CodeTable(map[], 1))

  datatype PolicyReason =
    | PrincipalLimitExceeded | OverdueCreditExists | ActiveLimitExceeded | TotalPrincipalLimitExceeded | DebtLoadTooHigh

  datatype Error =
    | AccountNotFound | AccountClosed | AccountBlocked | AccountAlreadyClosed
    | AccountBalanceMustBeZero | AccountHasActiveCredit | StatusNotChanged
    | InsufficientFunds | MfaCodeNotFound
    | CreditNotFound | InvalidPrepayment | ScheduleNotFound
    | InvalidAmount | InvalidCreditData | PolicyRejected(reason: PolicyReason)
    | Constraint // the database refused a row: a CHECK constraint or NUMERIC overflow

  datatype PaymentStatus = Skipped | PaidNow | StillOverdue

  datatype Outcome =
    | Failed(error: Error)
    | Done(id: int)
    | Prepaid(txn: int, oldMonthly: int, newMonthly: int, oldTerm: int, newTerm: int, remaining: int, closed: bool)
    | Processed(status: PaymentStatus, amount: int, penalty: int)

  predicate HasAccount(accounts: seq<Account>, id: int) { 0 <= id < |accounts| }

  /** What lockAccount reports: nothing when the user may move money on the account. */
  function LockAccount(accounts: seq<Account>, id: int, user: int): Option<Error> {
    if !HasAccount(accounts, id) || accounts[id].user != user then Some(AccountNotFound)
    else if accounts[id].closed then Some(AccountClosed)
    else if accounts[id].blocked then Some(AccountBlocked)
    else None
  }

  function AddBalance(accounts: seq<Account>, id: int, delta: int): (accounts': seq<Account>)
    requires HasAccount(accounts, id)
  {
    accounts[id := accounts[id].(balance := accounts[id].balance + delta)]
  }

  /** The stored balance, and 0 for an account that does not exist. */
  function Balance(accounts: seq<Account>, id: int): int {
    if HasAccount(accounts, id) then accounts[id].balance else 0
  }

  /** UPDATE ... SET used_at = NOW() WHERE id = $1 AND used_at IS NULL AND expires_at > NOW(). */
  predicate Usable(codes: CodeTable, id: int, now: int) {
    id in codes.rows && !codes.rows[id].used && now < codes.rows[id].expires
  }

  function UseCode(codes: CodeTable, id: int): CodeTable
    requires id in codes.rows
  {
    codes.(rows := codes.rows[id := codes.rows[id].(used := true)])
  }

  /** markMFACodeUsedTx, for operations that carry a code: the table afterwards, or None when the gate refuses. */
  function Consume(codes: CodeTable, code: Option<int>, now: int): Option<CodeTable> {
    if code.None? then Some(codes)
    else if Usable(codes, code.value, now) then Some(UseCode(codes, code.value))
    else None
  }
}
