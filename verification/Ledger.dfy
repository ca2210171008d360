/** The transaction log and the account statistics folded from it. */
module Ledger {
  import opened Basics
  import opened Tables

  datatype Direction = Income | Expense | Neutral

  /** The CASE expression of the account statistics query. */
  function DirectionOf(t: Txn, account: int): Direction {
    if t.to == Some(account) && t.from != Some(account) then Income
    else if t.from == Some(account) && t.to != Some(account) then Expense
    else Neutral
  }

  function IncomeOf(account: int): Txn -> int {
    (t: Txn) => if DirectionOf(t, account) == Income && t.status == TxnCompleted then t.amount else 0
  }

  function ExpenseOf(account: int): Txn -> int {
    (t: Txn) => if DirectionOf(t, account) == Expense && t.status == TxnCompleted then t.amount else 0
  }

  /** What one transaction moves into the account, negative when it takes money out. */
  function EffectOn(account: int): Txn -> int {
    (t: Txn) => IncomeOf(account)(t) - ExpenseOf(account)(t)
  }

  function EffectOfKind(account: int, kind: TxnKind): Txn -> int {
    (t: Txn) => if t.kind == kind then EffectOn(account)(t) else 0
  }

  /** net_amount of the summary query. */
  function Net(txns: seq<Txn>, account: int): int {
    Sum(txns, IncomeOf(account)) - Sum(txns, ExpenseOf(account))
  }

  lemma NetAppend(txns: seq<Txn>, t: Txn, account: int)
    ensures Net(txns + [t], account) == Net(txns, account) + EffectOn(account)(t)
  {
    SumAppend(txns, t, IncomeOf(account));
    SumAppend(txns, t, ExpenseOf(account));
  }

  const KINDS: seq<TxnKind> := [
    Deposit, Withdraw, Transfer, CardPayment, CardTransfer, CreditPayment, CreditIssue, CreditPrepayment, Penalty]

  function NetOfKind(txns: seq<Txn>, account: int): TxnKind -> int {
    (kind: TxnKind) => Sum(txns, EffectOfKind(account, kind))
  }

  /** The per-type breakdown adds up to the summary's net amount. */
  lemma {:induction false} BreakdownAddsUp(txns: seq<Txn>, account: int)
    ensures Sum(KINDS, NetOfKind(txns, account)) == Net(txns, account)
  {
    if txns == [] {
      SumZero(KINDS, NetOfKind([], account));
    } else {
      hide Net, Sum;
      var front, t := txns[..|txns| - 1], txns[|txns| - 1];
      BreakdownAddsUp(front, account);
      assert txns == front + [t];
      NetAppend(front, t, account);
      BreakdownAppend(front, t, account);
    }
  }

  lemma BreakdownAppend(txns: seq<Txn>, t: Txn, account: int)
    ensures Sum(KINDS, NetOfKind(txns + [t], account)) == Sum(KINDS, NetOfKind(txns, account)) + EffectOn(account)(t)
  {
    hide Sum, EffectOn;
    var own := (kind: TxnKind) => EffectOfKind(account, kind)(t);
    forall kind ensures NetOfKind(txns + [t], account)(kind) == NetOfKind(txns, account)(kind) + own(kind) {
      SumAppend(txns, t, EffectOfKind(account, kind));
    }
    SumAdd(KINDS, NetOfKind(txns, account), own, NetOfKind(txns + [t], account));
    AllKindsListed(t.kind);
    OneKindMatches(KINDS, own, EffectOn(account)(t), t.kind);
  }

  lemma AllKindsListed(kind: TxnKind)
    ensures kind in KINDS
  {
    assert KINDS[0] == Deposit && KINDS[1] == Withdraw && KINDS[2] == Transfer && KINDS[3] == CardPayment;
    assert KINDS[4] == CardTransfer && KINDS[5] == CreditPayment && KINDS[6] == CreditIssue;
    assert KINDS[7] == CreditPrepayment && KINDS[8] == Penalty;
  }

  lemma {:induction false} OneKindMatches(kinds: seq<TxnKind>, own: TxnKind -> int, x: int, kind: TxnKind)
    requires forall i, j :: 0 <= i < j < |kinds| ==> kinds[i] != kinds[j]
    requires forall k :: own(k) == if k == kind then x else 0
    ensures Sum(kinds, own) == if kind in kinds then x else 0
  {
    if kinds != [] {
      OneKindMatches(kinds[..|kinds| - 1], own, x, kind);
      assert kinds == kinds[..|kinds| - 1] + [kinds[|kinds| - 1]];
    }
  }

  /** In every account the stored balance is the one the statistics query recomputes, and it is not negative. */
  ghost predicate Agrees(accounts: seq<Account>, txns: seq<Txn>) {
    forall a: int :: 0 <= Balance(accounts, a) == Net(txns, a)
  }

  /** Logging a transaction and moving exactly its effect on every account keeps the agreement. */
  lemma PostKeepsAgreement(accounts: seq<Account>, accounts': seq<Account>, txns: seq<Txn>, t: Txn)
    requires Agrees(accounts, txns)
    requires forall a: int :: Balance(accounts', a) == Balance(accounts, a) + EffectOn(a)(t)
    requires forall a: int :: 0 <= Balance(accounts', a)
    ensures Agrees(accounts', txns + [t])
  {
    forall a: int ensures Balance(accounts', a) == Net(txns + [t], a) {
      NetAppend(txns, t, a);
    }
  }

  /** What one more transaction adds to the summary: its amount to the income of the account it comes into from
      elsewhere and to the expense of the one it leaves for elsewhere, and nothing before it is completed. */
  lemma SummaryOfOneMore(txns: seq<Txn>, t: Txn, account: int)
    ensures var into, out := t.to == Some(account), t.from == Some(account);
            && Sum(txns + [t], IncomeOf(account))
               == Sum(txns, IncomeOf(account)) + (if t.status == TxnCompleted && into && !out then t.amount else 0)
            && Sum(txns + [t], ExpenseOf(account))
               == Sum(txns, ExpenseOf(account)) + (if t.status == TxnCompleted && out && !into then t.amount else 0)
    ensures Sum([], IncomeOf(account)) == 0 == Sum([], ExpenseOf(account))
  {
    SumAppend(txns, t, IncomeOf(account));
    SumAppend(txns, t, ExpenseOf(account));
  }
}
