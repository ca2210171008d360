/** The repositories themselves: tables held as fields, changed in place inside a transaction and rolled back on error.
    Every method is proved to end in exactly the state and outcome its step of the bank machine specifies. */
module BankStore {
  import opened Basics
  import opened Tables
  import opened Prepayment
  import opened Schedule
  import Accounts
  import Credits
  import Policy
  import Scheduler

  /** A pending schedule row as Prepay reads it. */
  datatype Pending = Pending(id: int, amount: int)

  ghost function Ids(payments: seq<Pending>): seq<int> {
    seq(|payments|, i requires 0 <= i < |payments| => payments[i].id)
  }

  ghost function Amounts(payments: seq<Pending>): seq<int> {
    seq(|payments|, i requires 0 <= i < |payments| => payments[i].amount)
  }

  /** The payments Prepay holds are the credit's pending rows. */
  ghost predicate Reads(payments: seq<Pending>, rows: seq<Row>, c: int) {
    && Ids(payments) == PendingIds(rows, c)
    && Amounts(payments) == PendingAmounts(rows, c)
  }

  /** sumPendingPaymentCents */
  method SumPending(payments: array<Pending>) returns (total: int)
    ensures total == Total(Amounts(payments[..]))
  {
    total := 0;
    for i := 0 to payments.Length
      invariant total == Total(Amounts(payments[..i]))
    {
      total := total + payments[i].amount;
      assert Amounts(payments[..i + 1]) == Amounts(payments[..i]) + [payments[i].amount];
      SumAppend(Amounts(payments[..i]), payments[i].amount, Cents);
    }
    assert payments[..payments.Length] == payments[..];
  }

  /** filterPositivePendingPayments */
  method FilterPositive(payments: array<Pending>) returns (result: seq<Pending>)
    ensures Amounts(result) == Positive(Amounts(payments[..]))
  {
    result := [];
    for i := 0 to payments.Length
      invariant Amounts(result) == Positive(Amounts(payments[..i]))
    {
      ghost var before := Amounts(payments[..i]);
      assert Amounts(payments[..i + 1]) == before + [payments[i].amount];
      assert (before + [payments[i].amount])[..i] == before;
      if payments[i].amount > 0 {
        assert Amounts(result + [payments[i]]) == Amounts(result) + [payments[i].amount];
        result := result + [payments[i]];
      }
    }
    assert payments[..payments.Length] == payments[..];
  }

  /** A table rewritten row by row is the write-back. */
  lemma WrittenBackIsWriteBack(rows: seq<Row>, rows': seq<Row>, ids: seq<int>, news: seq<int>)
    requires |ids| == |news|
    requires forall k :: 0 <= k < |ids| ==> 0 <= ids[k] < |rows|
    requires forall k, l :: 0 <= k < l < |ids| ==> ids[k] < ids[l]
    requires WrittenBack(rows, rows', ids, news)
    ensures rows' == WriteBack(rows, ids, news)
  {
    WriteBackRowByRow(rows, ids, news);
    var rows'' := WriteBack(rows, ids, news);
    forall i | 0 <= i < |rows| ensures rows'[i] == rows''[i] {
      if i in ids {
        var k :| 0 <= k < |ids| && ids[k] == i;
      }
    }
  }

  /** Payment k of the backward loop: left[k + 1] remains to be taken off before it, left[k] after it. */
  ghost predicate TakesOff(amounts: seq<int>, news: seq<int>, left: seq<int>, k: int)
    requires 0 <= k < |amounts| == |news| < |left|
  {
    && left[k] == (if left[k + 1] >= amounts[k] then left[k + 1] - amounts[k] else 0)
    && news[k] == (if left[k + 1] <= 0 then amounts[k]
                   else if left[k + 1] >= amounts[k] then 0 else amounts[k] - left[k + 1])
  }

  ghost predicate Remainders(amounts: seq<int>, news: seq<int>, left: seq<int>) {
    && |left| == |amounts| + 1 == |news| + 1
    && forall k :: 0 <= k < |amounts| ==> TakesOff(amounts, news, left, k)
  }

  /** The plan's amounts are the ones the loop computes one by one. */
  lemma {:induction false} ReduceTermStepByStep(amounts: seq<int>, prepayment: int) returns (left: seq<int>)
    requires AllPositive(amounts) && 0 <= prepayment
    ensures Remainders(amounts, ReduceTerm(amounts, prepayment), left)
    ensures left[|amounts|] == prepayment
  {
    if amounts == [] {
      left := [prepayment];
    } else {
      var last := |amounts| - 1;
      var front := amounts[..last];
      var rest := if prepayment >= amounts[last] then prepayment - amounts[last] else 0;
      var before := ReduceTermStepByStep(front, rest);
      left := before + [prepayment];
      assert ReduceTerm(front, 0) == front;
      var news := ReduceTerm(amounts, prepayment);
      forall k | 0 <= k < |amounts| ensures TakesOff(amounts, news, left, k) {
        if k < last {
          assert TakesOff(front, ReduceTerm(front, rest), before, k);
        }
      }
    }
  }

  /** When nothing remains, the payments not reached keep their amounts. */
  lemma {:induction false} NothingLeftToTake(amounts: seq<int>, news: seq<int>, left: seq<int>, reached: nat)
    requires Remainders(amounts, news, left) && AllPositive(amounts)
    requires reached <= |amounts| && left[reached] == 0
    ensures forall k :: 0 <= k < reached ==> news[k] == amounts[k]
  {
    if reached > 0 {
      assert TakesOff(amounts, news, left, reached - 1);
      NothingLeftToTake(amounts, news, left, reached - 1);
    }
  }

  ghost predicate DistinctPending(rows: seq<Row>, ids: seq<int>) {
    && (forall k :: 0 <= k < |ids| ==> 0 <= ids[k] < |rows| && rows[ids[k]].status == RowPending)
    && (forall k, l :: 0 <= k < l < |ids| ==> ids[k] < ids[l])
  }

  lemma ReadsDistinct(payments: seq<Pending>, rows: seq<Row>, c: int)
    requires Reads(payments, rows, c)
    ensures DistinctPending(rows, Ids(payments))
    ensures forall k :: 0 <= k < |payments| ==> rows[Ids(payments)[k]].amount == Amounts(payments)[k]
  {
    assert Amounts(payments) == AmountsAt(rows, Ids(payments));
  }

  /** Rows written in id order: the next one is still untouched. */
  lemma WriteBackNext(rows: seq<Row>, ids: seq<int>, news: seq<int>, k: nat)
    requires DistinctPending(rows, ids) && k < |ids| == |news|
    ensures var rows' := WriteBack(rows, ids[..k], news[..k]);
            && rows'[ids[k]] == rows[ids[k]]
            && WriteBack(rows, ids[..k + 1], news[..k + 1]) == rows'[ids[k] := Rewrite(rows[ids[k]], news[k])]
  {
    WriteBackUntouched(rows, ids[..k], news[..k], ids[k]);
    assert ids[..k + 1][..k] == ids[..k] && news[..k + 1][..k] == news[..k];
  }

  lemma WriteBackLast(rows: seq<Row>, ids: seq<int>, news: seq<int>, id: int, amount: int)
    requires |ids| == |news| && 0 <= id < |rows|
    requires forall k :: 0 <= k < |ids| ==> 0 <= ids[k] < |rows|
    ensures WriteBack(rows, ids + [id], news + [amount]) == WriteBack(rows, ids, news)[id := Rewrite(rows[id], amount)]
    ensures WriteBack(rows, [], []) == rows
  {
    assert (ids + [id])[..|ids|] == ids && (news + [amount])[..|news|] == news;
  }

  lemma {:induction false} WriteBackFront(rows: seq<Row>, ids: seq<int>, news: seq<int>, id: int, amount: int)
    requires DistinctPending(rows, ids) && |ids| == |news| && 0 <= id < |rows|
    requires forall k :: 0 <= k < |ids| ==> id < ids[k]
    ensures WriteBack(rows, [id] + ids, [amount] + news)
         == WriteBack(rows, ids, news)[id := Rewrite(rows[id], amount)]
  {
    hide WriteBack;
    var last := |ids| - 1;
    if ids == [] {
      WriteBackLast(rows, [], [], id, amount);
      assert [id] + ids == [] + [id] && [amount] + news == [] + [amount];
    } else {
      WriteBackFront(rows, ids[..last], news[..last], id, amount);
      WriteBackLast(rows, ids[..last], news[..last], ids[last], news[last]);
      WriteBackLast(rows, [id] + ids[..last], [amount] + news[..last], ids[last], news[last]);
      assert [id] + ids == [id] + ids[..last] + [ids[last]];
      assert [amount] + news == [amount] + news[..last] + [news[last]];
      assert ids == ids[..last] + [ids[last]] && news == news[..last] + [news[last]];
    }
  }

  /** Rows written from the last one back. */
  lemma WriteBackPrevious(rows: seq<Row>, ids: seq<int>, news: seq<int>, i: nat)
    requires DistinctPending(rows, ids) && i < |ids| == |news|
    ensures var rows' := WriteBack(rows, ids[i + 1..], news[i + 1..]);
            && rows'[ids[i]] == rows[ids[i]]
            && WriteBack(rows, ids[i..], news[i..]) == rows'[ids[i] := Rewrite(rows[ids[i]], news[i])]
  {
    WriteBackUntouched(rows, ids[i + 1..], news[i + 1..], ids[i]);
    WriteBackFront(rows, ids[i + 1..], news[i + 1..], ids[i], news[i]);
    assert ids[i..] == [ids[i]] + ids[i + 1..] && news[i..] == [news[i]] + news[i + 1..];
  }

  /** Rows whose amount stays need no write. */
  lemma {:induction false} WriteBackSkips(rows: seq<Row>, ids: seq<int>, news: seq<int>, i: nat)
    requires DistinctPending(rows, ids) && i <= |ids| == |news|
    requires forall k :: 0 <= k < i ==> news[k] == rows[ids[k]].amount != 0
    ensures WriteBack(rows, ids[i..], news[i..]) == WriteBack(rows, ids, news)
  {
    if i > 0 {
      WriteBackPrevious(rows, ids, news, i - 1);
      WriteBackSkips(rows, ids, news, i - 1);
    } else {
      assert ids[0..] == ids && news[0..] == news;
    }
  }

  lemma NothingPending(c: int)
    ensures Reads([], [], c)
  {
  }

  /** What row i adds to the pending rows of the rows before it. */
  lemma OneRowMore(rows: seq<Row>, i: nat, c: int)
    requires i < |rows|
    ensures PendingIds(rows[..i + 1], c) == PendingIds(rows[..i], c) + if IsPending(rows[i], c) then [i] else []
    ensures PendingAmounts(rows[..i + 1], c) ==
            PendingAmounts(rows[..i], c) + if IsPending(rows[i], c) then [rows[i].amount] else []
  {
    assert rows[..i + 1][..i] == rows[..i];
    PendingAmountsSnoc(rows[..i + 1], c);
  }

  /** The CHECK constraint on schedule amounts. */
  ghost predicate AmountsChecked(rows: seq<Row>) {
    forall i :: 0 <= i < |rows| ==> 0 < rows[i].amount
  }

  lemma PendingChecked(rows: seq<Row>, c: int)
    requires AmountsChecked(rows)
    ensures AllPositive(PendingAmounts(rows, c))
  {
    var ids := PendingIds(rows, c);
    assert forall k :: 0 <= k < |ids| ==> PendingAmounts(rows, c)[k] == rows[ids[k]].amount;
  }

  class Store {
    var accounts: seq<Account>
    var txns: seq<Txn>
    var credits: seq<Credit>
    var rows: seq<Row>
    var codes: CodeTable

    function Contents(): Db
      reads this
    {
      Db(accounts, txns, credits, rows, codes)
    }

    constructor ()
      ensures Contents() == EMPTY
    {
      accounts, txns, credits, rows, codes := [], [], [], [], CodeTable(map[], 1);
    }

    /** rollbackTx */
    method Rollback(saved: Db)
      modifies this
      ensures Contents() == saved
    {
      accounts, txns, credits, rows, codes := saved.accounts, saved.txns, saved.credits, saved.rows, saved.codes;
    }

    /** withdrawAccountBalance: false stands for the no-row answer, insufficient funds. */
    method WithdrawBalance(id: int, amount: int) returns (ok: bool)
      modifies this`accounts
      ensures ok <==> HasAccount(old(accounts), id) && amount <= old(accounts)[id].balance
                        && !old(accounts)[id].closed && !old(accounts)[id].blocked
      ensures accounts == if ok then AddBalance(old(accounts), id, -amount) else old(accounts)
    {
      ok := HasAccount(accounts, id) && amount <= accounts[id].balance && !accounts[id].closed && !accounts[id].blocked;
      if ok {
        accounts := AddBalance(accounts, id, -amount);
      }
    }

    /** updateAccountBalance with "+": false when the row is not open or the column would overflow. */
    method AddToBalance(id: int, amount: int) returns (ok: bool)
      modifies this`accounts
      ensures ok <==> HasAccount(old(accounts), id) && !old(accounts)[id].closed && !old(accounts)[id].blocked
                        && old(accounts)[id].balance + amount <= MAX_CENTS
      ensures accounts == if ok then AddBalance(old(accounts), id, amount) else old(accounts)
    {
      ok := HasAccount(accounts, id) && !accounts[id].closed && !accounts[id].blocked
            && accounts[id].balance + amount <= MAX_CENTS;
      if ok {
        accounts := AddBalance(accounts, id, amount);
      }
    }

    /** createTransaction: the amount CHECK may refuse the row. */
    method Log(t: Txn) returns (ok: bool)
      modifies this`txns
      ensures ok <==> 0 < t.amount
      ensures txns == if ok then old(txns) + [t] else old(txns)
    {
      ok := 0 < t.amount;
      if ok {
        txns := txns + [t];
      }
    }

    /** markMFACodeUsedTx: false when no row was affected. */
    method MarkCodeUsed(code: Option<int>, now: int) returns (ok: bool)
      modifies this`codes
      ensures ok <==> Consume(old(codes), code, now).Some?
      ensures codes == if ok then Consume(old(codes), code, now).value else old(codes)
    {
      ok := code.None? || Usable(codes, code.value, now);
      if ok && code.Some? {
        codes := UseCode(codes, code.value);
      }
    }

    method OpenAccount(user: int) returns (outcome: Outcome)
      modifies this`accounts
      ensures (Contents(), outcome) == Accounts.OpenAccount(old(Contents()), user)
    {
      accounts := accounts + [Account(user, 0, false, false)];
      outcome := Done(|accounts| - 1);
    }

    method SetBlocked(id: int, blocked: bool) returns (outcome: Outcome)
      modifies this`accounts
      ensures (Contents(), outcome) == Accounts.SetBlocked(old(Contents()), id, blocked)
    {
      if !HasAccount(accounts, id) {
        return Failed(AccountNotFound);
      }
      if accounts[id].blocked == blocked {
        return Failed(StatusNotChanged);
      }
      accounts := accounts[id := accounts[id].(blocked := blocked)];
      outcome := Done(id);
    }

    method Deposit(user: int, id: int, amount: int) returns (outcome: Outcome)
      modifies this
      ensures (Contents(), outcome) == Accounts.Deposit(old(Contents()), user, id, amount)
    {
      var saved := Contents();
      var lock := LockAccount(accounts, id, user);
      if lock.Some? {
        return Failed(lock.value);
      }
      var ok := AddToBalance(id, amount);
      if ok {
        ok := Log(Txn(user, None, Some(id), None, amount, TxnKind.Deposit, TxnCompleted));
      }
      if !ok {
        Rollback(saved);
        return Failed(Constraint);
      }
      outcome := Done(|saved.txns|);
    }

    /** Withdraw, WithdrawWithMFA, CardPayment and CardPaymentWithMFA. */
    method Spend(user: int, id: int, amount: int, kind: TxnKind, code: Option<int>, now: int) returns (outcome: Outcome)
      modifies this
      ensures (Contents(), outcome) == Accounts.Spend(old(Contents()), user, id, amount, kind, code, now)
    {
      var saved := Contents();
      var lock := LockAccount(accounts, id, user);
      if lock.Some? {
        return Failed(lock.value);
      }
      var ok := MarkCodeUsed(code, now);
      if !ok {
        return Failed(MfaCodeNotFound);
      }
      ok := WithdrawBalance(id, amount);
      if !ok {
        Rollback(saved);
        return Failed(InsufficientFunds);
      }
      ok := Log(Txn(user, Some(id), None, None, amount, kind, TxnCompleted));
      if !ok {
        Rollback(saved);
        return Failed(Constraint);
      }
      outcome := Done(|saved.txns|);
    }

    /** lockTransferAccounts: scans the rows of both ids in ascending order, raising flags. */
    method LockTransferAccounts(user: int, from: int, to: int) returns (error: Option<Error>)
      ensures error == Accounts.LockTransfer(accounts, user, from, to)
    {
      var ids := if from == to then [from] else if from < to then [from, to] else [to, from];
      var foundFrom, foundTo, ownedByUser, anyBlocked, anyClosed := false, false, false, false, false;
      for k := 0 to |ids|
        invariant foundFrom <==> from in ids[..k] && HasAccount(accounts, from)
        invariant foundTo <==> to in ids[..k] && HasAccount(accounts, to)
        invariant ownedByUser <==> foundFrom && accounts[from].user == user
        invariant anyBlocked <==> exists i :: i in ids[..k] && HasAccount(accounts, i) && accounts[i].blocked
        invariant anyClosed <==> exists i :: i in ids[..k] && HasAccount(accounts, i) && accounts[i].closed
      {
        var id := ids[k];
        assert ids[..k + 1] == ids[..k] + [id];
        if HasAccount(accounts, id) {
          if accounts[id].closed { anyClosed := true; }
          if accounts[id].blocked { anyBlocked := true; }
          if id == from { foundFrom, ownedByUser := true, accounts[id].user == user; }
          if id == to { foundTo := true; }
        }
      }
      assert ids[..|ids|] == ids && from in ids && to in ids;
      if !foundFrom || !foundTo || !ownedByUser {
        return Some(AccountNotFound);
      }
      if anyClosed {
        return Some(AccountClosed);
      }
      if anyBlocked {
        return Some(AccountBlocked);
      }
      return None;
    }

    /** Transfer, TransferWithMFA and TransferByCardWithMFA. */
    method Transfer(user: int, from: int, to: int, amount: int, code: Option<int>, now: int) returns (outcome: Outcome)
      modifies this
      ensures (Contents(), outcome) == Accounts.Transfer(old(Contents()), user, from, to, amount, code, now)
    {
      var saved := Contents();
      var lock := LockTransferAccounts(user, from, to);
      if lock.Some? {
        return Failed(lock.value);
      }
      var ok := MarkCodeUsed(code, now);
      if !ok {
        return Failed(MfaCodeNotFound);
      }
      ok := WithdrawBalance(from, amount);
      if !ok {
        Rollback(saved);
        return Failed(InsufficientFunds);
      }
      ok := AddToBalance(to, amount);
      if ok {
        ok := Log(Txn(user, Some(from), Some(to), None, amount, TxnKind.Transfer, TxnCompleted));
      }
      if !ok {
        Rollback(saved);
        return Failed(Constraint);
      }
      outcome := Done(|saved.txns|);
    }

    method Close(user: int, id: int) returns (outcome: Outcome)
      modifies this
      ensures (Contents(), outcome) == Accounts.Close(old(Contents()), user, id)
    {
      if !HasAccount(accounts, id) || accounts[id].user != user {
        return Failed(AccountNotFound);
      }
      if accounts[id].closed {
        return Failed(AccountAlreadyClosed);
      }
      if accounts[id].blocked {
        return Failed(AccountBlocked);
      }
      if accounts[id].balance != 0 {
        return Failed(AccountBalanceMustBeZero);
      }
      if Accounts.HasBlockingCredit(Contents(), id) {
        return Failed(AccountHasActiveCredit);
      }
      accounts := accounts[id := accounts[id].(closed := true)];
      outcome := Done(id);
    }

    /** CreateWithScheduleAndIssue behind the service's checks. */
    method CreateCredit(config: Policy.Config, income: int, req: Credits.Request, mfa: int, now: int)
      returns (outcome: Outcome)
      modifies this
      ensures (Contents(), outcome) == Credits.Create(old(Contents()), config, income, req, mfa, now)
    {
      if !(0 < |req.dates| <= Credits.MAX_TERM) {
        return Failed(InvalidCreditData);
      }
      var saved := Contents();
      var lock := LockAccount(accounts, req.account, req.user);
      if lock.Some? {
        return Failed(lock.value);
      }
      var summary := Policy.RiskSummary(credits, req.user, income);
      var policy := Policy.PolicyError(config, summary, req.principal, req.monthly);
      if policy.Some? {
        return Failed(policy.value);
      }
      var ok := MarkCodeUsed(Some(mfa), now);
      if !ok {
        return Failed(MfaCodeNotFound);
      }
      var c := |credits|;
      ok := req.principal >= 0 && 0 <= req.rate <= 99_999 && 0 < req.monthly <= MAX_CENTS;
      if ok {
        credits := credits + [Credit(req.user, req.account, req.principal, req.rate, |req.dates|, req.monthly, Active)];
        InsertSchedule(c, req);
        ok := AddToBalance(req.account, req.principal);
      }
      if ok {
        ok := Log(Txn(req.user, None, Some(req.account), Some(c), req.principal, CreditIssue, TxnCompleted));
      }
      if !ok {
        Rollback(saved);
        return Failed(Constraint);
      }
      outcome := Done(c);
    }

    /** The loop inserting one pending row per payment date. */
    method InsertSchedule(c: int, req: Credits.Request)
      modifies this`rows
      ensures rows == old(rows) + Credits.NewRows(c, req)
    {
      for i := 0 to |req.dates|
        invariant rows == old(rows) + Credits.NewRows(c, req)[..i]
      {
        rows := rows + [Row(c, req.dates[i], req.monthly, 0, RowPending)];
      }
    }

    /** findPendingCreditPaymentsForUpdate */
    method FindPending(c: int) returns (payments: array<Pending>)
      ensures fresh(payments)
      ensures Reads(payments[..], rows, c)
    {
      hide Sum, WriteBack, PendingIds, PendingAmounts;
      var found: seq<Pending> := [];
      NothingPending(c);
      for i := 0 to |rows|
        invariant Reads(found, rows[..i], c)
      {
        OneRowMore(rows, i, c);
        if IsPending(rows[i], c) {
          ghost var was := found;
          found := found + [Pending(i, rows[i].amount)];
          assert Ids(found) == Ids(was) + [i];
          assert Amounts(found) == Amounts(was) + [rows[i].amount];
        }
      }
      assert rows[..|rows|] == rows;
      payments := new Pending[|found|](i requires 0 <= i < |found| => found[i]);
      assert payments[..] == found;
    }

    /** applyReduceTermPrepayment */
    method ApplyReduceTerm(payments: array<Pending>, prepayment: int, ghost c: int) returns (monthly: int, term: int)
      requires Reads(payments[..], rows, c) && AllPositive(Amounts(payments[..]))
      requires 0 < prepayment < Total(Amounts(payments[..]))
      modifies this`rows, payments
      ensures var news := ReduceTerm(old(PendingAmounts(rows, c)), prepayment);
              && rows == WriteBack(old(rows), old(PendingIds(rows, c)), news)
              && Positive(news) != [] && monthly == Positive(news)[0] && term == |Positive(news)|
    {
      ghost var ids, amounts := Ids(payments[..]), Amounts(payments[..]);
      ReadsDistinct(payments[..], rows, c);
      ReduceTermIsExactAndMinimal(amounts, prepayment);
      TakeOffFromBack(payments, prepayment, ids, amounts);
      assert Amounts(payments[..]) == ReduceTerm(amounts, prepayment);
      var left := FilterPositive(payments);
      monthly, term := left[0].amount, |left|;
    }

    /** The backward loop of applyReduceTermPrepayment, paying rows off whole or lowering the last one it reaches. */
    method TakeOffFromBack(payments: array<Pending>, prepayment: int, ghost ids: seq<int>, ghost amounts: seq<int>)
      requires |ids| == |amounts| == payments.Length && 0 < prepayment
      requires forall k :: 0 <= k < |ids| ==> payments[k].id == ids[k] && payments[k].amount == amounts[k] > 0
      requires DistinctPending(rows, ids)
      requires forall k :: 0 <= k < |ids| ==> rows[ids[k]].amount == amounts[k]
      modifies this`rows, payments
      ensures rows == WriteBack(old(rows), ids, ReduceTerm(amounts, prepayment))
      ensures forall k :: 0 <= k < payments.Length ==> payments[k].amount == ReduceTerm(amounts, prepayment)[k]
    {
      hide WriteBack, ReduceTerm;
      var remaining := prepayment;
      var reached := payments.Length; // the source's index i is reached - 1
      ghost var rows0, news := rows, ReduceTerm(amounts, prepayment);
      ghost var left := ReduceTermStepByStep(amounts, prepayment);
      while reached > 0 && remaining > 0
        invariant 0 <= reached <= payments.Length && 0 <= remaining == left[reached]
        invariant forall k :: 0 <= k < |ids| ==> payments[k].id == ids[k]
        invariant forall k :: 0 <= k < |ids| ==> payments[k].amount == if k < reached then amounts[k] else news[k]
        invariant rows == WriteBack(rows0, ids[reached..], news[reached..])
      {
        var i := reached - 1;
        WriteBackPrevious(rows0, ids, news, i);
        assert TakesOff(amounts, news, left, i);
        var newAmount;
        newAmount, remaining := TakeOff(payments[i], remaining);
        payments[i] := payments[i].(amount := newAmount);
        reached := i;
      }
      if reached > 0 {
        NothingLeftToTake(amounts, news, left, reached);
      }
      WriteBackSkips(rows0, ids, news, reached);
    }

    /** One turn of that loop on the row of one payment. */
    method TakeOff(payment: Pending, remaining: int) returns (newAmount: int, left: int)
      requires 0 <= payment.id < |rows| && rows[payment.id].status == RowPending
      requires 0 < payment.amount && 0 < remaining
      modifies this`rows
      ensures newAmount == if remaining >= payment.amount then 0 else payment.amount - remaining
      ensures left == if remaining >= payment.amount then remaining - payment.amount else 0
      ensures rows == old(rows)[payment.id := Rewrite(old(rows)[payment.id], newAmount)]
    {
      if remaining >= payment.amount {
        PayOffRow(payment.id);
        newAmount, left := 0, remaining - payment.amount;
      } else {
        newAmount, left := payment.amount - remaining, 0;
        assert newAmount > 0; // the invalid-prepayment branch on newAmount <= 0 is unreachable
        SetRowAmount(payment.id, newAmount);
      }
    }

    /** markPaymentSchedulePaidByPrepayment: only a pending row is affected. */
    method PayOffRow(id: int)
      requires 0 <= id < |rows|
      modifies this`rows
      ensures rows == old(rows)[id :=
        if old(rows)[id].status == RowPending then old(rows)[id].(status := RowPaid) else old(rows)[id]]
    {
      if rows[id].status == RowPending {
        rows := rows[id := rows[id].(status := RowPaid)];
      }
    }

    /** updatePaymentScheduleAmount: only a pending row is affected. */
    method SetRowAmount(id: int, amount: int)
      requires 0 <= id < |rows|
      modifies this`rows
      ensures rows == old(rows)[id :=
        if old(rows)[id].status == RowPending then old(rows)[id].(amount := amount) else old(rows)[id]]
    {
      if rows[id].status == RowPending {
        rows := rows[id := rows[id].(amount := amount)];
      }
    }

    /** applyReducePaymentPrepayment: None stands for the invalid-prepayment error, which leaves the rows alone. */
    method ApplyReducePayment(payments: array<Pending>, debt: int, ghost c: int) returns (plan: Option<(int, int)>)
      requires Reads(payments[..], rows, c)
      modifies this`rows
      ensures var n := |old(PendingIds(rows, c))|;
              if n == 0 || debt <= 0 || debt < n then plan.None? && rows == old(rows)
              else && plan == Some((EvenSplit(debt, n)[0], n))
                   && rows == WriteBack(old(rows), old(PendingIds(rows, c)), EvenSplit(debt, n))
    {
      var n := payments.Length;
      assert n == |Ids(payments[..])|;
      if n == 0 || debt <= 0 {
        return None;
      }
      if debt < n {
        return None;
      }
      var monthly := SplitEvenly(payments, debt, Ids(payments[..]));
      plan := Some((monthly, n));
    }

    /** The loop of applyReducePaymentPrepayment. */
    method SplitEvenly(payments: array<Pending>, debt: int, ghost ids: seq<int>) returns (monthly: int)
      requires |ids| == payments.Length && 0 < payments.Length <= debt
      requires forall k :: 0 <= k < |ids| ==> payments[k].id == ids[k]
      requires DistinctPending(rows, ids)
      modifies this`rows
      ensures rows == WriteBack(old(rows), ids, EvenSplit(debt, |ids|))
      ensures monthly == EvenSplit(debt, |ids|)[0]
    {
      var n := payments.Length;
      var base, extra := debt / n, debt % n;
      monthly := 0;
      ghost var rows0, news := rows, EvenSplit(debt, n);
      EvenSplitIsExact(debt, n);
      for k := 0 to n
        invariant k > 0 ==> monthly == news[0]
        invariant rows == WriteBack(rows0, ids[..k], news[..k])
      {
        var next := base;
        if k < extra {
          next := next + 1;
        }
        assert next == news[k] > 0; // so the check on next <= 0 never fires
        if k == 0 {
          monthly := next;
        }
        WriteBackNext(rows0, ids, news, k);
        SetRowAmount(payments[k].id, next);
      }
      assert ids[..n] == ids && news[..n] == news;
    }

    /** markPendingCreditPaymentsPaid: one UPDATE over the credit's pending rows. */
    method PayOffPending(c: int)
      modifies this`rows
      ensures rows == WriteBack(old(rows), PendingIds(old(rows), c), seq(|PendingIds(old(rows), c)|, _ => 0))
    {
      ghost var rows0, ids := rows, PendingIds(rows, c);
      rows := seq(|rows|, i requires 0 <= i < |rows| reads this =>
        if IsPending(rows[i], c) then rows[i].(status := RowPaid) else rows[i]);
      WrittenBackIsWriteBack(rows0, rows, ids, seq(|ids|, _ => 0));
    }

    /** The refusals of Prepay that come before any write, in order; the rows and the sum it goes on with. */
    method CheckPrepay(user: int, c: int, amount: int)
      returns (refusal: Option<Error>, payments: array<Pending>, outstanding: int)
      ensures fresh(payments)
      ensures refusal == Credits.PrepayRefusal(Contents(), user, c, amount)
      ensures refusal.None? ==>
        && 0 <= c < |credits| && credits[c].status == Active && LockAccount(accounts, credits[c].account, user).None?
        && Reads(payments[..], rows, c) && PendingAmounts(rows, c) != []
        && 0 < amount <= outstanding == Total(PendingAmounts(rows, c))
    {
      payments, outstanding := new Pending[0], 0;
      if !(0 <= c < |credits|) || credits[c].user != user {
        return Some(CreditNotFound), payments, 0;
      }
      if credits[c].status != Active {
        return Some(InvalidPrepayment), payments, 0;
      }
      refusal := LockAccount(accounts, credits[c].account, user);
      if refusal.Some? {
        return;
      }
      if HasOverdue(rows, c) {
        return Some(InvalidPrepayment), payments, 0;
      }
      payments := FindPending(c);
      assert |Ids(payments[..])| == payments.Length;
      if payments.Length == 0 || amount <= 0 {
        return Some(InvalidPrepayment), payments, 0;
      }
      outstanding := SumPending(payments);
      if amount > outstanding {
        return Some(InvalidPrepayment), payments, 0;
      }
    }

    /** Prepay: whatever was written before a refusal is rolled back. */
    method Prepay(user: int, c: int, amount: int, mode: Credits.Mode, mfa: int, now: int) returns (outcome: Outcome)
      requires AmountsChecked(rows)
      modifies this
      ensures (Contents(), outcome) == Credits.Prepay(old(Contents()), user, c, amount, mode, mfa, now)
    {
      hide WriteBack, PendingIds, PendingAmounts, Sum, Credits.NewAmounts, Positive, Credits.PrepayRefusal;
      var saved := Contents();
      var refusal, payments, outstanding := CheckPrepay(user, c, amount);
      if refusal.Some? {
        return Failed(refusal.value);
      }
      var credit := credits[c];
      var ok := MarkCodeUsed(Some(mfa), now);
      if !ok {
        return Failed(MfaCodeNotFound);
      }
      ok := WithdrawBalance(credit.account, amount);
      if !ok {
        Rollback(saved);
        return Failed(InsufficientFunds);
      }
      ok := Log(Txn(user, Some(credit.account), None, Some(c), amount, CreditPrepayment, TxnCompleted));
      PendingChecked(rows, c);
      var plan := Replan(payments, mode, amount, outstanding, c);
      if plan.None? {
        Rollback(saved);
        return Failed(InvalidPrepayment);
      }
      var (monthly, term) := plan.value;
      var remaining := outstanding - amount;
      outcome := Prepaid(|saved.txns|, credit.monthly, monthly, credit.term, term, remaining, remaining == 0);
    }

    /** The write-back of Prepay: close the credit, or rewrite its schedule and plan in the chosen mode.
        None stands for the invalid-prepayment error. */
    method Replan(payments: array<Pending>, mode: Credits.Mode, amount: int, outstanding: int, c: int)
      returns (plan: Option<(int, int)>)
      requires 0 <= c < |credits| && Reads(payments[..], rows, c)
      requires AllPositive(PendingAmounts(rows, c)) && PendingAmounts(rows, c) != []
      requires 0 < amount <= outstanding == Total(PendingAmounts(rows, c))
      modifies this`rows, this`credits, payments
      ensures var news := Credits.NewAmounts(old(PendingAmounts(rows, c)), amount, mode);
              && plan.Some? == news.Some?
              && (news.Some? ==>
                    && rows == WriteBack(old(rows), old(PendingIds(rows, c)), news.value)
                    && credits
                         == old(credits)[c := Credits.Replanned(old(credits)[c], news.value, outstanding - amount)]
                    && plan.value == if amount == outstanding then (0, 0) else (news.value[0], |Positive(news.value)|))
    {
      hide WriteBack, PendingIds, PendingAmounts, Sum, ReduceTerm, EvenSplit, Positive;
      if mode == Credits.FullCloseMode && amount != outstanding {
        return None;
      }
      var remaining := outstanding - amount;
      if remaining == 0 {
        PayOffPending(c);
        credits := credits[c := credits[c].(principal := 0, status := CreditStatus.Closed)];
        return Some((0, 0));
      }
      plan := ApplyMode(payments, mode, amount, remaining, c);
      if plan.Some? {
        var (monthly, term) := plan.value;
        credits := credits[c := credits[c].(
          term := term, monthly := monthly, principal := remaining, status := Active)];
      }
    }

    /** The switch over the mode of a partial prepayment: the new monthly payment and term, or a refusal. */
    method ApplyMode(payments: array<Pending>, mode: Credits.Mode, amount: int, remaining: int, ghost c: int)
      returns (plan: Option<(int, int)>)
      requires Reads(payments[..], rows, c) && AllPositive(Amounts(payments[..]))
      requires 0 < amount < Total(Amounts(payments[..])) && remaining == Total(Amounts(payments[..])) - amount
      modifies this`rows, payments
      ensures var news := Credits.NewAmounts(old(PendingAmounts(rows, c)), amount, mode);
              && plan.Some? == news.Some?
              && (news.Some? ==>
                    && rows == WriteBack(old(rows), old(PendingIds(rows, c)), news.value)
                    && news.value != [] && plan.value == (news.value[0], |Positive(news.value)|))
    {
      hide WriteBack, PendingIds, PendingAmounts, Sum, ReduceTerm, EvenSplit, Positive;
      ghost var amounts := Amounts(payments[..]);
      plan := None;
      match mode {
        case ReduceTermMode =>
          ReduceTermIsExactAndMinimal(amounts, amount);
          var monthly, term := ApplyReduceTerm(payments, amount, c);
          plan := Some((monthly, term));
        case ReducePaymentMode =>
          plan := ApplyReducePayment(payments, remaining, c);
          if plan.Some? {
            EvenSplitIsExact(remaining, |amounts|);
            PositivePrefix(EvenSplit(remaining, |amounts|), |amounts|);
          }
        case FullCloseMode =>
        case UnknownMode =>
      }
    }

    /** ProcessPayment for one schedule row. */
    method ProcessPayment(id: int) returns (outcome: Outcome)
      modifies this
      ensures (Contents(), outcome) == Credits.ProcessPayment(old(Contents()), id)
    {
      var saved := Contents();
      if !(0 <= id < |rows|) || !(0 <= rows[id].credit < |credits|) {
        return Failed(ScheduleNotFound);
      }
      var r := rows[id];
      var credit := credits[r.credit];
      if r.status != RowPending && r.status != RowOverdue {
        return Processed(Skipped, r.amount, r.penalty);
      }
      var lock := LockAccount(accounts, credit.account, credit.user);
      if lock.Some? {
        return Failed(lock.value);
      }
      var ok := WithdrawBalance(credit.account, WithdrawalFor(r));
      if !ok {
        if r.status == RowPending {
          rows := rows[id := Credits.MarkOverdue(r)];
          credits := credits[r.credit := credit.(status := Overdue)];
          return Processed(StillOverdue, r.amount, rows[id].penalty);
        }
        return Processed(StillOverdue, r.amount, r.penalty);
      }
      rows := rows[id := r.(status := RowPaid)];
      txns := txns
        + [Txn(credit.user, Some(credit.account), None, Some(r.credit), r.amount, CreditPayment, TxnCompleted)];
      if r.penalty > 0 {
        txns := txns + [Txn(credit.user, Some(credit.account), None, Some(r.credit), r.penalty, Penalty, TxnCompleted)];
      }
      assert txns == saved.txns + Credits.PaymentTxns(credit, r);
      credits := Credits.CloseIfPaid(credits, rows, r.credit);
      outcome := Processed(PaidNow, r.amount, r.penalty);
    }

    /** ProcessDuePayments: a failing payment is skipped, the batch goes on. */
    method ProcessDuePayments(today: int)
      modifies this
      ensures Contents() == Scheduler.ProcessDue(old(Contents()), today)
    {
      var batch := Scheduler.FindDue(Contents(), today, Scheduler.BATCH_LIMIT);
      for k := 0 to |batch|
        invariant Contents() == Scheduler.ProcessBatch(old(Contents()), batch[..k])
      {
        assert batch[..k + 1][..k] == batch[..k];
        var _ := ProcessPayment(batch[k]);
      }
      assert batch[..|batch|] == batch;
    }
  }
}
