/** What issuing, prepaying and collecting a credit do, told from the request and the rows before and after:
    which instalments a prepayment mode leaves, when rows fall due, what a collected row costs. */
module CreditEffects {
  import opened Basics
  import opened Tables
  import opened Schedule
  import opened Prepayment
  import opened Bank
  import opened AccountEffects
  import BankRuns
  import Ledger
  import Credits
  import Policy

  // ----- prepayment -----

  ghost predicate Increasing(s: seq<int>) {
    forall i, j :: 0 <= i < j < |s| ==> s[i] < s[j]
  }

  /** Increasing sequences with the same elements are the same sequence. */
  lemma {:induction false} IncreasingIsUnique(s: seq<int>, t: seq<int>)
    requires Increasing(s) && Increasing(t)
    requires forall x :: x in s <==> x in t
    ensures s == t
  {
    assert s == [] <==> t == [] by {
      if s != [] { assert s[0] in s; }
      if t != [] { assert t[0] in t; }
    }
    if s != [] {
      LastIsGreatest(s);
      LastIsGreatest(t);
      var x, y := s[|s| - 1], t[|t| - 1];
      assert x in s && y in t;
      assert x == y;
      var s', t' := s[..|s| - 1], t[..|t| - 1];
      forall z ensures z in s' <==> z in t' {
        assert z in s' <==> z in s && z < x;
        assert z in t' <==> z in t && z < y;
      }
      IncreasingIsUnique(s', t');
    }
  }

  lemma LastIsGreatest(s: seq<int>)
    requires Increasing(s) && s != []
    ensures forall x :: x in s ==> x <= s[|s| - 1]
    ensures forall x :: x in s[..|s| - 1] <==> x in s && x < s[|s| - 1]
  {
    assert s == s[..|s| - 1] + [s[|s| - 1]];
  }

  /** A plan whose first k amounts are positive and whose others are zero. */
  ghost predicate PositiveUpTo(news: seq<int>, k: nat) {
    k <= |news| && forall i :: 0 <= i < |news| ==> if i < k then 0 < news[i] else news[i] == 0
  }

  /** Such a plan leaves the first k rows pending, with those amounts. */
  lemma PendingAfterWriteBack(rows: seq<Row>, c: int, news: seq<int>, k: nat)
    requires |news| == |PendingIds(rows, c)| && PositiveUpTo(news, k)
    ensures var rows' := WriteBack(rows, PendingIds(rows, c), news);
            PendingIds(rows', c) == PendingIds(rows, c)[..k] && PendingAmounts(rows', c) == news[..k]
  {
    hide PendingIds, WriteBack;
    var ids := PendingIds(rows, c);
    var rows' := WriteBack(rows, ids, news);
    WriteBackRowByRow(rows, ids, news);
    FrontStaysPending(rows, rows', c, news, k);
    forall j | 0 <= j < k ensures rows'[ids[j]].amount == news[j] {
      assert rows'[ids[j]] == Rewrite(rows[ids[j]], news[j]);
    }
    AmountsAre(rows', ids[..k], news[..k]);
  }

  lemma AmountsAre(rows: seq<Row>, ids: seq<int>, amounts: seq<int>)
    requires |ids| == |amounts|
    requires forall j :: 0 <= j < |ids| ==> 0 <= ids[j] < |rows| && rows[ids[j]].amount == amounts[j]
    ensures AmountsAt(rows, ids) == amounts
  {
  }

  lemma FrontStaysPending(rows: seq<Row>, rows': seq<Row>, c: int, news: seq<int>, k: nat)
    requires |news| == |PendingIds(rows, c)| && PositiveUpTo(news, k)
    requires WrittenBack(rows, rows', PendingIds(rows, c), news)
    ensures PendingIds(rows', c) == PendingIds(rows, c)[..k]
  {
    hide PendingIds, WrittenBack;
    var ids, left := PendingIds(rows, c), PendingIds(rows', c);
    assert |rows'| == |rows| by {
      SameNumber(rows, rows', ids, news);
    }
    forall i ensures i in left <==> i in ids[..k] {
      if 0 <= i < |rows| {
        StaysPending(rows, rows', ids, news, c, k, i);
        assert i in left <==> IsPending(rows'[i], c);
      }
    }
    IncreasingIsUnique(left, ids[..k]);
  }

  lemma SameNumber(rows: seq<Row>, rows': seq<Row>, ids: seq<int>, news: seq<int>)
    requires |ids| == |news| && forall k :: 0 <= k < |ids| ==> 0 <= ids[k] < |rows|
    requires WrittenBack(rows, rows', ids, news)
    ensures |rows'| == |rows|
  {
  }

  lemma StaysPending(rows: seq<Row>, rows': seq<Row>, ids: seq<int>, news: seq<int>, c: int, k: nat, i: int)
    requires |ids| == |news| && PositiveUpTo(news, k) && Increasing(ids) && 0 <= i < |rows|
    requires forall j :: 0 <= j < |ids| ==> 0 <= ids[j] < |rows| && IsPending(rows[ids[j]], c)
    requires IsPending(rows[i], c) ==> i in ids
    requires WrittenBack(rows, rows', ids, news)
    ensures IsPending(rows'[i], c) <==> i in ids[..k]
  {
    if i in ids {
      var j :| 0 <= j < |ids| && ids[j] == i;
      assert rows'[ids[j]] == Rewrite(rows[ids[j]], news[j]);
      InPrefix(ids, k, j);
    }
  }

  lemma InPrefix(s: seq<int>, k: nat, j: nat)
    requires Increasing(s) && j < |s| && k <= |s|
    ensures s[j] in s[..k] <==> j < k
  {
    if j < k {
      assert s[..k][j] == s[j];
    }
  }

  /** What a mode makes of the pending amounts `olds`, given the debt that stays: reduce term keeps the front of the
      schedule, lowers at most its last row, and keeps no row the debt does not need; reduce payment keeps every row
      and spreads the debt evenly to the cent, larger amounts first. */
  ghost predicate Replans(mode: Credits.Mode, olds: seq<int>, news: seq<int>, debt: int) {
    && Total(news) == debt
    && AllPositive(news)
    && |news| <= |olds|
    && (debt == 0 <==> news == [])
    && (debt > 0 ==>
          match mode
          case ReduceTermMode =>
            && (forall k :: 0 <= k < |news| - 1 ==> news[k] == olds[k])
            && news[|news| - 1] <= olds[|news| - 1]
            && LeastCover(olds, debt, |news|)
          case ReducePaymentMode =>
            && |news| == |olds|
            && forall j, k :: 0 <= j < k < |news| ==> news[k] <= news[j] <= news[k] + 1
          case FullCloseMode => false
          case UnknownMode => false)
  }

  /** The amounts a mode leaves pending: all before the zeros of its plan. */
  lemma ModePlan(amounts: seq<int>, amount: int, mode: Credits.Mode) returns (k: nat)
    requires amounts != [] && AllPositive(amounts) && 0 < amount <= Total(amounts)
    requires Credits.NewAmounts(amounts, amount, mode).Some?
    ensures var news := Credits.NewAmounts(amounts, amount, mode).value;
            && PositiveUpTo(news, k)
            && Replans(mode, amounts, news[..k], Total(amounts) - amount)
            && Positive(news) == news[..k]
  {
    hide ReduceTerm, EvenSplit, Positive, Total, Replans;
    var debt := Total(amounts) - amount;
    var news := Credits.NewAmounts(amounts, amount, mode).value;
    if debt == 0 {
      k := 0;
      NothingLeft(mode, amounts);
    } else if mode == Credits.ReduceTermMode {
      k := |Positive(news)|;
      ReduceTermPlan(amounts, amount);
    } else {
      k := |news|;
      EvenSplitPlan(amounts, debt);
      assert news[..k] == news;
    }
    PositivePrefix(news, k);
  }

  lemma NothingLeft(mode: Credits.Mode, amounts: seq<int>)
    ensures Replans(mode, amounts, [], 0)
  {
    NothingTotalsZero();
  }

  lemma ReduceTermPlan(amounts: seq<int>, amount: int)
    requires AllPositive(amounts) && 0 < amount < Total(amounts)
    ensures var news := ReduceTerm(amounts, amount);
            var k := |Positive(news)|;
            PositiveUpTo(news, k) && Replans(Credits.ReduceTermMode, amounts, news[..k], Total(amounts) - amount)
  {
    hide ReduceTerm, Positive, Sum, LeastCover;
    var news := ReduceTerm(amounts, amount);
    var k := |Positive(news)|;
    ReduceTermIsExactAndMinimal(amounts, amount);
    assert news == news[..k] + news[k..];
    SumConcat(news[..k], news[k..], Cents);
    SumZero(news[k..], Cents);
  }

  lemma EvenSplitPlan(amounts: seq<int>, debt: int)
    requires amounts != [] && |amounts| <= debt
    ensures var news := EvenSplit(debt, |amounts|);
            PositiveUpTo(news, |news|) && Replans(Credits.ReducePaymentMode, amounts, news, debt)
  {
    hide EvenSplit, Sum;
    EvenSplitIsExact(debt, |amounts|);
  }

  lemma NothingTotalsZero()
    ensures Total([]) == 0
  {
  }

  /** Who may prepay what, and in which mode. */
  ghost predicate MayPrepay(db: Db, op: Op)
    requires op.Prepay? && Inv(db)
  {
    && 0 <= op.credit < |db.credits|
    && db.credits[op.credit].user == op.user && db.credits[op.credit].status == Active
    && InUse(db.accounts, db.credits[op.credit].account)
    && CodePasses(db.codes, Some(op.mfa), op.now)
    && op.amount <= db.accounts[db.credits[op.credit].account].balance
    && var owed := Total(PendingAmounts(db.rows, op.credit));
    && 0 < op.amount <= owed
    && (op.amount == owed || op.mode == Credits.ReduceTermMode
        || (op.mode == Credits.ReducePaymentMode && |PendingIds(db.rows, op.credit)| <= owed - op.amount))
  }

  /** A prepayment goes through exactly when it may; so a partial full_close and an unknown mode never do. */
  lemma PrepaysExactlyWhenItMay(db: Db, op: Op)
    requires Inv(db) && op.Prepay?
    ensures Step(db, op).1.Prepaid? <==> MayPrepay(db, op)
  {
    hide Sum, WriteBack, PendingIds, PendingAmounts, Positive, ReduceTerm, EvenSplit;
    if 0 <= op.credit < |db.credits| && db.credits[op.credit].status == Active {
      BankRuns.OverdueCheckIsRedundant(db, op.credit);
    }
  }

  /** Row by row: of the pending rows of c the first `left` keep everything but their amount, the others are paid whole
      and keep their amount; no other row changes. */
  ghost predicate OnlyPendingRewritten(rows: seq<Row>, rows': seq<Row>, c: int, left: nat) {
    && |rows'| == |rows|
    && (forall i :: 0 <= i < |rows| && !IsPending(rows[i], c) ==> rows'[i] == rows[i])
    && var ids := PendingIds(rows, c);
    && left <= |ids|
    && (forall k :: 0 <= k < left ==> rows'[ids[k]] == rows[ids[k]].(amount := rows'[ids[k]].amount))
    && (forall k :: left <= k < |ids| ==> rows'[ids[k]] == rows[ids[k]].(status := RowPaid))
  }

  lemma WriteBackRewritesPending(rows: seq<Row>, c: int, news: seq<int>, k: nat)
    requires |news| == |PendingIds(rows, c)| && PositiveUpTo(news, k)
    ensures OnlyPendingRewritten(rows, WriteBack(rows, PendingIds(rows, c), news), c, k)
  {
    hide PendingIds, WriteBack;
    var ids := PendingIds(rows, c);
    WriteBackRowByRow(rows, ids, news);
  }

  /** From db to db' the prepayment rewrote the pending rows as its mode calls for and nothing else, replanned or closed
      the credit by them, and answered so. */
  ghost predicate ReplannedBy(db: Db, db': Db, op: Op, o: Outcome)
    requires op.Prepay? && 0 <= op.credit < |db.credits|
  {
    var c, credit := op.credit, db.credits[op.credit];
    var olds, news := PendingAmounts(db.rows, c), PendingAmounts(db'.rows, c);
    && Replans(op.mode, olds, news, Total(olds) - op.amount)
    && PendingIds(db'.rows, c) == PendingIds(db.rows, c)[..|news|]
    && OnlyPendingRewritten(db.rows, db'.rows, c, |news|)
    && o == Prepaid(|db.txns|, credit.monthly, if news == [] then 0 else news[0], credit.term, |news|,
                    Total(news), news == [])
    && db'.credits == db.credits[c :=
         if news == [] then credit.(principal := 0, status := CreditStatus.Closed)
         else credit.(principal := Total(news), monthly := news[0], term := |news|)]
  }

  /** What a prepayment leaves is what its mode calls for. */
  lemma PrepayFollowsItsMode(db: Db, op: Op)
    requires Inv(db) && op.Prepay? && Step(db, op).1.Prepaid?
    ensures 0 <= op.credit < |db.credits|
    ensures ReplannedBy(db, Step(db, op).0, op, Step(db, op).1)
  {
    hide Total, WriteBack, PendingIds, PendingAmounts, Positive, Credits.NewAmounts, Replans, OnlyPendingRewritten,
      Inv, Step;
    var c := op.credit;
    var amounts := PendingAmounts(db.rows, c);
    PrepaysExactlyWhenItMay(db, op);
    var k := PrepaymentPlan(db, op);
    var news := Credits.NewAmounts(amounts, op.amount, op.mode).value;
    PendingAfterWriteBack(db.rows, c, news, k);
    WriteBackRewritesPending(db.rows, c, news, k);
    ReplansSayHowMuchIsLeft(op.mode, amounts, news[..k], Total(amounts) - op.amount);
  }

  /** The committed state of a prepayment, in terms of its plan. */
  lemma PrepaymentPlan(db: Db, op: Op) returns (k: nat)
    requires Inv(db) && op.Prepay? && Step(db, op).1.Prepaid?
    ensures 0 <= op.credit < |db.credits|
    ensures var (db', o) := Step(db, op);
            var c, credit := op.credit, db.credits[op.credit];
            var amounts := PendingAmounts(db.rows, c);
            var plan := Credits.NewAmounts(amounts, op.amount, op.mode);
            var debt := Total(amounts) - op.amount;
            && plan.Some? && |plan.value| == |PendingIds(db.rows, c)| && plan.value != []
            && PositiveUpTo(plan.value, k) && Positive(plan.value) == plan.value[..k]
            && Replans(op.mode, amounts, plan.value[..k], debt)
            && db'.rows == WriteBack(db.rows, PendingIds(db.rows, c), plan.value)
            && credit.status == Active
            && db'.credits == db.credits[c :=
                 if debt == 0 then credit.(principal := 0, status := CreditStatus.Closed)
                 else credit.(principal := debt, monthly := plan.value[0], term := k)]
            && o == Prepaid(|db.txns|, credit.monthly, if debt == 0 then 0 else plan.value[0], credit.term,
                            if debt == 0 then 0 else k, debt, debt == 0)
  {
    hide Total, WriteBack, PendingIds, PendingAmounts, Positive, Credits.NewAmounts, Replans;
    Credits.PendingAmountsFit(db.credits, db.rows, op.credit);
    k := ModePlan(PendingAmounts(db.rows, op.credit), op.amount, op.mode);
  }

  lemma ReplansSayHowMuchIsLeft(mode: Credits.Mode, olds: seq<int>, news: seq<int>, debt: int)
    requires Replans(mode, olds, news, debt)
    ensures Total(news) == debt && (debt == 0 <==> news == [])
  {
  }

  /** It takes exactly its amount off the credit's account and logs it for the credit. */
  lemma PrepayTakesItsAmount(db: Db, op: Op)
    requires Inv(db) && op.Prepay? && Step(db, op).1.Prepaid?
    ensures 0 <= op.credit < |db.credits|
    ensures var c, account := op.credit, db.credits[op.credit].account;
            Booked(db, Step(db, op).0, Only(account, -op.amount),
                   [Txn(op.user, Some(account), None, Some(c), op.amount, CreditPrepayment, TxnCompleted)],
                   Some(op.mfa))
  {
    hide Sum, WriteBack, PendingIds, PendingAmounts, Positive, Credits.NewAmounts, Inv;
  }

  /** What a prepayment is refused for: a stranger's credit, one not active, a blocked account, an amount outside what
      is owed, then the code, then the funds, and last a mode that cannot leave the debt that stays. */
  lemma PrepayRefusals(db: Db, op: Op)
    requires Inv(db) && op.Prepay? && Step(db, op).1.Failed?
    ensures var e := Step(db, op).1.error;
            var own := 0 <= op.credit < |db.credits| && db.credits[op.credit].user == op.user;
            var active := own && db.credits[op.credit].status == Active;
            var usable := active && InUse(db.accounts, db.credits[op.credit].account);
            var fits := usable && 0 < op.amount <= Total(PendingAmounts(db.rows, op.credit));
            var passes := fits && CodePasses(db.codes, Some(op.mfa), op.now);
            var covered := passes && op.amount <= db.accounts[db.credits[op.credit].account].balance;
            && (e == CreditNotFound <==> !own)
            && (e == AccountBlocked <==> active && !usable)
            && (e == MfaCodeNotFound <==> fits && !passes)
            && (e == InsufficientFunds <==> passes && !covered)
            && (e == InvalidPrepayment <==> own && (active ==> usable) && (fits ==> covered))
  {
    hide Sum, WriteBack, PendingIds, PendingAmounts, Positive, ReduceTerm, EvenSplit;
    if 0 <= op.credit < |db.credits| && db.credits[op.credit].status == Active {
      BankRuns.OverdueCheckIsRedundant(db, op.credit);
    }
  }

  // ----- issue -----

  /** The policy is off, or all its limits can be read and the request violates none. */
  ghost predicate PolicyPasses(config: Policy.Config, s: Policy.Summary, principal: int, monthly: int) {
    config.enabled ==>
      && !config.maxPrincipal.BadLimit? && !config.maxTotalPrincipal.BadLimit?
      && forall reason :: !Policy.Violated(config, s, principal, monthly, reason)
  }

  ghost predicate MayIssue(db: Db, op: Op)
    requires op.Create?
  {
    && 1 <= |op.req.dates| <= Credits.MAX_TERM
    && InUse(db.accounts, op.req.account) && db.accounts[op.req.account].user == op.req.user
    && PolicyPasses(op.config, Policy.RiskSummary(db.credits, op.req.user, op.income), op.req.principal, op.req.monthly)
    && CodePasses(db.codes, Some(op.mfa), op.now)
    && 0 < op.req.principal && db.accounts[op.req.account].balance + op.req.principal <= MAX_CENTS
    && 0 < op.req.monthly <= MAX_CENTS
    && 0 <= op.req.rate <= 99_999
  }

  lemma IssuesExactlyWhenItMay(db: Db, op: Op)
    requires op.Create?
    ensures Step(db, op).1.Done? <==> MayIssue(db, op)
  {
    hide Sum, Policy.PolicyError, Policy.RiskSummary, PolicyPasses;
    PolicyRefusal(
      op.config, Policy.RiskSummary(db.credits, op.req.user, op.income), op.req.principal, op.req.monthly);
  }

  /** What an issue is refused for, in the order of the checks; a policy refusal names the first limit violated. */
  lemma IssueRefusals(db: Db, op: Op)
    requires op.Create? && Step(db, op).1.Failed?
    ensures var e, accounts, req := Step(db, op).1.error, db.accounts, op.req;
            var summary := Policy.RiskSummary(db.credits, req.user, op.income);
            var readable := !op.config.maxPrincipal.BadLimit? && !op.config.maxTotalPrincipal.BadLimit?;
            if !(1 <= |req.dates| <= Credits.MAX_TERM) then e == InvalidCreditData
            else if !(InUse(accounts, req.account) && accounts[req.account].user == req.user)
            then e == OwnAccountRefusal(accounts, req.account, req.user, Constraint)
            else if op.config.enabled && !readable then e == InvalidCreditData
            else if !PolicyPasses(op.config, summary, req.principal, req.monthly)
            then e.PolicyRejected? && FirstViolated(op.config, summary, req.principal, req.monthly, e.reason)
            else e == if CodePasses(db.codes, Some(op.mfa), op.now) then Constraint else MfaCodeNotFound
  {
    hide Sum, Policy.RiskSummary, Policy.Decide, PolicyPasses, FirstViolated;
    var summary := Policy.RiskSummary(db.credits, op.req.user, op.income);
    PolicyRefusal(op.config, summary, op.req.principal, op.req.monthly);
    if !(1 <= |op.req.dates| <= Credits.MAX_TERM) {
    } else if LockAccount(db.accounts, op.req.account, op.req.user).Some? {
    } else if Policy.PolicyError(op.config, summary, op.req.principal, op.req.monthly).Some? {
    } else {
    }
  }

  ghost predicate FirstViolated(config: Policy.Config, s: Policy.Summary, principal: int, monthly: int, r: PolicyReason)
  {
    && Policy.Violated(config, s, principal, monthly, r)
    && forall other :: Policy.Violated(config, s, principal, monthly, other) ==> Policy.Rank(r) <= Policy.Rank(other)
  }

  lemma PolicyRefusal(config: Policy.Config, s: Policy.Summary, principal: int, monthly: int)
    ensures var e := Policy.PolicyError(config, s, principal, monthly);
            && (e.None? <==> PolicyPasses(config, s, principal, monthly))
            && (config.enabled && (config.maxPrincipal.BadLimit? || config.maxTotalPrincipal.BadLimit?) ==> e.Some?)
            && (e.Some? ==>
                  if config.enabled && (config.maxPrincipal.BadLimit? || config.maxTotalPrincipal.BadLimit?)
                  then e.value == InvalidCreditData
                  else e.value.PolicyRejected? && FirstViolated(config, s, principal, monthly, e.value.reason))
  {
    hide Policy.Decide;
    Policy.UndecidedIffUnreadable(config, s, principal, monthly);
    if Policy.Decide(config, s, principal, monthly).Some? {
      var d := Policy.Decide(config, s, principal, monthly).value;
      Policy.DecisionListsTheViolations(config, s, principal, monthly);
      assert d.reasons != [] ==> d.reasons[0] in d.reasons;
    }
  }

  function OneBy(t: int): int -> int {
    (date: int) => if date <= t then 1 else 0
  }

  /** How many of the dates have come by day t. */
  function DatesBy(dates: seq<int>, t: int): int {
    Sum(dates, OneBy(t))
  }

  /** Amounts of the unpaid rows of credit c that fall due by day t. */
  function UnpaidBy(c: int, t: int): Row -> int {
    (r: Row) => if r.credit == c && r.status != RowPaid && r.date <= t then r.amount else 0
  }

  /** A new credit gets one pending row of the monthly amount per payment date: by every day t exactly as many of them
      have fallen due as dates have come. Its principal is paid out, and nothing else changes. */
  lemma IssueFollowsItsDates(db: Db, op: Op)
    requires Inv(db) && op.Create? && Step(db, op).1.Done?
    ensures var (db', o) := Step(db, op);
            var c, req := |db.credits|, op.req;
            && o.id == c
            && db'.credits == db.credits
                 + [Credit(req.user, req.account, req.principal, req.rate, |req.dates|, req.monthly, Active)]
            && db.rows <= db'.rows && |db'.rows| == |db.rows| + |req.dates|
            && (forall i :: |db.rows| <= i < |db'.rows| ==>
                  && db'.rows[i].credit == c && IsPending(db'.rows[i], c)
                  && db'.rows[i].amount == req.monthly && db'.rows[i].penalty == 0)
            && (forall t: int :: Sum(db'.rows, UnpaidBy(c, t)) == req.monthly * DatesBy(req.dates, t))
            && Booked(db, db', Only(req.account, req.principal),
                      [Txn(req.user, None, Some(req.account), Some(c), req.principal, CreditIssue, TxnCompleted)],
                      Some(op.mfa))
  {
    hide Sum, Policy.PolicyError, Policy.RiskSummary, Inv;
    var c, req := |db.credits|, op.req;
    var news := Step(db, op).0.rows[|db.rows|..];
    assert Step(db, op).0.rows == db.rows + news;
    forall t: int ensures Sum(db.rows + news, UnpaidBy(c, t)) == req.monthly * DatesBy(req.dates, t) {
      SumConcat(db.rows, news, UnpaidBy(c, t));
      NoRowsOfNewCredit(db, t);
      DueByDates(news, req.dates, c, req.monthly, t);
    }
  }

  lemma NoRowsOfNewCredit(db: Db, t: int)
    requires Inv(db)
    ensures Sum(db.rows, UnpaidBy(|db.credits|, t)) == 0
  {
    SumZero(db.rows, UnpaidBy(|db.credits|, t));
  }

  lemma {:induction false} DueByDates(rows: seq<Row>, dates: seq<int>, c: int, monthly: int, t: int)
    requires |rows| == |dates|
    requires forall i :: 0 <= i < |rows| ==>
      rows[i].credit == c && rows[i].status != RowPaid && rows[i].amount == monthly && rows[i].date == dates[i]
    ensures Sum(rows, UnpaidBy(c, t)) == monthly * DatesBy(dates, t)
  {
    if rows != [] {
      var n := |rows| - 1;
      DueByDates(rows[..n], dates[..n], c, monthly, t);
      assert monthly * (DatesBy(dates[..n], t) + 1) == monthly * DatesBy(dates[..n], t) + monthly;
    }
  }

  // ----- one payment -----

  /** What the row costs to collect. */
  function Price(r: Row): int {
    r.amount + r.penalty
  }

  /** When a row is collected: it is unpaid, its account is in use and holds amount plus penalty. The row is paid and
      its cost leaves the account, logged as the payment and, when there is one, the penalty; the credit closes with its
      last unpaid row. */
  lemma PaidExactlyWhenCovered(db: Db, id: int)
    requires Inv(db) && 0 <= id < |db.rows|
    ensures var (db', o) := Step(db, ProcessPayment(id));
            var r, c := db.rows[id], db.rows[id].credit;
            var credit := db.credits[c];
            && ((o.Processed? && o.status == PaidNow) <==>
                  r.status != RowPaid && InUse(db.accounts, credit.account)
                  && Price(r) <= db.accounts[credit.account].balance)
            && (o.Processed? && o.status == PaidNow ==>
                  && o == Processed(PaidNow, r.amount, r.penalty)
                  && db'.rows == db.rows[id := r.(status := RowPaid)]
                  && Booked(db, db', Only(credit.account, -Price(r)),
                            [OfCredit(credit, c, r.amount, CreditPayment)]
                            + (if r.penalty > 0 then [OfCredit(credit, c, r.penalty, Penalty)] else []), None)
                  && db'.credits ==
                       if LastUnpaid(db.rows, id) then db.credits[c := credit.(status := CreditStatus.Closed)]
                       else db.credits)
  {
    hide Sum, PendingIds, Ledger.Agrees, AllPaid, LastUnpaid;
    LastUnpaidCloses(db.rows, id);
  }

  lemma LastUnpaidCloses(rows: seq<Row>, id: int)
    requires 0 <= id < |rows|
    ensures AllPaid(rows[id := rows[id].(status := RowPaid)], rows[id].credit) <==> LastUnpaid(rows, id)
  {
    var rows' := rows[id := rows[id].(status := RowPaid)];
    assert forall i :: 0 <= i < |rows| && i != id ==> rows'[i] == rows[i];
  }

  function OfCredit(credit: Credit, c: int, amount: int, kind: TxnKind): Txn {
    Txn(credit.user, Some(credit.account), None, Some(c), amount, kind, TxnCompleted)
  }

  /** Every other row of the same credit is paid. */
  ghost predicate LastUnpaid(rows: seq<Row>, id: int)
    requires 0 <= id < |rows|
  {
    forall i :: 0 <= i < |rows| && i != id && rows[i].credit == rows[id].credit ==> rows[i].status == RowPaid
  }

  /** And when it is not: a paid row is skipped, a closed or blocked account is an error, and an account that holds too
      little makes the row overdue, at first with the penalty of a tenth, half up, and the credit with it; nothing else
      changes. */
  lemma UncollectedRowsGoOverdue(db: Db, id: int)
    requires Inv(db) && 0 <= id < |db.rows|
    ensures var (db', o) := Step(db, ProcessPayment(id));
            var r, c := db.rows[id], db.rows[id].credit;
            var account := db.credits[c].account;
            && (o == Processed(Skipped, r.amount, r.penalty) <==> r.status == RowPaid)
            && (o.Failed? <==> r.status != RowPaid && !InUse(db.accounts, account))
            && (o.Failed? ==> o.error == AccountBlocked)
            && (o.Processed? && o.status == StillOverdue <==>
                  r.status != RowPaid && InUse(db.accounts, account) && db.accounts[account].balance < Price(r))
            && (o.Processed? && o.status == StillOverdue ==>
                  && o == Processed(StillOverdue, r.amount, db'.rows[id].penalty)
                  && db' == db.(rows := db.rows[id := db'.rows[id]],
                                credits := db.credits[c := db.credits[c].(status := Overdue)])
                  && db'.rows[id] == r.(status := RowOverdue, penalty := db'.rows[id].penalty)
                  && (r.status == RowPending ==> -5 < 10 * db'.rows[id].penalty - r.amount <= 5)
                  && (r.status == RowOverdue ==> db'.rows[id].penalty == r.penalty))
            && (!o.Processed? || o.status == Skipped ==> db' == db)
  {
    hide Sum, PendingIds, Ledger.Agrees;
  }
}
