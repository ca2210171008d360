/** The numbers the code computes fit where it keeps them: balances and amounts their NUMERIC columns, and the sums over
    a schedule int64, so that integer arithmetic in the model is the arithmetic of the code. */
module Limits {
  import opened Basics
  import opened Tables
  import opened Schedule
  import opened Bank
  import Credits
  import Policy
  import Text

  function RowOf(c: int): Row -> int {
    (r: Row) => if r.credit == c then 1 else 0
  }

  ghost predicate BalancesFit(accounts: seq<Account>) {
    forall a :: 0 <= a < |accounts| ==> accounts[a].balance <= MAX_CENTS
  }

  ghost predicate RowsFit(rows: seq<Row>) {
    forall i :: 0 <= i < |rows| ==> rows[i].amount <= MAX_CENTS
  }

  /** No schedule is longer than the longest term. */
  ghost predicate TermsFit(rows: seq<Row>) {
    forall c: int :: Sum(rows, RowOf(c)) <= Credits.MAX_TERM
  }

  ghost predicate Fits(db: Db) {
    BalancesFit(db.accounts) && RowsFit(db.rows) && TermsFit(db.rows)
  }

  lemma StepKeepsBalancesFit(db: Db, op: Op)
    requires Inv(db) && BalancesFit(db.accounts)
    ensures BalancesFit(Step(db, op).0.accounts)
  {
    hide Sum, WriteBack, PendingIds, Credits.NewAmounts, Policy.PolicyError;
  }

  /** Rows keep their credit, and no amount rises above the column. */
  lemma StepKeepsRowsFit(db: Db, op: Op, i: int)
    requires Inv(db) && RowsFit(db.rows) && 0 <= i < |db.rows|
    ensures i < |Step(db, op).0.rows|
    ensures Step(db, op).0.rows[i].credit == db.rows[i].credit && Step(db, op).0.rows[i].amount <= MAX_CENTS
  {
    hide Sum, WriteBack, PendingIds, Credits.NewAmounts, Policy.PolicyError;
    if op.Prepay? && Step(db, op).1.Prepaid? {
      var amounts := PendingAmounts(db.rows, op.credit);
      Credits.PendingAmountsFit(db.credits, db.rows, op.credit);
      Credits.NewAmountsFit(amounts, op.amount, op.mode);
      FirstAmountFits(db.rows, op.credit);
      Credits.RewrittenRow(db.rows, op.credit, Credits.NewAmounts(amounts, op.amount, op.mode).value, amounts[0], i);
    }
  }

  lemma FirstAmountFits(rows: seq<Row>, c: int)
    requires RowsFit(rows)
    ensures forall k :: 0 <= k < |PendingAmounts(rows, c)| ==> PendingAmounts(rows, c)[k] <= MAX_CENTS
  {
  }

  ghost predicate KeepCredits(rows: seq<Row>, rows': seq<Row>) {
    |rows| <= |rows'| && forall i :: 0 <= i < |rows| ==> rows'[i].credit == rows[i].credit
  }

  lemma StepKeepsTermsFit(db: Db, op: Op, c: int)
    requires Inv(db) && TermsFit(db.rows)
    requires KeepCredits(db.rows, Step(db, op).0.rows)
    ensures Sum(Step(db, op).0.rows, RowOf(c)) <= Credits.MAX_TERM
  {
    hide Sum, WriteBack, PendingIds, Credits.NewAmounts, Policy.PolicyError;
    var rows' := Step(db, op).0.rows;
    if op.Create? && Step(db, op).1.Done? {
      var news := Credits.NewRows(|db.credits|, op.req);
      SumConcat(db.rows, news, RowOf(c));
      SumAtMost(news, RowOf(c), 1);
      if c == |db.credits| {
        SumZero(db.rows, RowOf(c));
      } else {
        SumZero(news, RowOf(c));
      }
    } else {
      assert |rows'| == |db.rows|;
      SumCongruent(db.rows, rows', RowOf(c), RowOf(c));
    }
  }

  lemma StepKeepsFits(db: Db, op: Op)
    requires Inv(db) && Fits(db)
    ensures Fits(Step(db, op).0)
  {
    hide Sum, Inv, Step;
    StepKeepsBalancesFit(db, op);
    forall i | 0 <= i < |db.rows|
      ensures i < |Step(db, op).0.rows|
      ensures Step(db, op).0.rows[i].credit == db.rows[i].credit && Step(db, op).0.rows[i].amount <= MAX_CENTS
    {
      StepKeepsRowsFit(db, op, i);
    }
    if |db.rows| > 0 {
      StepKeepsRowsFit(db, op, |db.rows| - 1);
    }
    assert KeepCredits(db.rows, Step(db, op).0.rows);
    forall c: int ensures Sum(Step(db, op).0.rows, RowOf(c)) <= Credits.MAX_TERM {
      StepKeepsTermsFit(db, op, c);
    }
    NewRowsFit(db, op);
  }

  lemma NewRowsFit(db: Db, op: Op)
    ensures forall i :: |db.rows| <= i < |Step(db, op).0.rows| ==> Step(db, op).0.rows[i].amount <= MAX_CENTS
  {
    hide Sum, WriteBack, PendingIds, Credits.NewAmounts, Policy.PolicyError;
  }

  lemma {:induction false} EveryRunFits(ops: seq<Op>)
    ensures Fits(Run(EMPTY, ops))
  {
    if ops != [] {
      EveryRunFits(ops[..|ops| - 1]);
      EveryRunIsSound(ops[..|ops| - 1]);
      StepKeepsFits(Run(EMPTY, ops[..|ops| - 1]), ops[|ops| - 1]);
    } else {
      assert forall c: int :: Sum(EMPTY.rows, RowOf(c)) == 0;
    }
  }

  lemma {:induction false} PendingAreRows(rows: seq<Row>, c: int)
    ensures |PendingIds(rows, c)| <= Sum(rows, RowOf(c))
  {
    if rows != [] {
      PendingAreRows(rows[..|rows| - 1], c);
    }
  }

  /** In every reachable state what a credit owes, summed in int64 as Prepay does, does not overflow. */
  lemma OutstandingFitsInt64(ops: seq<Op>, c: int)
    ensures Total(PendingAmounts(Run(EMPTY, ops).rows, c)) <= Credits.MAX_TERM * MAX_CENTS < Text.MAX_INT64
  {
    hide Run;
    EveryRunFits(ops);
    var rows := Run(EMPTY, ops).rows;
    var amounts := PendingAmounts(rows, c);
    FirstAmountFits(rows, c);
    SumAtMost(amounts, Cents, MAX_CENTS);
    PendingAreRows(rows, c);
    assert |amounts| <= Credits.MAX_TERM;
    assert |amounts| * MAX_CENTS <= Credits.MAX_TERM * MAX_CENTS;
  }
}
