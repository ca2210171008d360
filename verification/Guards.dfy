/** What the checks in front of every operation achieve: frozen accounts, owners' money, the policy, honest refusals. */
module Guards {
  import opened Basics
  import opened Tables
  import opened Schedule
  import opened Bank
  import Credits
  import Policy

  /** No operation moves money into or out of a blocked or closed account, or closes a blocked one. */
  lemma FrozenAccountsKeepTheirMoney(db: Db, op: Op, a: int)
    requires HasAccount(db.accounts, a) && (db.accounts[a].blocked || db.accounts[a].closed)
    ensures var accounts := Step(db, op).0.accounts;
            && HasAccount(accounts, a)
            && accounts[a].balance == db.accounts[a].balance && accounts[a].closed == db.accounts[a].closed
  {
    hide Sum, WriteBack, PendingIds, Credits.NewAmounts, Policy.PolicyError;
  }

  /** The user on whose behalf an operation takes money out. */
  function SpenderOf(db: Db, op: Op): Option<int> {
    match op
    case Withdraw(user, _, _, _, _) => Some(user)
    case CardPayment(user, _, _, _, _) => Some(user)
    case Transfer(user, _, _, _, _, _) => Some(user)
    case Prepay(user, _, _, _, _, _) => Some(user)
    case ProcessPayment(row) =>
      if 0 <= row < |db.rows| && 0 <= db.rows[row].credit < |db.credits| then Some(db.credits[db.rows[row].credit].user)
      else None
    case _ => None
  }

  /** A balance falls only for its owner: by the owner's own spending or by a due payment of the owner's credit. */
  lemma BalanceFallsOnlyForItsOwner(db: Db, op: Op, a: int)
    requires HasAccount(db.accounts, a) && Step(db, op).0.accounts[a].balance < db.accounts[a].balance
    requires HasAccount(Step(db, op).0.accounts, a)
    ensures SpenderOf(db, op) == Some(db.accounts[a].user)
  {
    hide Sum, WriteBack, PendingIds, Credits.NewAmounts, Policy.PolicyError;
  }

  /** With the policy on, a credit is issued only when the request violates none of its limits on what is committed. */
  lemma CreditsMeetThePolicy(db: Db, op: Op, reason: PolicyReason)
    requires op.Create? && op.config.enabled && Step(db, op).1.Done?
    ensures !Policy.Violated(op.config, Policy.RiskSummary(db.credits, op.req.user, op.income),
                             op.req.principal, op.req.monthly, reason)
  {
    hide Sum, Policy.Decide, Credits.Issue;
    Policy.DecisionListsTheViolations(
      op.config, Policy.RiskSummary(db.credits, op.req.user, op.income), op.req.principal, op.req.monthly);
  }

  /** A payment that is not collected was not covered: the account holds less than amount plus penalty,
      and neither a balance nor the log changes. */
  lemma UncollectedMeansUncovered(db: Db, id: int)
    requires Inv(db)
    requires Credits.ProcessPayment(db, id).1.Processed? && Credits.ProcessPayment(db, id).1.status == StillOverdue
    ensures var db' := Credits.ProcessPayment(db, id).0;
            && db'.accounts == db.accounts && db'.txns == db.txns
            && db.rows[id].status != RowPaid && db'.rows[id].status == RowOverdue
            && db.accounts[db.credits[db.rows[id].credit].account].balance < db.rows[id].amount + db.rows[id].penalty
  {
  }

  /** And a collected one charges the account exactly what it logs for the credit: amount plus penalty. */
  lemma CollectedIsLogged(db: Db, id: int)
    requires Inv(db)
    requires Credits.ProcessPayment(db, id).1.Processed? && Credits.ProcessPayment(db, id).1.status == PaidNow
    ensures var db' := Credits.ProcessPayment(db, id).0;
            var a, c := db.credits[db.rows[id].credit].account, db.rows[id].credit;
            && db'.accounts[a].balance == db.accounts[a].balance - db.rows[id].amount - db.rows[id].penalty
            && Sum(db'.txns, RepaidOn(c)) == Sum(db.txns, RepaidOn(c)) + db.rows[id].amount
            && Sum(db'.txns, PenaltyTxnOn(c)) == Sum(db.txns, PenaltyTxnOn(c)) + db.rows[id].penalty
  {
    hide Sum;
    var r := db.rows[id];
    PaymentTxnSums(db, id, r.credit);
    SumUpdate(db.rows, id, r.(status := RowPaid), PenaltyPaidOn(r.credit));
    SumUpdate(db.rows, id, r.(status := RowPaid), OwedOn(r.credit));
  }
}
