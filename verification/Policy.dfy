/** The credit policy: a decision is built from a risk summary, one reason per violated limit. */
module Policy {
  import opened Basics
  import opened Tables

  /** A limit from the configuration: empty, unreadable, or an amount in cents. */
  datatype Limit = NoLimit | BadLimit | AtMost(cents: real)

  datatype Config = Config(
    enabled: bool, maxActive: int, maxPrincipal: Limit, maxTotalPrincipal: Limit, maxLoadPercent: int)

  datatype Summary = Summary(active: int, overdue: int, totalPrincipal: int, totalMonthly: int, income: int)

  datatype Decision = Decision(eligible: bool, reason: Option<PolicyReason>, reasons: seq<PolicyReason>)

  function OpenOn(user: int): Credit -> int {
    (c: Credit) => if c.user == user && c.status != Closed then 1 else 0
  }

  function OverdueOn(user: int): Credit -> int {
    (c: Credit) => if c.user == user && c.status == Overdue then 1 else 0
  }

  function PrincipalOn(user: int): Credit -> int {
    (c: Credit) => if c.user == user && c.status != Closed then c.principal else 0
  }

  function MonthlyOn(user: int): Credit -> int {
    (c: Credit) => if c.user == user && c.status != Closed then c.monthly else 0
  }

  /** The user's active plus overdue credits. */
  function OpenCredits(credits: seq<Credit>, user: int): int {
    Sum(credits, OpenOn(user))
  }

  /** getCreditRiskSummary; the 30-day income depends on the clock and is a parameter. */
  function RiskSummary(credits: seq<Credit>, user: int, income: int): Summary {
    Summary(OpenCredits(credits, user), Sum(credits, OverdueOn(user)),
            Sum(credits, PrincipalOn(user)), Sum(credits, MonthlyOn(user)), income)
  }

  /** addCreditDecisionReason: only the first reason is the headline. */
  function WithReason(d: Decision, reason: PolicyReason): Decision {
    Decision(false, if d.reason.None? then Some(reason) else d.reason, d.reasons + [reason])
  }

  function AddReasonIf(d: Decision, violated: bool, reason: PolicyReason): Decision {
    if violated then WithReason(d, reason) else d
  }

  predicate Exceeds(amount: int, limit: Limit) {
    limit.AtMost? && amount as real > limit.cents
  }

  /** Existing plus requested monthly payments exceed the allowed share of the income. */
  predicate LoadTooHigh(config: Config, s: Summary, monthly: int) {
    && config.maxLoadPercent > 0 && s.income > 0 && s.totalMonthly > 0
    && (s.totalMonthly + monthly) * 100 > s.income * config.maxLoadPercent
  }

  /** buildCreditPolicyDecisionFromSummary; None stands for an unreadable configured limit. */
  function Decide(config: Config, s: Summary, principal: int, monthly: int): Option<Decision> {
    var d := Decision(true, None, []);
    if !config.enabled then Some(d)
    else if config.maxPrincipal.BadLimit? then None
    else
      var d := AddReasonIf(d, Exceeds(principal, config.maxPrincipal), PrincipalLimitExceeded);
      var d := AddReasonIf(d, s.overdue > 0, OverdueCreditExists);
      var d := AddReasonIf(d, config.maxActive > 0 && s.active >= config.maxActive, ActiveLimitExceeded);
      if config.maxTotalPrincipal.BadLimit? then None
      else
        var tooMuch := Exceeds(s.totalPrincipal + principal, config.maxTotalPrincipal);
        var d := AddReasonIf(d, tooMuch, TotalPrincipalLimitExceeded);
        Some(AddReasonIf(d, LoadTooHigh(config, s, monthly), DebtLoadTooHigh))
  }

  /** The response under construction; reasons are added to it in place. */
  class CheckResponse {
    var eligible: bool
    var reason: Option<PolicyReason>
    var reasons: seq<PolicyReason>

    ghost function Contents(): Decision
      reads this
    {
      Decision(eligible, reason, reasons)
    }

    constructor ()
      ensures Contents() == Decision(true, None, [])
    {
      eligible, reason, reasons := true, None, [];
    }

    method AddReason(r: PolicyReason)
      modifies this
      ensures Contents() == WithReason(old(Contents()), r)
    {
      eligible := false;
      if reason.None? {
        reason := Some(r);
      }
      reasons := reasons + [r];
    }
  }

  method BuildDecision(config: Config, s: Summary, principal: int, monthly: int)
    returns (decision: Option<CheckResponse>)
    ensures decision.Some? <==> Decide(config, s, principal, monthly).Some?
    ensures decision.Some? ==>
              fresh(decision.value) && Some(decision.value.Contents()) == Decide(config, s, principal, monthly)
  {
    var response := new CheckResponse();
    if !config.enabled {
      return Some(response);
    }
    if config.maxPrincipal.BadLimit? {
      return None;
    }
    if config.maxPrincipal.AtMost? && principal as real > config.maxPrincipal.cents {
      response.AddReason(PrincipalLimitExceeded);
    }
    if s.overdue > 0 {
      response.AddReason(OverdueCreditExists);
    }
    if config.maxActive > 0 && s.active >= config.maxActive {
      response.AddReason(ActiveLimitExceeded);
    }
    if config.maxTotalPrincipal.BadLimit? {
      return None;
    }
    if config.maxTotalPrincipal.AtMost? && (s.totalPrincipal + principal) as real > config.maxTotalPrincipal.cents {
      response.AddReason(TotalPrincipalLimitExceeded);
    }
    if config.maxLoadPercent > 0 && s.income > 0 && s.totalMonthly > 0 {
      var total, allowed := (s.totalMonthly + monthly) as real, (s.income * config.maxLoadPercent) as real / 100.0;
      if total > allowed {
        response.AddReason(DebtLoadTooHigh);
      }
    }
    return Some(response);
  }

  /** Which limits a request violates. The load compares the existing plus the requested monthly payments with the
      allowed percentage of the income, for a user who has both an income and something to pay. */
  ghost predicate Violated(config: Config, s: Summary, principal: int, monthly: int, reason: PolicyReason) {
    config.enabled &&
    match reason
    case PrincipalLimitExceeded => config.maxPrincipal.AtMost? && principal as real > config.maxPrincipal.cents
    case OverdueCreditExists => s.overdue > 0
    case ActiveLimitExceeded => 0 < config.maxActive <= s.active
    case TotalPrincipalLimitExceeded =>
      config.maxTotalPrincipal.AtMost? && (s.totalPrincipal + principal) as real > config.maxTotalPrincipal.cents
    case DebtLoadTooHigh =>
      && 0 < config.maxLoadPercent && 0 < s.income && 0 < s.totalMonthly
      && 100 * (s.totalMonthly + monthly) > config.maxLoadPercent * s.income
  }

  /** The order in which the limits are checked. */
  function Rank(reason: PolicyReason): int {
    match reason
    case PrincipalLimitExceeded => 0
    case OverdueCreditExists => 1
    case ActiveLimitExceeded => 2
    case TotalPrincipalLimitExceeded => 3
    case DebtLoadTooHigh => 4
  }

  /** Every reason once, in the order of the checks up to `rank`, the first of them the headline. */
  ghost predicate Consistent(d: Decision, rank: int) {
    && (d.eligible <==> d.reasons == [])
    && d.reason == (if d.reasons == [] then None else Some(d.reasons[0]))
    && (forall i, j :: 0 <= i < j < |d.reasons| ==> Rank(d.reasons[i]) < Rank(d.reasons[j]))
    && (forall i :: 0 <= i < |d.reasons| ==> Rank(d.reasons[i]) < rank)
  }

  function Listed(d: Decision): set<PolicyReason> {
    set r | r in d.reasons
  }

  lemma AddReasonIfLists(d: Decision, violated: bool, reason: PolicyReason)
    requires Consistent(d, Rank(reason))
    ensures var d' := AddReasonIf(d, violated, reason);
            && Consistent(d', Rank(reason) + 1)
            && Listed(d') == Listed(d) + ReasonIf(violated, reason)
  {
    assert violated ==> reason in AddReasonIf(d, violated, reason).reasons;
  }

  /** No decision is made exactly when the policy is on and a limit cannot be read. */
  lemma UndecidedIffUnreadable(config: Config, s: Summary, principal: int, monthly: int)
    ensures Decide(config, s, principal, monthly).None?
       <==> config.enabled && (config.maxPrincipal.BadLimit? || config.maxTotalPrincipal.BadLimit?)
  {
  }

  /** A decision is eligible exactly when it lists no reason, it lists exactly the violated limits, each once and in the
      order of the checks, and its headline is the first of them. */
  lemma DecisionListsTheViolations(config: Config, s: Summary, principal: int, monthly: int)
    requires Decide(config, s, principal, monthly).Some?
    ensures var d := Decide(config, s, principal, monthly).value;
            && (d.eligible <==> d.reasons == [])
            && (forall r :: r in d.reasons <==> Violated(config, s, principal, monthly, r))
            && (forall i, j :: 0 <= i < j < |d.reasons| ==> Rank(d.reasons[i]) < Rank(d.reasons[j]))
            && d.reason == (if d.reasons == [] then None else Some(d.reasons[0]))
            && (d.eligible <==> forall r :: !Violated(config, s, principal, monthly, r))
  {
    hide Decide, Violated, Consistent, Listed;
    var d := Decide(config, s, principal, monthly).value;
    DecisionIsConsistent(config, s, principal, monthly);
    ConsistentOrders(d, 5);
    forall r ensures r in d.reasons <==> Violated(config, s, principal, monthly, r) {
      ListedMeansViolated(config, s, principal, monthly, r);
    }
  }

  function ReasonIf(violated: bool, reason: PolicyReason): set<PolicyReason> {
    if violated then {reason} else {}
  }

  lemma DecisionIsConsistent(config: Config, s: Summary, principal: int, monthly: int)
    requires Decide(config, s, principal, monthly).Some?
    ensures var d := Decide(config, s, principal, monthly).value;
            && Consistent(d, 5)
            && Listed(d) == if !config.enabled then {} else
                 ReasonIf(Exceeds(principal, config.maxPrincipal), PrincipalLimitExceeded)
                 + ReasonIf(s.overdue > 0, OverdueCreditExists)
                 + ReasonIf(config.maxActive > 0 && s.active >= config.maxActive, ActiveLimitExceeded)
                 + ReasonIf(Exceeds(s.totalPrincipal + principal, config.maxTotalPrincipal),
                            TotalPrincipalLimitExceeded)
                 + ReasonIf(LoadTooHigh(config, s, monthly), DebtLoadTooHigh)
  {
    hide AddReasonIf, Exceeds, LoadTooHigh, Consistent, Listed, ReasonIf;
    var d0 := Decision(true, None, []);
    NoReasonsYet();
    if config.enabled {
      var v1, v2 := Exceeds(principal, config.maxPrincipal), s.overdue > 0;
      var v3 := config.maxActive > 0 && s.active >= config.maxActive;
      var v4 := Exceeds(s.totalPrincipal + principal, config.maxTotalPrincipal);
      AddReasonIfLists(d0, v1, PrincipalLimitExceeded);
      var d1 := AddReasonIf(d0, v1, PrincipalLimitExceeded);
      AddReasonIfLists(d1, v2, OverdueCreditExists);
      var d2 := AddReasonIf(d1, v2, OverdueCreditExists);
      AddReasonIfLists(d2, v3, ActiveLimitExceeded);
      var d3 := AddReasonIf(d2, v3, ActiveLimitExceeded);
      AddReasonIfLists(d3, v4, TotalPrincipalLimitExceeded);
      var d4 := AddReasonIf(d3, v4, TotalPrincipalLimitExceeded);
      AddReasonIfLists(d4, LoadTooHigh(config, s, monthly), DebtLoadTooHigh);
    }
  }

  lemma ListedMeansViolated(config: Config, s: Summary, principal: int, monthly: int, r: PolicyReason)
    requires Decide(config, s, principal, monthly).Some?
    ensures r in Listed(Decide(config, s, principal, monthly).value) <==> Violated(config, s, principal, monthly, r)
  {
    hide Decide, Listed;
    DecisionIsConsistent(config, s, principal, monthly);
  }

  lemma NoReasonsYet()
    ensures Consistent(Decision(true, None, []), 0) && Consistent(Decision(true, None, []), 5)
    ensures Listed(Decision(true, None, [])) == {}
  {
  }

  lemma ConsistentOrders(d: Decision, rank: int)
    requires Consistent(d, rank)
    ensures d.eligible <==> forall r :: r !in d.reasons
    ensures forall r :: r in d.reasons <==> r in Listed(d)
    ensures d.eligible <==> d.reasons == []
    ensures d.reason == (if d.reasons == [] then None else Some(d.reasons[0]))
    ensures forall i, j :: 0 <= i < j < |d.reasons| ==> Rank(d.reasons[i]) < Rank(d.reasons[j])
  {
    assert d.reasons != [] ==> d.reasons[0] in d.reasons;
  }

  // ----- what the summary counts -----

  /** The user's credits that are not closed. */
  function OpenSet(credits: seq<Credit>, user: int): set<int> {
    set c: int | 0 <= c < |credits| && credits[c].user == user && credits[c].status != Closed
  }

  /** A summary starts at nothing, and a credit adds to it only for its user and only while it is not closed: one, its
      principal, its monthly payment, and one to the overdue count when it is overdue. */
  lemma SummaryOfOneMore(credits: seq<Credit>, c: Credit, user: int, income: int)
    ensures RiskSummary([], user, income) == Summary(0, 0, 0, 0, income)
    ensures var before, after := RiskSummary(credits, user, income), RiskSummary(credits + [c], user, income);
            after == if c.user != user || c.status == Closed then before
                     else Summary(before.active + 1, before.overdue + (if c.status == Overdue then 1 else 0),
                                  before.totalPrincipal + c.principal, before.totalMonthly + c.monthly, income)
  {
    hide Sum;
    SumAppend(credits, c, OpenOn(user));
    SumAppend(credits, c, OverdueOn(user));
    SumAppend(credits, c, PrincipalOn(user));
    SumAppend(credits, c, MonthlyOn(user));
    SumFew(c, c, OpenOn(user));
    SumFew(c, c, OverdueOn(user));
    SumFew(c, c, PrincipalOn(user));
    SumFew(c, c, MonthlyOn(user));
  }

  lemma OneMoreCredit(credits: seq<Credit>, user: int)
    requires credits != []
    ensures var n := |credits| - 1;
            var open := credits[n].user == user && credits[n].status != Closed;
            OpenSet(credits, user) == OpenSet(credits[..n], user) + (if open then {n} else {})
            && n !in OpenSet(credits[..n], user)
  {
  }

  /** The active count of the summary is the number of credits of the user that are not closed. */
  lemma {:induction false} OpenCreditsAreCounted(credits: seq<Credit>, user: int)
    ensures OpenCredits(credits, user) == |OpenSet(credits, user)|
  {
    if credits != [] {
      var n := |credits| - 1;
      hide OpenSet;
      OpenCreditsAreCounted(credits[..n], user);
      OneMoreCredit(credits, user);
    }
  }

  /** The check CreateCredit runs inside its transaction: no error, or the one it fails with. */
  function PolicyError(config: Config, s: Summary, principal: int, monthly: int): Option<Error> {
    match Decide(config, s, principal, monthly)
    case None => Some(InvalidCreditData)
    case Some(d) =>
      if d.eligible then None
      else if d.reason.Some? then Some(PolicyRejected(d.reason.value))
      else Some(InvalidCreditData)
  }

  /** An accepted request leaves room for one more credit. */
  lemma AcceptedBelowLimit(config: Config, s: Summary, principal: int, monthly: int)
    requires config.enabled && config.maxActive > 0
    requires PolicyError(config, s, principal, monthly).None?
    ensures s.active < config.maxActive
  {
    DecisionListsTheViolations(config, s, principal, monthly);
    assert !Violated(config, s, principal, monthly, ActiveLimitExceeded);
  }
}
