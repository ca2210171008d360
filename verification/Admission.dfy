/** Credit admission under concurrency. A creation checks the policy once outside its transaction, then takes the
    user's advisory lock, checks again on what is committed, and commits; everything else commits in between. */
module Admission {
  import opened Tables
  import opened Bank
  import BankRuns
  import Credits
  import Policy

  datatype Phase =
    | Prechecked(req: Credits.Request) // CheckCredit said yes at some earlier moment
    | Locked(req: Credits.Request)     // pg_advisory_xact_lock held
    | Validated(req: Credits.Request)  // the policy closure accepted inside the transaction

  /** Committed tables, who holds each user's advisory lock, and the creations in flight. */
  datatype State = State(db: Db, locks: map<int, nat>, flights: map<nat, Phase>)

  datatype Event =
    | Other(op: Op)                                  // any other operation commits
    | Precheck(pid: nat, req: Credits.Request, income: int)
    | Lock(pid: nat)
    | Validate(pid: nat, income: int)
    | Commit(pid: nat, mfa: int, now: int)
    | Abort(pid: nat)

  predicate Holds(s: State, pid: nat, user: int) { user in s.locks && s.locks[user] == pid }

  /** The transaction ends: the flight is over and its advisory lock is released. */
  function Finish(s: State, pid: nat): State
    requires pid in s.flights
  {
    var user := s.flights[pid].req.user;
    s.(flights := s.flights - {pid}, locks := if Holds(s, pid, user) then s.locks - {user} else s.locks)
  }

  function Accepts(config: Policy.Config, db: Db, req: Credits.Request, income: int): bool {
    Policy.PolicyError(config, Policy.RiskSummary(db.credits, req.user, income), req.principal, req.monthly).None?
  }

  /** One event; an event that is not enabled changes nothing. */
  function Next(config: Policy.Config, s: State, e: Event): State {
    match e
    case Other(op) => if op.Create? then s else s.(db := Step(s.db, op).0)
    case Precheck(pid, req, income) =>
      if pid !in s.flights && Accepts(config, s.db, req, income)
      then s.(flights := s.flights[pid := Prechecked(req)]) else s
    case Lock(pid) =>
      if pid in s.flights && s.flights[pid].Prechecked? && s.flights[pid].req.user !in s.locks
      then s.(flights := s.flights[pid := Locked(s.flights[pid].req)], locks := s.locks[s.flights[pid].req.user := pid])
      else s
    case Validate(pid, income) =>
      if pid in s.flights && s.flights[pid].Locked? then
        if Accepts(config, s.db, s.flights[pid].req, income)
        then s.(flights := s.flights[pid := Validated(s.flights[pid].req)])
        else Finish(s, pid)
      else s
    case Commit(pid, mfa, now) =>
      if pid in s.flights && s.flights[pid].Validated?
      then Finish(s.(db := Credits.Issue(s.db, s.flights[pid].req, mfa, now).0), pid)
      else s
    case Abort(pid) => if pid in s.flights then Finish(s, pid) else s
  }

  function Run(config: Policy.Config, s: State, events: seq<Event>): State {
    if events == [] then s else Next(config, Run(config, s, events[..|events| - 1]), events[|events| - 1])
  }

  const START := State(EMPTY, map[], map[])

  /** No user is above the limit, and a validated creation holds its user's lock and has room. */
  ghost predicate Admitted(config: Policy.Config, s: State) {
    && Inv(s.db)
    && (forall user: int :: Policy.OpenCredits(s.db.credits, user) <= config.maxActive)
    && (forall pid :: pid in s.flights && !s.flights[pid].Prechecked? ==> Holds(s, pid, s.flights[pid].req.user))
    && (forall pid :: pid in s.flights && s.flights[pid].Validated? ==>
          Policy.OpenCredits(s.db.credits, s.flights[pid].req.user) < config.maxActive)
  }

  lemma OtherKeepsAdmitted(config: Policy.Config, s: State, op: Op)
    requires Admitted(config, s) && !op.Create?
    ensures Admitted(config, s.(db := Step(s.db, op).0))
  {
    hide Inv, Policy.OpenCredits, Step;
    StepKeepsInv(s.db, op);
    forall user: int
      ensures Policy.OpenCredits(Step(s.db, op).0.credits, user) <= Policy.OpenCredits(s.db.credits, user)
    {
      BankRuns.OpenCreditsStep(s.db, op, user);
    }
  }

  lemma CommitKeepsAdmitted(config: Policy.Config, s: State, pid: nat, mfa: int, now: int)
    requires Admitted(config, s) && pid in s.flights && s.flights[pid].Validated?
    ensures Admitted(config, Next(config, s, Commit(pid, mfa, now)))
  {
    hide Inv, Policy.OpenCredits, Step;
    var req := s.flights[pid].req;
    var (db', outcome) := Credits.Issue(s.db, req, mfa, now);
    IssueKeepsInv(s.db, req, mfa, now);
    if outcome.Done? {
      forall user: int
        ensures Policy.OpenCredits(db'.credits, user)
             == Policy.OpenCredits(s.db.credits, user) + if user == req.user then 1 else 0
      {
        BankRuns.OpenCreditsIssue(s.db, req, mfa, now, user);
      }
    }
  }

  lemma ValidateKeepsAdmitted(config: Policy.Config, s: State, pid: nat, income: int)
    requires config.enabled && config.maxActive > 0 && Admitted(config, s)
    ensures Admitted(config, Next(config, s, Validate(pid, income)))
  {
    hide Inv, Policy.OpenCredits;
    if pid in s.flights && s.flights[pid].Locked? && Accepts(config, s.db, s.flights[pid].req, income) {
      var req := s.flights[pid].req;
      Policy.AcceptedBelowLimit(config, Policy.RiskSummary(s.db.credits, req.user, income), req.principal, req.monthly);
    }
  }

  lemma NextKeepsAdmitted(config: Policy.Config, s: State, e: Event)
    requires config.enabled && config.maxActive > 0 && Admitted(config, s)
    ensures Admitted(config, Next(config, s, e))
  {
    hide Inv, Policy.OpenCredits, Accepts, Step;
    match e
    case Other(op) => if !op.Create? { OtherKeepsAdmitted(config, s, op); }
    case Commit(pid, mfa, now) =>
      if pid in s.flights && s.flights[pid].Validated? { CommitKeepsAdmitted(config, s, pid, mfa, now); }
    case Validate(pid, income) => ValidateKeepsAdmitted(config, s, pid, income);
    case Precheck(_, _, _) =>
    case Lock(_) =>
    case Abort(_) =>
  }

  /** Over every interleaving, with the policy on and a positive limit, no user's active plus overdue credits
      exceed MaxActiveCredits, however stale the check outside the transaction was. */
  lemma {:induction false} NoUserExceedsTheLimit(config: Policy.Config, events: seq<Event>, user: int)
    requires config.enabled && config.maxActive > 0
    ensures |Policy.OpenSet(Run(config, START, events).db.credits, user)| <= config.maxActive
  {
    AlwaysAdmitted(config, events);
    Policy.OpenCreditsAreCounted(Run(config, START, events).db.credits, user);
  }

  lemma StartIsAdmitted(config: Policy.Config)
    requires config.maxActive > 0
    ensures Admitted(config, START)
  {
    hide Inv;
    EmptyIsSound();
  }

  lemma {:induction false} AlwaysAdmitted(config: Policy.Config, events: seq<Event>)
    requires config.enabled && config.maxActive > 0
    ensures Admitted(config, Run(config, START, events))
  {
    if events == [] {
      StartIsAdmitted(config);
    } else {
      hide Admitted, Next;
      AlwaysAdmitted(config, events[..|events| - 1]);
      NextKeepsAdmitted(config, Run(config, START, events[..|events| - 1]), events[|events| - 1]);
    }
  }

  /** An atomic creation is the uninterrupted run of its phases. */
  lemma AtomicCreateIsOneFlight(
      config: Policy.Config, s: State, pid: nat, req: Credits.Request, income: int, mfa: int, now: int)
    requires pid !in s.flights && req.user !in s.locks
    requires 0 < |req.dates| <= Credits.MAX_TERM && LockAccount(s.db.accounts, req.account, req.user).None?
    ensures var flight := [Precheck(pid, req, income), Lock(pid), Validate(pid, income), Commit(pid, mfa, now)];
            var s' := Run(config, s, flight);
            && s'.db == Credits.Create(s.db, config, income, req, mfa, now).0
            && s'.flights == s.flights && s'.locks == s.locks
  {
    hide Credits.Issue, Policy.PolicyError, Policy.RiskSummary, Step, Next;
    var e1, e2, e3, e4 := Precheck(pid, req, income), Lock(pid), Validate(pid, income), Commit(pid, mfa, now);
    RunFour(config, s, e1, e2, e3, e4);
    FlightReachesItsLock(config, s, pid, req, income);
    if Accepts(config, s.db, req, income) {
      FlightLands(config, s, pid, req, income, mfa, now);
    } else {
      NobodyFlies(config, s, pid);
    }
  }

  lemma NobodyFlies(config: Policy.Config, s: State, pid: nat)
    requires pid !in s.flights
    ensures Next(config, s, Lock(pid)) == s
    ensures forall income :: Next(config, s, Validate(pid, income)) == s
    ensures forall mfa, now :: Next(config, s, Commit(pid, mfa, now)) == s
  {
  }

  lemma FlightReachesItsLock(config: Policy.Config, s: State, pid: nat, req: Credits.Request, income: int)
    requires pid !in s.flights && req.user !in s.locks
    ensures Next(config, Next(config, s, Precheck(pid, req, income)), Lock(pid)) ==
            if Accepts(config, s.db, req, income)
            then s.(flights := s.flights[pid := Locked(req)], locks := s.locks[req.user := pid]) else s
  {
  }

  lemma FlightLands(config: Policy.Config, s: State, pid: nat, req: Credits.Request, income: int, mfa: int, now: int)
    requires pid !in s.flights && req.user !in s.locks && Accepts(config, s.db, req, income)
    ensures var locked := s.(flights := s.flights[pid := Locked(req)], locks := s.locks[req.user := pid]);
            Next(config, Next(config, locked, Validate(pid, income)), Commit(pid, mfa, now)) ==
            s.(db := Credits.Issue(s.db, req, mfa, now).0)
  {
    hide Credits.Issue, Accepts;
    var flying := s.flights[pid := Validated(req)];
    assert flying - {pid} == s.flights && s.locks[req.user := pid] - {req.user} == s.locks;
  }

  lemma RunFour(config: Policy.Config, s: State, e1: Event, e2: Event, e3: Event, e4: Event)
    ensures Run(config, s, [e1, e2, e3, e4])
         == Next(config, Next(config, Next(config, Next(config, s, e1), e2), e3), e4)
  {
    hide Next;
    assert [e1, e2, e3, e4][..3] == [e1, e2, e3] && [e1, e2, e3][..2] == [e1, e2];
    assert [e1, e2][..1] == [e1] && [e1][..0] == [];
    assert Run(config, s, []) == s;
    assert Run(config, s, [e1, e2]) == Next(config, Run(config, s, [e1]), e2);
    assert Run(config, s, [e1, e2, e3]) == Next(config, Run(config, s, [e1, e2]), e3);
  }
}
