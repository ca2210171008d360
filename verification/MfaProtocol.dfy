/** One-time codes under concurrency: issuing a code spends the earlier ones it sees and then inserts, so two issues can
    overlap; a request verifies a code in one transaction and spends it in another, together with the operation's own
    writes, which may still fail and roll the spending back. */
module MfaProtocol {
  import opened Basics
  import opened Tables
  import opened Mfa
  import opened OperationHash

  /** A user's operation and the code it is confirmed with. */
  datatype Claim = Claim(user: nat, op: Operation, code: int)

  /** SaveCode between its UPDATE and its commit: the new code, and the codes the UPDATE saw. */
  datatype Issue = Issue(user: nat, op: Operation, code: Code, spends: set<int>)

  /** The table, the clock, issues and verified requests in flight, what each id was issued for, and the committed
      operations. */
  datatype State = State(
    codes: CodeTable, clock: int, issuing: map<nat, Issue>, holders: map<nat, Claim>,
    issued: map<int, (nat, Operation)>, commits: seq<Claim>)

  datatype Event =
    | IssueStart(p: nat, user: nat, op: Operation, secret: string, expires: int, now: int)
    | IssueCommit(p: nat, now: int)
    | IssueAbort(p: nat, now: int)
    | Verify(p: nat, claim: Claim, guess: string, now: int)
    | Commit(p: nat, ok: bool, now: int) // ok: the operation's other writes succeed
    | DeleteExpired(now: int)
    | Tick(now: int)

  const START := State(EMPTY.codes, 0, map[], map[], map[], [])

  /** One event. The database clock never runs backwards, and an event that is not enabled changes nothing. */
  ghost function Next(s: State, e: Event): State {
    if e.now < s.clock then s else Act(s.(clock := e.now), e)
  }

  ghost function Act(s: State, e: Event): State {
    match e
    case IssueStart(p, user, op, secret, expires, now) =>
      if p in s.issuing then s
      else
        var code := Code(user, Describe(user, op), secret, now, expires, false);
        s.(issuing := s.issuing[p := Issue(user, op, code, ActiveIds(s.codes, user, Describe(user, op), now))])
    case IssueCommit(p, now) =>
      if p !in s.issuing then s
      else
        var issue := s.issuing[p];
        s.(codes := Replace(s.codes, issue.spends, issue.code), issuing := s.issuing - {p},
           issued := s.issued[s.codes.next := (issue.user, issue.op)])
    case IssueAbort(p, now) => s.(issuing := s.issuing - {p})
    case Verify(p, claim, guess, now) =>
      if p !in s.holders && Found(s.codes, claim.code, claim.user, Describe(claim.user, claim.op), now)
         && s.codes.rows[claim.code].secret == guess
      then s.(holders := s.holders[p := claim]) else s
    case Commit(p, ok, now) =>
      if p !in s.holders then s
      else
        var claim := s.holders[p];
        var codes := Consume(s.codes, Some(claim.code), now);
        if codes.Some? && ok
        then s.(codes := codes.value, holders := s.holders - {p}, commits := s.commits + [claim])
        else s.(holders := s.holders - {p})
    case DeleteExpired(now) => s.(codes := Purge(s.codes, now))
    case Tick(_) => s
  }

  ghost function Run(s: State, events: seq<Event>): State {
    if events == [] then s else Next(Run(s, events[..|events| - 1]), events[|events| - 1])
  }

  // ----- invariant -----

  predicate IssuedFor(s: State, claim: Claim) {
    claim.code in s.issued && s.issued[claim.code] == (claim.user, claim.op)
  }

  predicate Unspent(codes: CodeTable, id: int) {
    id in codes.rows && !codes.rows[id].used
  }

  /** A row is one of the issued codes and still describes what it was issued for. */
  predicate RowIsIssued(s: State, id: int) {
    && id < s.codes.next && id in s.issued
    && s.codes.rows.Keys >= {id}
    && s.codes.rows[id].user == s.issued[id].0
    && s.codes.rows[id].operation == Describe(s.issued[id].0, s.issued[id].1)
  }

  predicate IssueDescribes(issue: Issue) {
    issue.code.user == issue.user && issue.code.operation == Describe(issue.user, issue.op) && !issue.code.used
  }

  ghost predicate Safe(s: State) {
    && (forall id :: id in s.codes.rows ==> RowIsIssued(s, id))
    && (forall id :: id in s.issued ==> id < s.codes.next)
    && (forall p :: p in s.issuing ==> IssueDescribes(s.issuing[p]))
    && (forall p :: p in s.holders ==> IssuedFor(s, s.holders[p]))
    && (forall i :: 0 <= i < |s.commits| ==> IssuedFor(s, s.commits[i]) && !Unspent(s.codes, s.commits[i].code))
    && (forall i, j :: 0 <= i < j < |s.commits| ==> s.commits[i].code != s.commits[j].code)
  }

  /** At most one usable code per user and operation. */
  ghost predicate OneActive(s: State) {
    forall a, b, user: nat, operation ::
      Mfa.Active(s.codes, a, user, operation, s.clock) && Mfa.Active(s.codes, b, user, operation, s.clock) ==> a == b
  }

  lemma IssueIsSafe(s: State, e: Event)
    requires Safe(s) && (e.IssueStart? || e.IssueCommit? || e.IssueAbort?)
    ensures Safe(Act(s, e))
  {
    hide Describe;
    var s' := Act(s, e);
    forall id | id in s'.codes.rows ensures RowIsIssued(s', id) {
      if id != s.codes.next {
        assert RowIsIssued(s, id);
      }
    }
  }

  lemma VerifyIsSafe(s: State, e: Event)
    requires Safe(s) && e.Verify?
    ensures Safe(Act(s, e))
  {
    hide Describe;
    var claim := e.claim;
    if Found(s.codes, claim.code, claim.user, Describe(claim.user, claim.op), e.now) {
      assert RowIsIssued(s, claim.code);
      DescriptionDetermines(s.issued[claim.code].0, s.issued[claim.code].1, claim.user, claim.op);
    }
  }

  lemma CommitIsSafe(s: State, e: Event)
    requires Safe(s) && e.Commit?
    ensures Safe(Act(s, e))
  {
    hide Describe;
    var s' := Act(s, e);
    forall id | id in s'.codes.rows ensures RowIsIssued(s', id) {
      assert RowIsIssued(s, id);
    }
  }

  lemma PurgeIsSafe(s: State, e: Event)
    requires Safe(s) && e.DeleteExpired?
    ensures Safe(Act(s, e))
  {
    hide Describe;
    var s' := Act(s, e);
    forall id | id in s'.codes.rows ensures RowIsIssued(s', id) {
      assert RowIsIssued(s, id);
    }
  }

  lemma TickIsNothing(s: State, e: Event)
    requires e.Tick?
    ensures Act(s, e) == s
  {
  }

  lemma NextIsSafe(s: State, e: Event)
    requires Safe(s)
    ensures Safe(Next(s, e))
  {
    hide Act;
    if s.clock <= e.now {
      var t := s.(clock := e.now);
      assert Safe(t) by {
        forall id | id in t.codes.rows ensures RowIsIssued(t, id) {
          assert RowIsIssued(s, id);
        }
        forall p | p in t.holders ensures IssuedFor(t, t.holders[p]) {
          assert IssuedFor(s, s.holders[p]);
        }
        forall i | 0 <= i < |t.commits| ensures IssuedFor(t, t.commits[i]) {
          assert IssuedFor(s, s.commits[i]);
        }
      }
      match e
      case IssueStart(_, _, _, _, _, _) => IssueIsSafe(t, e);
      case IssueCommit(_, _) => IssueIsSafe(t, e);
      case IssueAbort(_, _) => IssueIsSafe(t, e);
      case Verify(_, _, _, _) => VerifyIsSafe(t, e);
      case Commit(_, _, _) => CommitIsSafe(t, e);
      case DeleteExpired(_) => PurgeIsSafe(t, e);
      case Tick(_) => TickIsNothing(t, e);
    }
  }

  lemma {:induction false} AlwaysSafe(events: seq<Event>)
    ensures Safe(Run(START, events))
  {
    if events != [] {
      AlwaysSafe(events[..|events| - 1]);
      NextIsSafe(Run(START, events[..|events| - 1]), events[|events| - 1]);
    }
  }

  /** Over every interleaving a code is spent by at most one committed operation, by the user it was issued to,
      with exactly the operation data it was issued for. */
  lemma {:induction false} SingleUse(events: seq<Event>, i: nat)
    requires i < |Run(START, events).commits|
    ensures var s := Run(START, events);
            && s.commits[i].code in s.issued
            && s.issued[s.commits[i].code] == (s.commits[i].user, s.commits[i].op)
            && forall j :: 0 <= j < |s.commits| && j != i ==> s.commits[j].code != s.commits[i].code
  {
    AlwaysSafe(events);
    assert IssuedFor(Run(START, events), Run(START, events).commits[i]);
  }

  // ----- what every committed operation went through -----

  /** A code with this secret and expiry was requested for the operation. */
  ghost predicate WasIssued(events: seq<Event>, user: nat, op: Operation, secret: string, expires: int) {
    exists m ::
      && 0 <= m < |events| && events[m].IssueStart?
      && events[m].user == user && events[m].op == op && events[m].secret == secret && events[m].expires == expires
  }

  /** A request for the operation entered the secret of a code requested earlier for it, before its expiry. */
  ghost predicate WasVerified(events: seq<Event>, claim: Claim, expires: int) {
    exists j ::
      && 0 <= j < |events| && events[j].Verify? && events[j].claim == claim && events[j].now < expires
      && WasIssued(events[..j], claim.user, claim.op, events[j].guess, expires)
  }

  /** And after that it was committed, still before the expiry. */
  ghost predicate WasConfirmed(events: seq<Event>, claim: Claim) {
    exists k, expires :: 0 <= k < |events| && ConfirmedAt(events, claim, k, expires)
  }

  ghost predicate ConfirmedAt(events: seq<Event>, claim: Claim, k: nat, expires: int)
    requires k < |events|
  {
    events[k].Commit? && events[k].ok && events[k].now < expires && WasVerified(events[..k], claim, expires)
  }

  lemma IssuedStays(events: seq<Event>, e: Event, user: nat, op: Operation, secret: string, expires: int)
    requires WasIssued(events, user, op, secret, expires)
    ensures WasIssued(events + [e], user, op, secret, expires)
  {
    var m :| 0 <= m < |events| && events[m].IssueStart? && events[m].user == user && events[m].op == op
             && events[m].secret == secret && events[m].expires == expires;
    assert (events + [e])[m] == events[m];
  }

  lemma VerifiedStays(events: seq<Event>, e: Event, claim: Claim, expires: int)
    requires WasVerified(events, claim, expires)
    ensures WasVerified(events + [e], claim, expires)
  {
    var j :| 0 <= j < |events| && events[j].Verify? && events[j].claim == claim && events[j].now < expires
             && WasIssued(events[..j], claim.user, claim.op, events[j].guess, expires);
    assert (events + [e])[j] == events[j] && (events + [e])[..j] == events[..j];
  }

  lemma ConfirmedStays(events: seq<Event>, e: Event, claim: Claim)
    requires WasConfirmed(events, claim)
    ensures WasConfirmed(events + [e], claim)
  {
    var k, expires :| 0 <= k < |events| && ConfirmedAt(events, claim, k, expires);
    assert (events + [e])[k] == events[k] && (events + [e])[..k] == events[..k];
    assert ConfirmedAt(events + [e], claim, k, expires);
  }

  /** The row's code was requested for what it was issued for. */
  ghost predicate RowTrail(events: seq<Event>, s: State, id: int) {
    id in s.codes.rows && id in s.issued ==>
      WasIssued(events, s.issued[id].0, s.issued[id].1, s.codes.rows[id].secret, s.codes.rows[id].expires)
  }

  ghost predicate IssueTrail(events: seq<Event>, s: State, p: nat) {
    p in s.issuing ==>
      WasIssued(events, s.issuing[p].user, s.issuing[p].op, s.issuing[p].code.secret, s.issuing[p].code.expires)
  }

  ghost predicate HolderTrail(events: seq<Event>, s: State, p: nat) {
    p in s.holders && s.holders[p].code in s.codes.rows ==>
      WasVerified(events, s.holders[p], s.codes.rows[s.holders[p].code].expires)
  }

  ghost predicate CommitTrail(events: seq<Event>, s: State, i: int) {
    0 <= i < |s.commits| ==> WasConfirmed(events, s.commits[i])
  }

  ghost predicate Trails(events: seq<Event>, s: State) {
    && (forall id :: RowTrail(events, s, id))
    && (forall p :: IssueTrail(events, s, p))
    && (forall p :: HolderTrail(events, s, p))
    && (forall i :: CommitTrail(events, s, i))
  }

  lemma NextKeepsIssueTrail(events: seq<Event>, s: State, e: Event, p: nat)
    requires IssueTrail(events, s, p)
    ensures IssueTrail(events + [e], Next(s, e), p)
  {
    hide Describe, WasIssued, Found, ActiveIds;
    if p in Next(s, e).issuing {
      if p in s.issuing {
        var issue := s.issuing[p];
        IssuedStays(events, e, issue.user, issue.op, issue.code.secret, issue.code.expires);
      } else {
        assert (events + [e])[|events|] == e;
        IssuedNow(events, e);
      }
    }
  }

  lemma IssuedNow(events: seq<Event>, e: Event)
    requires e.IssueStart?
    ensures WasIssued(events + [e], e.user, e.op, e.secret, e.expires)
  {
    assert (events + [e])[|events|] == e;
  }

  lemma NextKeepsRowTrail(events: seq<Event>, s: State, e: Event, id: int)
    requires Safe(s) && RowTrail(events, s, id) && (e.IssueCommit? ==> IssueTrail(events, s, e.p))
    ensures RowTrail(events + [e], Next(s, e), id)
  {
    hide Describe, WasIssued, Found, ActiveIds;
    var s' := Next(s, e);
    if id in s'.codes.rows && id in s'.issued {
      if e.IssueCommit? && id == s.codes.next && e.p in s.issuing && s.clock <= e.now {
        var issue := s.issuing[e.p];
        IssuedStays(events, e, issue.user, issue.op, issue.code.secret, issue.code.expires);
      } else {
        assert id in s.codes.rows && RowIsIssued(s, id);
        IssuedStays(events, e, s.issued[id].0, s.issued[id].1, s.codes.rows[id].secret, s.codes.rows[id].expires);
      }
    }
  }

  lemma NextKeepsHolderTrail(events: seq<Event>, s: State, e: Event, p: nat)
    requires Safe(s) && HolderTrail(events, s, p)
    requires e.Verify? ==> RowTrail(events, s, e.claim.code)
    ensures HolderTrail(events + [e], Next(s, e), p)
  {
    hide Describe, WasIssued, WasVerified, ActiveIds;
    var s' := Next(s, e);
    if p in s'.holders && s'.holders[p].code in s'.codes.rows {
      var claim := s'.holders[p];
      if p in s.holders {
        assert IssuedFor(s, claim);
        assert claim.code in s.codes.rows;
        VerifiedStays(events, e, claim, s.codes.rows[claim.code].expires);
      } else {
        assert RowIsIssued(s, claim.code);
        DescriptionDetermines(s.issued[claim.code].0, s.issued[claim.code].1, claim.user, claim.op);
        VerifiedNow(events, e, s.codes.rows[claim.code].expires);
      }
    }
  }

  lemma VerifiedNow(events: seq<Event>, e: Event, expires: int)
    requires e.Verify? && e.now < expires && WasIssued(events, e.claim.user, e.claim.op, e.guess, expires)
    ensures WasVerified(events + [e], e.claim, expires)
  {
    assert (events + [e])[|events|] == e && (events + [e])[..|events|] == events;
  }

  lemma NextKeepsCommitTrail(events: seq<Event>, s: State, e: Event, i: int)
    requires CommitTrail(events, s, i) && (e.Commit? ==> HolderTrail(events, s, e.p))
    ensures CommitTrail(events + [e], Next(s, e), i)
  {
    hide Describe, WasConfirmed, WasVerified, Found, ActiveIds;
    if 0 <= i < |Next(s, e).commits| {
      if i < |s.commits| {
        ConfirmedStays(events, e, s.commits[i]);
      } else {
        ConfirmedNow(events, e, s.holders[e.p], s.codes.rows[s.holders[e.p].code].expires);
      }
    }
  }

  lemma ConfirmedNow(events: seq<Event>, e: Event, claim: Claim, expires: int)
    requires e.Commit? && e.ok && e.now < expires && WasVerified(events, claim, expires)
    ensures WasConfirmed(events + [e], claim)
  {
    assert (events + [e])[|events|] == e && (events + [e])[..|events|] == events;
    assert ConfirmedAt(events + [e], claim, |events|, expires);
  }

  lemma {:induction false} AlwaysTrails(events: seq<Event>)
    ensures Trails(events, Run(START, events))
  {
    if events != [] {
      hide Next, Safe, RowTrail, IssueTrail, HolderTrail, CommitTrail;
      var front, e := events[..|events| - 1], events[|events| - 1];
      var s := Run(START, front);
      AlwaysTrails(front);
      AlwaysSafe(front);
      assert events == front + [e];
      forall id ensures RowTrail(events, Next(s, e), id) {
        assert RowTrail(front, s, id) && (e.IssueCommit? ==> IssueTrail(front, s, e.p));
        NextKeepsRowTrail(front, s, e, id);
      }
      forall p ensures IssueTrail(events, Next(s, e), p) {
        NextKeepsIssueTrail(front, s, e, p);
      }
      forall p ensures HolderTrail(events, Next(s, e), p) {
        assert HolderTrail(front, s, p) && (e.Verify? ==> RowTrail(front, s, e.claim.code));
        NextKeepsHolderTrail(front, s, e, p);
      }
      forall i ensures CommitTrail(events, Next(s, e), i) {
        assert CommitTrail(front, s, i) && (e.Commit? ==> HolderTrail(front, s, e.p));
        NextKeepsCommitTrail(front, s, e, i);
      }
    }
  }

  /** Over every interleaving a committed operation was confirmed: its user entered the secret of a code that had been
      requested for exactly that operation, and both that and the commit came before the code expired. */
  lemma CommitsAreConfirmed(events: seq<Event>, i: nat)
    requires i < |Run(START, events).commits|
    ensures WasConfirmed(events, Run(START, events).commits[i])
  {
    AlwaysTrails(events);
    assert CommitTrail(events, Run(START, events), i);
  }

  // ----- how many codes are active -----

  /** No two issues for the same user and operation overlap. */
  ghost predicate Serial(s: State, e: Event) {
    e.IssueStart? ==> forall p :: p in s.issuing ==> (s.issuing[p].user, s.issuing[p].op) != (e.user, e.op)
  }

  ghost predicate SerialRun(events: seq<Event>) {
    forall i :: 0 <= i < |events| ==> Serial(Run(START, events[..i]), events[i])
  }

  /** An issue in flight is alone for its operation and will spend every code of it that is still active. */
  ghost predicate SpendsAll(s: State, p: nat) {
    p in s.issuing ==>
      var issue := s.issuing[p];
      && (forall id :: Mfa.Active(s.codes, id, issue.user, issue.code.operation, s.clock) ==> id in issue.spends)
      && (forall q :: q in s.issuing && q != p ==> (s.issuing[q].user, s.issuing[q].op) != (issue.user, issue.op))
  }

  ghost predicate Tidy(s: State) {
    OneActive(s) && forall p :: SpendsAll(s, p)
  }

  lemma NextKeepsSpendsAll(s: State, e: Event, p: nat)
    requires Safe(s) && Tidy(s) && Serial(s, e)
    ensures SpendsAll(Next(s, e), p)
  {
    hide Describe;
    var s' := Next(s, e);
    assert SpendsAll(s, p);
    if p in s'.issuing && p in s.issuing {
      var issue := s.issuing[p];
      assert IssueDescribes(issue);
      forall id | Mfa.Active(s'.codes, id, issue.user, issue.code.operation, s'.clock) ensures id in issue.spends {
        if e.IssueCommit? && e.p in s.issuing && e.now >= s.clock && id == s.codes.next {
          var other := s.issuing[e.p];
          assert IssueDescribes(other) && (other.user, other.op) != (issue.user, issue.op);
          OtherDescription(other.user, other.op, issue.user, issue.op);
        } else {
          assert Mfa.Active(s.codes, id, issue.user, issue.code.operation, s.clock);
        }
      }
    }
  }

  lemma NextKeepsOneActive(s: State, e: Event)
    requires Safe(s) && Tidy(s)
    ensures OneActive(Next(s, e))
  {
    hide Describe;
    var s' := Next(s, e);
    forall a, b, user: nat, operation
      | Mfa.Active(s'.codes, a, user, operation, s'.clock) && Mfa.Active(s'.codes, b, user, operation, s'.clock)
      ensures a == b
    {
      if e.IssueCommit? && s.clock <= e.now && e.p in s.issuing {
        var issue := s.issuing[e.p];
        assert SpendsAll(s, e.p) && IssueDescribes(issue);
        assert a != s.codes.next ==> Mfa.Active(s.codes, a, user, operation, s.clock);
        assert b != s.codes.next ==> Mfa.Active(s.codes, b, user, operation, s.clock);
      } else {
        assert Mfa.Active(s.codes, a, user, operation, s.clock) && Mfa.Active(s.codes, b, user, operation, s.clock);
      }
    }
  }

  /** While issues for the same user and operation do not overlap, a lookup has one answer: at any moment a user has at
      most one usable code for an operation. */
  lemma {:induction false} AlwaysOneActive(events: seq<Event>)
    requires SerialRun(events)
    ensures Tidy(Run(START, events)) && OneActive(Run(START, events))
  {
    if events != [] {
      hide Next, Tidy;
      var n := |events| - 1;
      var front := events[..n];
      assert forall i :: 0 <= i < n ==> front[..i] == events[..i] && front[i] == events[i];
      AlwaysOneActive(front);
      AlwaysSafe(front);
      assert Serial(Run(START, events[..n]), events[n]);
      TidyStep(Run(START, front), events[n]);
    } else {
      assert Tidy(START);
    }
  }

  lemma TidyStep(s: State, e: Event)
    requires Safe(s) && Tidy(s) && Serial(s, e)
    ensures Tidy(Next(s, e)) && OneActive(Next(s, e))
  {
    hide Next;
    NextKeepsOneActive(s, e);
    forall p ensures SpendsAll(Next(s, e), p) {
      NextKeepsSpendsAll(s, e, p);
    }
  }

  /** Neither commits nor drops the issue of p. */
  predicate LeavesInFlight(events: seq<Event>, p: nat) {
    forall i :: 0 <= i < |events| ==>
      !(events[i].IssueCommit? && events[i].p == p) && !(events[i].IssueAbort? && events[i].p == p)
  }

  /** Codes that existed at the start only fade, and an issue in flight stays as it was. */
  lemma {:induction false} OldCodesFade(
      s: State, events: seq<Event>, p: nat, id: int, user: int, operation: string, t: int)
    requires Safe(s) && p in s.issuing && LeavesInFlight(events, p)
    ensures var mid := Run(s, events);
            && Safe(mid) && s.clock <= mid.clock && s.codes.next <= mid.codes.next
            && p in mid.issuing && mid.issuing[p] == s.issuing[p]
            && (id < s.codes.next && Mfa.Active(mid.codes, id, user, operation, t) ==>
                  Mfa.Active(s.codes, id, user, operation, t))
  {
    hide Describe, Found;
    if events != [] {
      var front, e := events[..|events| - 1], events[|events| - 1];
      assert forall i :: 0 <= i < |front| ==> front[i] == events[i];
      OldCodesFade(s, front, p, id, user, operation, t);
      NextIsSafe(Run(s, front), e);
      assert !(e.IssueCommit? && e.p == p) && !(e.IssueAbort? && e.p == p);
    }
  }

  /** A code commits as the only active one of its operation exactly when no code issued since its UPDATE is still
      active for that operation: no other issue of it committed a still usable code in between. */
  lemma IssueLeavesOneIff(
      s: State, p: nat, user: nat, op: Operation, secret: string, expires: int, now: int, events: seq<Event>, t: int)
    requires Safe(s) && p !in s.issuing && s.clock <= now && LeavesInFlight(events, p)
    requires Run(Next(s, IssueStart(p, user, op, secret, expires, now)), events).clock <= t < expires
    ensures var mid := Run(Next(s, IssueStart(p, user, op, secret, expires, now)), events);
            var after := Next(mid, IssueCommit(p, t));
            && Mfa.Active(after.codes, mid.codes.next, user, Describe(user, op), t)
            && ((forall id :: Mfa.Active(after.codes, id, user, Describe(user, op), t) ==> id == mid.codes.next)
                <==> (forall id :: s.codes.next <= id ==> !Mfa.Active(mid.codes, id, user, Describe(user, op), t)))
  {
    hide Describe, Run, Found;
    var operation := Describe(user, op);
    var started := Next(s, IssueStart(p, user, op, secret, expires, now));
    NextIsSafe(s, IssueStart(p, user, op, secret, expires, now));
    var mid := Run(started, events);
    OldCodesFade(started, events, p, 0, user, operation, t);
    forall id | id < s.codes.next && Mfa.Active(mid.codes, id, user, operation, t)
      ensures id in started.issuing[p].spends
    {
      OldCodesFade(started, events, p, id, user, operation, t);
    }
    forall id | id in started.issuing[p].spends ensures id < s.codes.next {
      assert RowIsIssued(s, id);
    }
    CodesBelowNext(mid);
    CommitActivates(mid, p, t);
  }

  lemma CodesBelowNext(s: State)
    requires Safe(s)
    ensures forall id :: id in s.codes.rows ==> id < s.codes.next
  {
    forall id | id in s.codes.rows ensures id < s.codes.next {
      assert RowIsIssued(s, id);
    }
  }

  /** What is active for an operation once an issue of it has committed: the new code, and what its UPDATE did not
      see. */
  lemma CommitActivates(s: State, p: nat, t: int)
    requires p in s.issuing && s.clock <= t < s.issuing[p].code.expires
    requires s.issuing[p].code.user == s.issuing[p].user && !s.issuing[p].code.used
    requires forall id :: id in s.codes.rows ==> id < s.codes.next
    ensures var issue := s.issuing[p];
            forall id :: Mfa.Active(Next(s, IssueCommit(p, t)).codes, id, issue.user, issue.code.operation, t) <==>
              id == s.codes.next
              || (id !in issue.spends && Mfa.Active(s.codes, id, issue.user, issue.code.operation, t))
  {
  }

  /** Of several active codes the lookup finds the latest: a newly committed one that was created after all others is
      the only one that can be verified. */
  lemma LatestCodeIsFound(s: State, p: nat, id: int, t: int)
    requires Safe(s) && p in s.issuing && s.clock <= t < s.issuing[p].code.expires
    requires var issue := s.issuing[p];
             forall other :: Mfa.Active(s.codes, other, issue.user, issue.code.operation, t) ==>
               s.codes.rows[other].created < issue.code.created
    ensures var issue := s.issuing[p];
            Found(Next(s, IssueCommit(p, t)).codes, id, issue.user, issue.code.operation, t) <==> id == s.codes.next
  {
    hide Describe;
    assert IssueDescribes(s.issuing[p]);
    CodesBelowNext(s);
    CommitActivates(s, p, t);
    var issue, after := s.issuing[p], Next(s, IssueCommit(p, t));
    assert Mfa.Active(after.codes, s.codes.next, issue.user, issue.code.operation, t);
    forall other | Mfa.Active(after.codes, other, issue.user, issue.code.operation, t) && other != s.codes.next
      ensures after.codes.rows[other].created < issue.code.created
    {
      assert Mfa.Active(s.codes, other, issue.user, issue.code.operation, t);
    }
  }

  /** Two issues that both look before either commits leave two usable codes for the operation. */
  lemma OverlappingIssuesLeaveTwo(s: State, p: nat, q: nat, user: nat, op: Operation, secret: string, expires: int)
    requires Safe(s) && p != q && p !in s.issuing && q !in s.issuing && s.clock < expires
    ensures var now := s.clock;
            var s' := Next(Next(Next(Next(s, IssueStart(p, user, op, secret, expires, now)),
                                     IssueStart(q, user, op, secret, expires, now)),
                                IssueCommit(p, now)), IssueCommit(q, now));
            && Mfa.Active(s'.codes, s.codes.next, user, Describe(user, op), now)
            && Mfa.Active(s'.codes, s.codes.next + 1, user, Describe(user, op), now)
  {
    hide Describe;
    forall id | id in ActiveIds(s.codes, user, Describe(user, op), s.clock) ensures id < s.codes.next {
      assert RowIsIssued(s, id);
    }
  }

  /** With nothing in between, an issue is the atomic SaveCode. */
  lemma AtomicIssueIsSaveCode(s: State, p: nat, user: nat, op: Operation, secret: string, expires: int)
    requires p !in s.issuing
    ensures Next(Next(s, IssueStart(p, user, op, secret, expires, s.clock)), IssueCommit(p, s.clock)).codes
         == SaveCode(s.codes, user, Describe(user, op), secret, s.clock, expires)
  {
    hide Describe;
  }

  // ----- rollback -----

  /** The events commit neither an issue that spends the code nor an operation holding it; every other outcome,
      rollbacks included, is allowed. */
  ghost predicate Spares(s: State, events: seq<Event>, id: int) {
    events == [] ||
    var front, e := events[..|events| - 1], events[|events| - 1];
    var before := Run(s, front);
    && Spares(s, front, id)
    && (e.IssueCommit? && e.p in before.issuing ==> id !in before.issuing[e.p].spends)
    && (e.Commit? && e.ok && e.p in before.holders ==> before.holders[e.p].code != id)
  }

  /** A code outlives every rolled-back operation: until it expires, only a commit or a newer code spends it. */
  lemma {:induction false} CodeSurvives(s: State, events: seq<Event>, id: int)
    requires Safe(s) && Usable(s.codes, id, s.clock) && Spares(s, events, id)
    requires Run(s, events).clock < s.codes.rows[id].expires
    ensures var s' := Run(s, events);
            Safe(s') && s.clock <= s'.clock && id in s'.codes.rows && s'.codes.rows[id] == s.codes.rows[id]
            && id in s'.issued && s'.issued[id] == s.issued[id]
  {
    hide Describe, Found;
    assert RowIsIssued(s, id);
    if events != [] {
      var front, e := events[..|events| - 1], events[|events| - 1];
      CodeSurvives(s, front, id);
      var before := Run(s, front);
      NextIsSafe(before, e);
      assert RowIsIssued(before, id);
    }
  }

  lemma OtherDescription(user: nat, op: Operation, otherUser: nat, other: Operation)
    ensures (user, op) != (otherUser, other) ==> Describe(user, op) != Describe(otherUser, other)
  {
    if Describe(user, op) == Describe(otherUser, other) {
      DescriptionDetermines(user, op, otherUser, other);
    }
  }

  /** Where issues do not overlap, a usable code is the one its operation's lookup finds. */
  lemma UsableIsFound(s: State, id: int)
    requires Safe(s) && OneActive(s) && Usable(s.codes, id, s.clock)
    ensures id in s.issued && Found(s.codes, id, s.issued[id].0, Describe(s.issued[id].0, s.issued[id].1), s.clock)
  {
    hide Describe;
    assert RowIsIssued(s, id);
    var user, operation := s.issued[id].0, Describe(s.issued[id].0, s.issued[id].1);
    assert Mfa.Active(s.codes, id, user, operation, s.clock);
  }

  /** With the code that is found at hand, a fresh request verifies and commits, exactly once more. */
  lemma UsableCodeCommits(s: State, p: nat, id: int)
    requires Safe(s) && p !in s.holders && id in s.issued
    requires Found(s.codes, id, s.issued[id].0, Describe(s.issued[id].0, s.issued[id].1), s.clock)
    ensures var claim := Claim(s.issued[id].0, s.issued[id].1, id);
            var s' := Next(Next(s, Verify(p, claim, s.codes.rows[id].secret, s.clock)), Commit(p, true, s.clock));
            s'.commits == s.commits + [claim] && !Unspent(s'.codes, id)
  {
    hide Describe;
    assert RowIsIssued(s, id);
  }

  lemma {:induction false} RunConcat(s: State, events: seq<Event>, more: seq<Event>)
    ensures Run(s, events + more) == Run(Run(s, events), more)
  {
    if more == [] {
      assert events + more == events;
    } else {
      hide Next;
      assert (events + more)[..|events + more| - 1] == events + more[..|more| - 1];
      RunConcat(s, events, more[..|more| - 1]);
    }
  }

  /** A rolled-back operation leaves its code usable: from any reachable state with a usable code, through any events
      that spare it, rollbacks of its operation included, a fresh request with the code still verifies and commits the
      operation the code was issued for. */
  lemma RolledBackCodeStillCommits(before: seq<Event>, after: seq<Event>, p: nat, id: int)
    requires SerialRun(before + after)
    requires var s := Run(START, before);
             && Usable(s.codes, id, s.clock) && Spares(s, after, id)
             && Run(s, after).clock < s.codes.rows[id].expires
    requires p !in Run(START, before + after).holders
    ensures var s, end := Run(START, before), Run(START, before + after);
            && id in s.issued
            && var claim := Claim(s.issued[id].0, s.issued[id].1, id);
            var verified := Next(end, Verify(p, claim, s.codes.rows[id].secret, end.clock));
            var done := Next(verified, Commit(p, true, end.clock));
            done.commits == end.commits + [claim] && !Unspent(done.codes, id)
  {
    hide Run, Next, Describe, Found, Spares;
    var s, end := Run(START, before), Run(START, before + after);
    RunConcat(START, before, after);
    AlwaysSafe(before);
    assert RowIsIssued(s, id);
    CodeSurvives(s, after, id);
    AlwaysOneActive(before + after);
    UsableIsFound(end, id);
    UsableCodeCommits(end, p, id);
  }

  // ----- purging -----

  /** The same events with every DeleteExpired replaced by doing nothing. */
  function Unpurged(e: Event): Event {
    if e.DeleteExpired? then Tick(e.now) else e
  }

  function WithoutPurges(events: seq<Event>): (r: seq<Event>)
    ensures |r| == |events|
  {
    if events == [] then [] else WithoutPurges(events[..|events| - 1]) + [Unpurged(events[|events| - 1])]
  }

  /** Equal except for rows that can no longer be found or consumed. */
  ghost predicate SameAnswers(s: State, t: State) {
    && s.(codes := t.codes) == t
    && s.codes.next == t.codes.next
    && (forall id :: Usable(s.codes, id, s.clock) ==> id in t.codes.rows && s.codes.rows[id] == t.codes.rows[id])
    && (forall id :: Usable(t.codes, id, t.clock) ==> id in s.codes.rows && s.codes.rows[id] == t.codes.rows[id])
  }

  lemma SameAnswersIssue(s: State, t: State, e: Event)
    requires SameAnswers(s, t) && s.clock == e.now && (e.IssueStart? || e.IssueCommit?)
    requires forall id :: id in s.codes.rows || id in t.codes.rows ==> id < s.codes.next
    ensures SameAnswers(Act(s, e), Act(t, e))
  {
    hide Describe;
    if e.IssueStart? {
      var operation := Describe(e.user, e.op);
      assert ActiveIds(s.codes, e.user, operation, e.now) == ActiveIds(t.codes, e.user, operation, e.now);
    }
  }

  lemma SameAnswersVerify(s: State, t: State, e: Event)
    requires SameAnswers(s, t) && s.clock == e.now && e.Verify?
    ensures SameAnswers(Act(s, e), Act(t, e))
  {
    hide Describe;
    var claim := e.claim;
    var operation := Describe(claim.user, claim.op);
    assert forall id ::
      Mfa.Active(s.codes, id, claim.user, operation, e.now) <==> Mfa.Active(t.codes, id, claim.user, operation, e.now);
  }

  lemma SameAnswersOtherwise(s: State, t: State, e: Event)
    requires SameAnswers(s, t) && s.clock == e.now && !e.Verify? && !e.IssueStart? && !e.IssueCommit?
    ensures SameAnswers(Act(s, e), Act(t, Unpurged(e)))
  {
    hide Describe, Replace, Found;
  }

  lemma SameAnswersStep(s: State, t: State, e: Event)
    requires SameAnswers(s, t)
    requires forall id :: id in s.codes.rows || id in t.codes.rows ==> id < s.codes.next
    ensures SameAnswers(Next(s, e), Next(t, Unpurged(e)))
  {
    hide Act;
    if s.clock <= e.now {
      var s', t' := s.(clock := e.now), t.(clock := e.now);
      assert forall id :: Usable(s'.codes, id, s'.clock) ==> Usable(s.codes, id, s.clock);
      assert forall id :: Usable(t'.codes, id, t'.clock) ==> Usable(t.codes, id, t.clock);
      assert SameAnswers(s', t');
      if e.IssueStart? || e.IssueCommit? { SameAnswersIssue(s', t', e); }
      else if e.Verify? { SameAnswersVerify(s', t', e); }
      else { SameAnswersOtherwise(s', t', e); }
    }
  }

  /** DeleteExpired is invisible: at any points of any run it changes no verification, no commit and no usable code. */
  lemma {:induction false} PurgesAreInvisible(events: seq<Event>)
    ensures SameAnswers(Run(START, events), Run(START, WithoutPurges(events)))
  {
    if events != [] {
      hide SameAnswers, Next;
      var front, e := events[..|events| - 1], events[|events| - 1];
      PurgesAreInvisible(front);
      assert WithoutPurges(events)[..|events| - 1] == WithoutPurges(front);
      var s, t := Run(START, front), Run(START, WithoutPurges(front));
      AlwaysSafe(front);
      AlwaysSafe(WithoutPurges(front));
      assert s.codes.next == t.codes.next by { SameNext(s, t); }
      forall id | id in s.codes.rows || id in t.codes.rows ensures id < s.codes.next {
        assert id in s.codes.rows ==> RowIsIssued(s, id);
        assert id in t.codes.rows ==> RowIsIssued(t, id);
      }
      SameAnswersStep(s, t, e);
    } else {
      assert SameAnswers(START, START);
    }
  }

  lemma SameNext(s: State, t: State)
    requires SameAnswers(s, t)
    ensures s.codes.next == t.codes.next
  {
  }
}
