/** Token checks end to end: the cache in front of the session tables, with the store's answers taken from them. */
module TokenChecks {
  import Revocation
  import RevocationCache

  datatype State = State(tables: Revocation.Tables, checker: RevocationCache.State)

  datatype Event =
    | Db(op: Revocation.Op, now: int)
    | Tick(now: int)
    | Check(e: RevocationCache.Event) // a step of some call

  /** The tokens the store calls revoked at a time. */
  ghost function Answers(tables: Revocation.Tables, now: int): iset<string> {
    iset token: string | Revocation.IsTokenRevoked(tables, token, now)
  }

  ghost const START := State(Revocation.Tables(map[], map[]), RevocationCache.START)

  ghost function TablesAfter(s: State, e: Event): Revocation.Tables {
    if e.Db? && s.checker.clock <= e.now then Revocation.Step(s.tables, Revocation.Event(e.op, e.now)) else s.tables
  }

  /** What the cache sees of an event: time and the store's answers, or a step of its own. */
  ghost function Seen(s: State, e: Event): RevocationCache.Event {
    if !e.Check? then RevocationCache.World(e.now, Answers(TablesAfter(s, e), e.now))
    else if e.e.World? then RevocationCache.World(s.checker.clock, s.checker.revoked)
    else e.e
  }

  ghost function Next(ttl: int, s: State, e: Event): State {
    State(TablesAfter(s, e), RevocationCache.Next(ttl, s.checker, Seen(s, e)))
  }

  ghost function Run(ttl: int, events: seq<Event>): State {
    if events == [] then START else Next(ttl, Run(ttl, events[..|events| - 1]), events[|events| - 1])
  }

  /** The run of the cache alone. */
  ghost function SeenOf(ttl: int, events: seq<Event>): (seen: seq<RevocationCache.Event>)
    ensures |seen| == |events|
  {
    if events == [] then []
    else
      var front := events[..|events| - 1];
      SeenOf(ttl, front) + [Seen(Run(ttl, front), events[|events| - 1])]
  }

  lemma {:induction false} CacheRun(ttl: int, events: seq<Event>)
    ensures Run(ttl, events).checker == RevocationCache.Run(ttl, SeenOf(ttl, events))
  {
    if events != [] {
      var front := events[..|events| - 1];
      CacheRun(ttl, front);
      assert SeenOf(ttl, events)[..|events| - 1] == SeenOf(ttl, front);
    }
  }

  lemma {:induction false} SeenPrefix(ttl: int, events: seq<Event>, i: nat)
    requires i <= |events|
    ensures SeenOf(ttl, events)[..i] == SeenOf(ttl, events[..i])
  {
    if i < |events| {
      var front := events[..|events| - 1];
      SeenPrefix(ttl, front, i);
      assert front[..i] == events[..i];
      assert SeenOf(ttl, events)[..i] == SeenOf(ttl, front)[..i];
    } else {
      assert events[..i] == events;
    }
  }

  /** The cache asks exactly these tables. */
  ghost predicate Synced(s: State) {
    s.checker.revoked == Answers(s.tables, s.checker.clock)
  }

  lemma {:induction false} AlwaysSynced(ttl: int, events: seq<Event>)
    ensures Synced(Run(ttl, events))
  {
    if events != [] {
      AlwaysSynced(ttl, events[..|events| - 1]);
    }
  }

  /** A session that is over, or that a revoked row outlives, stays so whatever happens. */
  lemma {:induction false} DeadStays(ttl: int, events: seq<Event>, k: nat, i: nat, token: string)
    requires k <= i <= |events|
    requires Revocation.Dead(Run(ttl, events[..k]).tables, token, Run(ttl, events[..k]).checker.clock)
    ensures Revocation.Dead(Run(ttl, events[..i]).tables, token, Run(ttl, events[..i]).checker.clock)
    decreases i
  {
    if k < i {
      DeadStays(ttl, events, k, i - 1, token);
      assert events[..i][..i - 1] == events[..i - 1];
      var before, e := Run(ttl, events[..i - 1]), events[i - 1];
      if e.Db? && before.checker.clock <= e.now {
        Revocation.StepKeepsDead(before.tables, token, before.checker.clock, Revocation.Event(e.op, e.now));
      }
    }
  }

  /** End to end: once a token's session is dead in the tables, every call that starts more than a TTL later is answered
      revoked, in every continuation of the run. */
  lemma DeadTokensAreRefused(ttl: int, events: seq<Event>, k: nat, p: nat)
    requires k <= |events| && RevocationCache.IsAnswered(Run(ttl, events).checker, p)
    requires var at, call := Run(ttl, events[..k]), Run(ttl, events).checker.calls[p];
             && Revocation.Dead(at.tables, call.token, at.checker.clock)
             && at.checker.clock + RevocationCache.Lag(ttl) < call.now
    ensures Run(ttl, events).checker.calls[p].revoked
  {
    var seen, call := SeenOf(ttl, events), Run(ttl, events).checker.calls[p];
    CacheRun(ttl, events);
    forall i | k <= i <= |events| ensures call.token in RevocationCache.Run(ttl, seen[..i]).revoked {
      DeadStays(ttl, events, k, i, call.token);
      AlwaysSynced(ttl, events[..i]);
      SeenPrefix(ttl, events, i);
      CacheRun(ttl, events[..i]);
    }
    SeenPrefix(ttl, events, k);
    CacheRun(ttl, events[..k]);
    RevocationCache.RevocationIsSeenAfterTtl(ttl, seen, k, p);
  }

  /** The writes that end a token's session: a logout's last one, or revoking all of its user's tokens. */
  ghost predicate Ends(op: Revocation.Op, tables: Revocation.Tables, token: string) {
    token in tables.sessions
    && (op == Revocation.RevokeByTokenHash(token)
        || op == Revocation.RevokeActiveUserTokens(tables.sessions[token].user))
  }

  /** So after a logout, or after a user's tokens are revoked, every call for the token that starts more than a TTL
      later is answered revoked, for good. */
  lemma EndedSessionsAreRefused(ttl: int, events: seq<Event>, k: nat, p: nat)
    requires k < |events| && RevocationCache.IsAnswered(Run(ttl, events).checker, p)
    requires var before, e, call := Run(ttl, events[..k]), events[k], Run(ttl, events).checker.calls[p];
             && e.Db? && before.checker.clock <= e.now && Ends(e.op, before.tables, call.token)
             && e.now + RevocationCache.Lag(ttl) < call.now
    ensures Run(ttl, events).checker.calls[p].revoked
  {
    assert events[..k + 1][..k] == events[..k];
    DeadTokensAreRefused(ttl, events, k + 1, p);
  }
}
