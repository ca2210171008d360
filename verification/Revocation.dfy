/** Sessions and revoked tokens. A token is revoked when a row says so, or when no live session carries it. */
module Revocation {
  datatype Session = Session(user: int, expires: int, revoked: bool)
  datatype RevokedToken = RevokedToken(user: int, expires: int)

  /** user_sessions and revoked_tokens, both unique by token hash. */
  datatype Tables = Tables(sessions: map<string, Session>, revoked: map<string, RevokedToken>)

  predicate Live(session: Session, now: int) { !session.revoked && now < session.expires }

  /** IsTokenRevoked. */
  predicate IsTokenRevoked(s: Tables, token: string, now: int) {
    token in s.revoked || !(token in s.sessions && Live(s.sessions[token], now))
  }

  datatype Op =
    | CreateSession(user: int, token: string, expires: int)
    | SaveRevokedToken(token: string, user: int, expires: int)
    | RevokeByTokenHash(token: string)
    | RevokeActiveUserTokens(user: int)
    | DeleteExpired

  datatype Event = Event(op: Op, now: int)

  function Step(s: Tables, e: Event): Tables {
    match e.op
    case CreateSession(user, token, expires) =>
      if token in s.sessions then s else s.(sessions := s.sessions[token := Session(user, expires, false)])
    case SaveRevokedToken(token, user, expires) =>
      if token in s.revoked then s else s.(revoked := s.revoked[token := RevokedToken(user, expires)])
    case RevokeByTokenHash(token) =>
      if token in s.sessions then s.(sessions := s.sessions[token := s.sessions[token].(revoked := true)]) else s
    case RevokeActiveUserTokens(user) =>
      Tables(
        map t | t in s.sessions ::
          if s.sessions[t].user == user then s.sessions[t].(revoked := true) else s.sessions[t],
        map t | t in s.revoked.Keys + s.sessions.Keys
             && (t in s.revoked || (s.sessions[t].user == user && Live(s.sessions[t], e.now))) ::
          if t in s.revoked then s.revoked[t] else RevokedToken(user, s.sessions[t].expires))
    case DeleteExpired =>
      s.(revoked := map t | t in s.revoked && e.now < s.revoked[t].expires :: s.revoked[t])
  }

  function Run(s: Tables, events: seq<Event>): Tables {
    if events == [] then s else Step(Run(s, events[..|events| - 1]), events[|events| - 1])
  }

  /** The two tables, updated in place. */
  class TokenStore {
    var sessions: map<string, Session>
    var revoked: map<string, RevokedToken>

    ghost function Contents(): Tables
      reads this
    {
      Tables(sessions, revoked)
    }

    constructor ()
      ensures Contents() == Tables(map[], map[])
    {
      sessions, revoked := map[], map[];
    }

    method CreateSession(user: int, token: string, expires: int, now: int)
      modifies this
      ensures Contents() == Step(old(Contents()), Event(Op.CreateSession(user, token, expires), now))
    {
      if token !in sessions {
        sessions := sessions[token := Session(user, expires, false)];
      }
    }

    method SaveRevokedToken(token: string, user: int, expires: int, now: int)
      modifies this
      ensures Contents() == Step(old(Contents()), Event(Op.SaveRevokedToken(token, user, expires), now))
    {
      if token !in revoked {
        revoked := revoked[token := RevokedToken(user, expires)];
      }
    }

    method RevokeByTokenHash(token: string, now: int)
      modifies this
      ensures Contents() == Step(old(Contents()), Event(Op.RevokeByTokenHash(token), now))
    {
      if token in sessions {
        sessions := sessions[token := sessions[token].(revoked := true)];
      }
    }

    method RevokeActiveUserTokens(user: int, now: int)
      modifies this
      ensures Contents() == Step(old(Contents()), Event(Op.RevokeActiveUserTokens(user), now))
    {
      var active := map t | t in sessions && sessions[t].user == user && Live(sessions[t], now) ::
        RevokedToken(user, sessions[t].expires);
      revoked := active + revoked; // ON CONFLICT DO NOTHING: rows already there win
      sessions := map t | t in sessions ::
        if sessions[t].user == user then sessions[t].(revoked := true) else sessions[t];
    }

    method DeleteExpired(now: int)
      modifies this
      ensures sessions == old(sessions)
      ensures forall t :: t in revoked <==> t in old(revoked) && now < old(revoked)[t].expires
      ensures forall t :: t in revoked ==> revoked[t] == old(revoked)[t]
      ensures Contents() == Step(old(Contents()), Event(Op.DeleteExpired, now))
    {
      revoked := map t | t in revoked && now < revoked[t].expires :: revoked[t];
    }
  }

  // ----- permanence -----

  predicate InOrder(from: int, events: seq<Event>) {
    forall i :: 0 <= i < |events| ==>
      from <= events[i].now && forall j :: 0 <= j < i ==> events[j].now <= events[i].now
  }

  function Clock(from: int, events: seq<Event>): int {
    if events == [] then from else events[|events| - 1].now
  }

  /** The token's session is over, or a revoked row outlives it. */
  predicate Dead(s: Tables, token: string, now: int) {
    token in s.sessions &&
    (!Live(s.sessions[token], now) ||
     (token in s.revoked && s.sessions[token].expires <= s.revoked[token].expires))
  }

  /** The store answers revoked now and after every later run. */
  ghost predicate RevokedForever(s: Tables, token: string, now: int) {
    forall events, later :: InOrder(now, events) && Clock(now, events) <= later ==>
      IsTokenRevoked(Run(s, events), token, later)
  }

  lemma StepKeepsDead(s: Tables, token: string, now: int, e: Event)
    requires Dead(s, token, now) && now <= e.now
    ensures Dead(Step(s, e), token, e.now)
  {
  }

  lemma {:induction false} RunKeepsDead(s: Tables, token: string, now: int, events: seq<Event>)
    requires Dead(s, token, now) && InOrder(now, events)
    ensures Dead(Run(s, events), token, Clock(now, events))
  {
    if events != [] {
      var front, e := events[..|events| - 1], events[|events| - 1];
      RunKeepsDead(s, token, now, front);
      StepKeepsDead(Run(s, front), token, Clock(now, front), e);
    }
  }

  /** For a token with a session, the answer stays revoked through every later run exactly when the session is over
      or its revoked row outlives it. */
  lemma RevokedForeverIff(s: Tables, token: string, now: int)
    requires token in s.sessions
    ensures RevokedForever(s, token, now) <==> Dead(s, token, now)
  {
    if Dead(s, token, now) {
      forall events, later | InOrder(now, events) && Clock(now, events) <= later
        ensures IsTokenRevoked(Run(s, events), token, later)
      {
        RunKeepsDead(s, token, now, events);
      }
    } else {
      ForgottenRevocation(s, token, now);
    }
  }

  /** A revoked row that ends before a session still live is collected, and the token works again. */
  lemma ForgottenRevocation(s: Tables, token: string, now: int)
    requires token in s.sessions && !Dead(s, token, now)
    ensures !RevokedForever(s, token, now)
  {
    var t := if token in s.revoked && now < s.revoked[token].expires then s.revoked[token].expires else now;
    var events := [Event(DeleteExpired, t)];
    assert events[..0] == [] && Run(s, []) == s;
    assert Run(s, events) == Step(s, events[0]);
    assert InOrder(now, events) && Clock(now, events) <= t;
    assert !IsTokenRevoked(Run(s, events), token, t);
  }

  // ----- the service's own use of the tables -----

  /** Login and Logout pass the expiry of the token itself, and the hash determines the token. */
  predicate Faithful(op: Op, expiry: string -> int) {
    match op
    case CreateSession(_, token, expires) => expires == expiry(token)
    case SaveRevokedToken(token, _, expires) => expires == expiry(token)
    case _ => true
  }

  predicate ExpiriesAgree(s: Tables, expiry: string -> int) {
    && (forall t :: t in s.sessions ==> s.sessions[t].expires == expiry(t))
    && (forall t :: t in s.revoked ==> s.revoked[t].expires == expiry(t))
  }

  lemma {:induction false} FaithfulRunsAgree(events: seq<Event>, expiry: string -> int)
    requires forall i :: 0 <= i < |events| ==> Faithful(events[i].op, expiry)
    ensures ExpiriesAgree(Run(Tables(map[], map[]), events), expiry)
  {
    if events != [] {
      FaithfulRunsAgree(events[..|events| - 1], expiry);
    }
  }

  /** So in the service every revocation is permanent: whenever a token with a session is answered revoked,
      it is answered revoked ever after, whatever else happens and whenever expired rows are deleted. */
  lemma RevocationIsPermanent(events: seq<Event>, expiry: string -> int, token: string, now: int)
    requires forall i :: 0 <= i < |events| ==> Faithful(events[i].op, expiry)
    ensures var s := Run(Tables(map[], map[]), events);
            token in s.sessions && IsTokenRevoked(s, token, now) ==> RevokedForever(s, token, now)
  {
    FaithfulRunsAgree(events, expiry);
    var s := Run(Tables(map[], map[]), events);
    if token in s.sessions {
      RevokedForeverIff(s, token, now);
    }
  }

  /** Revoking a user's tokens makes the store answer revoked for every session of the user. */
  lemma UserRevocationCoversAll(s: Tables, user: int, now: int, token: string)
    requires token in s.sessions && s.sessions[token].user == user
    ensures RevokedForever(Step(s, Event(RevokeActiveUserTokens(user), now)), token, now)
  {
    RevokedForeverIff(Step(s, Event(RevokeActiveUserTokens(user), now)), token, now);
  }

  // ----- sessions told from the history -----

  /** The first login with this token. */
  ghost predicate LoggedIn(events: seq<Event>, i: int, token: string) {
    && 0 <= i < |events| && IsLogin(events[i], token)
    && forall j :: 0 <= j < i ==> !IsLogin(events[j], token)
  }

  predicate IsLogin(e: Event, token: string) { e.op.CreateSession? && e.op.token == token }

  predicate IsLogout(e: Event, token: string) { e.op.SaveRevokedToken? && e.op.token == token }

  /** The session was ended, by itself or with all of the user's. */
  predicate IsEnding(e: Event, token: string, user: int) {
    e.op == RevokeByTokenHash(token) || e.op == RevokeActiveUserTokens(user)
  }

  ghost predicate Ended(events: seq<Event>, i: int, token: string)
    requires LoggedIn(events, i, token)
  {
    exists j :: i < j < |events| && IsEnding(events[j], token, events[i].op.user)
  }

  ghost predicate LoggedOut(events: seq<Event>, token: string) {
    exists j :: 0 <= j < |events| && IsLogout(events[j], token)
  }

  /** The session row is the first login's, revoked exactly if that was ended. */
  ghost predicate SessionTold(s: Tables, events: seq<Event>, token: string, expires: int) {
    if token in s.sessions
    then exists i :: LoggedIn(events, i, token)
                       && s.sessions[token] == Session(events[i].op.user, expires, Ended(events, i, token))
    else forall i :: 0 <= i < |events| ==> !IsLogin(events[i], token)
  }

  /** The revoked row is there for every logout, and else only for an ended session. */
  ghost predicate RowTold(s: Tables, events: seq<Event>, token: string) {
    && (LoggedOut(events, token) ==> token in s.revoked)
    && (token in s.revoked ==> LoggedOut(events, token) || (token in s.sessions && s.sessions[token].revoked))
  }

  lemma FirstLogin(events: seq<Event>, e: Event, i: int, token: string)
    requires LoggedIn(events, i, token)
    ensures LoggedIn(events + [e], i, token)
    ensures Ended(events + [e], i, token) <==> Ended(events, i, token) || IsEnding(e, token, events[i].op.user)
  {
    var more := events + [e];
    assert forall j :: 0 <= j < |events| ==> more[j] == events[j];
    assert more[|events|] == e;
    if Ended(events, i, token) {
      var j :| i < j < |events| && IsEnding(events[j], token, events[i].op.user);
      assert IsEnding(more[j], token, more[i].op.user);
    }
  }

  lemma NextKeepsSession(s: Tables, events: seq<Event>, e: Event, token: string, expires: int)
    requires SessionTold(s, events, token, expires) && (IsLogin(e, token) ==> e.op.expires == expires)
    ensures SessionTold(Step(s, e), events + [e], token, expires)
  {
    var more, s' := events + [e], Step(s, e);
    assert forall j :: 0 <= j < |events| ==> more[j] == events[j];
    assert more[|events|] == e;
    if token in s.sessions {
      var i :| LoggedIn(events, i, token)
               && s.sessions[token] == Session(events[i].op.user, expires, Ended(events, i, token));
      FirstLogin(events, e, i, token);
      assert more[i] == events[i];
      assert s'.sessions[token] == Session(more[i].op.user, expires, Ended(more, i, token));
    } else if IsLogin(e, token) {
      assert LoggedIn(more, |events|, token) && !Ended(more, |events|, token);
    }
  }

  lemma NextKeepsRow(s: Tables, events: seq<Event>, e: Event, token: string, now: int)
    requires RowTold(s, events, token) && e.now <= now
    requires token in s.revoked ==> now < s.revoked[token].expires
    ensures RowTold(Step(s, e), events + [e], token)
  {
    var more, s' := events + [e], Step(s, e);
    assert forall j :: 0 <= j < |events| ==> more[j] == events[j];
    assert more[|events|] == e;
    if LoggedOut(events, token) {
      var j :| 0 <= j < |events| && IsLogout(events[j], token);
      assert IsLogout(more[j], token);
    }
    if LoggedOut(more, token) && !LoggedOut(events, token) {
      assert IsLogout(e, token);
    }
    if IsLogout(e, token) {
      assert IsLogout(more[|events|], token);
    }
  }

  lemma {:induction false} TablesTellTheHistory(events: seq<Event>, expiry: string -> int, token: string, now: int)
    requires forall i :: 0 <= i < |events| ==> Faithful(events[i].op, expiry) && events[i].now <= now
    requires now < expiry(token)
    ensures SessionTold(Run(Tables(map[], map[]), events), events, token, expiry(token))
    ensures RowTold(Run(Tables(map[], map[]), events), events, token)
  {
    if events != [] {
      hide Step, SessionTold, RowTold;
      var front, e := events[..|events| - 1], events[|events| - 1];
      assert events == front + [e];
      assert forall i :: 0 <= i < |front| ==> front[i] == events[i];
      TablesTellTheHistory(front, expiry, token, now);
      var s := Run(Tables(map[], map[]), front);
      FaithfulRunsAgree(front, expiry);
      NextKeepsSession(s, front, e, token, expiry(token));
      NextKeepsRow(s, front, e, token, now);
    }
  }

  lemma OneFirstLogin(events: seq<Event>, i: int, k: int, token: string)
    requires LoggedIn(events, i, token) && LoggedIn(events, k, token)
    ensures i == k
  {
  }

  /** Told from the history alone: in the service a token is accepted exactly until it expires, provided it was logged
      in with, was not logged out, and neither it nor all of its user's tokens have been revoked since the login. */
  lemma AcceptedIff(events: seq<Event>, expiry: string -> int, token: string, now: int)
    requires forall i :: 0 <= i < |events| ==> Faithful(events[i].op, expiry) && events[i].now <= now
    ensures !IsTokenRevoked(Run(Tables(map[], map[]), events), token, now)
       <==> && now < expiry(token) && !LoggedOut(events, token)
            && exists i :: LoggedIn(events, i, token) && !Ended(events, i, token)
  {
    hide Run;
    var s := Run(Tables(map[], map[]), events);
    FaithfulRunsAgree(events, expiry);
    if now < expiry(token) {
      TablesTellTheHistory(events, expiry, token, now);
      forall i, k | LoggedIn(events, i, token) && LoggedIn(events, k, token) ensures i == k {
        OneFirstLogin(events, i, k, token);
      }
    }
  }
}
