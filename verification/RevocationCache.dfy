/** The cache in front of the revocation store, under interleaved calls. Each step of a call that takes the cache's
    lock or reads the store is one event. */
module RevocationCache {
  import opened Basics

  datatype Entry = Entry(revoked: bool, expiresAt: int)

  class Cache {
    var cache: map<string, Entry>
    const ttl: int

    constructor (ttl: int)
      ensures cache == map[] && this.ttl == ttl
    {
      cache := map[];
      this.ttl := ttl;
    }

    /** read: an expired entry is deleted and counts as a miss. */
    method Read(token: string, now: int) returns (hit: Option<bool>)
      modifies this`cache
      ensures hit == Lookup(old(cache), token, now)
      ensures cache == if IsExpired(old(cache), token, now) then old(cache) - {token} else old(cache)
    {
      if token !in cache {
        return None;
      }
      var entry := cache[token];
      if now > entry.expiresAt {
        cache := cache - {token};
        return None;
      }
      return Some(entry.revoked);
    }

    method Write(token: string, revoked: bool, expiresAt: int)
      modifies this`cache
      ensures cache == old(cache)[token := Entry(revoked, expiresAt)]
    {
      cache := cache[token := Entry(revoked, expiresAt)];
    }
  }

  predicate IsExpired(cache: map<string, Entry>, token: string, now: int) {
    token in cache && cache[token].expiresAt < now
  }

  function Lookup(cache: map<string, Entry>, token: string, now: int): Option<bool> {
    if token in cache && !IsExpired(cache, token, now) then Some(cache[token].revoked) else None
  }

  // ----- the protocol -----

  /** A call of IsTokenRevoked; now is the time it read when it started. */
  datatype Call =
    | Started(token: string, now: int)
    | Expired(token: string, now: int)                 // saw an expired entry; about to delete it
    | Missed(token: string, now: int)                  // about to ask the store
    | Fetched(token: string, now: int, revoked: bool)  // about to write the entry
    | Answered(token: string, now: int, revoked: bool)
    | Errored(token: string, now: int)

  /** The clock, the tokens the store currently calls revoked, the cache and the calls. */
  datatype State = State(clock: int, revoked: iset<string>, cache: map<string, Entry>, calls: map<nat, Call>)

  datatype Event =
    | World(now: int, revoked: iset<string>) // time passes, and the store's answers may change
    | Start(p: nat, token: string)
    | Read(p: nat)
    | Delete(p: nat)
    | Fetch(p: nat)
    | FetchFails(p: nat)
    | Write(p: nat)

  /** A store without sessions calls every token revoked. */
  ghost const START := State(0, iset token: string | true, map[], map[])

  ghost function Next(ttl: int, s: State, e: Event): State {
    match e
    case World(now, revoked) => if s.clock <= now then s.(clock := now, revoked := revoked) else s
    case Start(p, token) => if p in s.calls then s else s.(calls := s.calls[p := Started(token, s.clock)])
    case Read(p) =>
      if p !in s.calls || !s.calls[p].Started? then s
      else
        var call := s.calls[p];
        if ttl > 0 && Lookup(s.cache, call.token, call.now).Some?
        then s.(calls := s.calls[p := Answered(call.token, call.now, Lookup(s.cache, call.token, call.now).value)])
        else if ttl > 0 && IsExpired(s.cache, call.token, call.now)
        then s.(calls := s.calls[p := Expired(call.token, call.now)])
        else s.(calls := s.calls[p := Missed(call.token, call.now)])
    case Delete(p) =>
      if p !in s.calls || !s.calls[p].Expired? then s
      else
        var call := s.calls[p];
        s.(cache := s.cache - {call.token}, calls := s.calls[p := Missed(call.token, call.now)])
    case Fetch(p) =>
      if p !in s.calls || !s.calls[p].Missed? then s
      else
        var call := s.calls[p];
        s.(calls := s.calls[p := Fetched(call.token, call.now, call.token in s.revoked)])
    case FetchFails(p) =>
      if p !in s.calls || !s.calls[p].Missed? then s
      else s.(calls := s.calls[p := Errored(s.calls[p].token, s.calls[p].now)])
    case Write(p) =>
      if p !in s.calls || !s.calls[p].Fetched? then s
      else
        var call := s.calls[p];
        s.(cache := if ttl > 0 then s.cache[call.token := Entry(call.revoked, call.now + ttl)] else s.cache,
           calls := s.calls[p := Answered(call.token, call.now, call.revoked)])
  }

  ghost function Run(ttl: int, events: seq<Event>): State {
    if events == [] then START else Next(ttl, Run(ttl, events[..|events| - 1]), events[|events| - 1])
  }

  /** After the first i events the store gave this answer, and the clock showed since or more. */
  ghost predicate Observed(ttl: int, events: seq<Event>, i: int, token: string, revoked: bool, since: int) {
    0 <= i <= |events| &&
    var s := Run(ttl, events[..i]);
    (revoked <==> token in s.revoked) && since <= s.clock
  }

  /** The store gave this answer at some moment of the run not before since. */
  ghost predicate Saw(ttl: int, events: seq<Event>, token: string, revoked: bool, since: int) {
    exists i :: Observed(ttl, events, i, token, revoked, since)
  }

  function Lag(ttl: int): int { if ttl > 0 then ttl else 0 }

  /** Every cached answer was the store's at most a TTL before the entry expires; every call's answer was the store's
      at most a TTL before the call started. */
  ghost predicate EntrySound(ttl: int, events: seq<Event>, s: State, token: string) {
    token in s.cache ==> Saw(ttl, events, token, s.cache[token].revoked, s.cache[token].expiresAt - Lag(ttl))
  }

  ghost predicate CallSound(ttl: int, events: seq<Event>, s: State, p: nat) {
    p in s.calls ==>
      var call := s.calls[p];
      && call.now <= s.clock
      && (call.Fetched? ==> Saw(ttl, events, call.token, call.revoked, call.now))
      && (call.Answered? ==> Saw(ttl, events, call.token, call.revoked, call.now - Lag(ttl)))
  }

  ghost predicate Sound(ttl: int, events: seq<Event>, s: State) {
    && (forall token :: EntrySound(ttl, events, s, token))
    && (forall p :: CallSound(ttl, events, s, p))
  }

  lemma SawExtends(ttl: int, events: seq<Event>, e: Event, token: string, revoked: bool, since: int)
    ensures Saw(ttl, events, token, revoked, since) ==> Saw(ttl, events + [e], token, revoked, since)
  {
    if Saw(ttl, events, token, revoked, since) {
      var i :| Observed(ttl, events, i, token, revoked, since);
      assert (events + [e])[..i] == events[..i];
      assert Observed(ttl, events + [e], i, token, revoked, since);
    }
  }

  lemma SawEarlier(ttl: int, events: seq<Event>, token: string, revoked: bool, since: int, earlier: int)
    requires earlier <= since
    ensures Saw(ttl, events, token, revoked, since) ==> Saw(ttl, events, token, revoked, earlier)
  {
    if Saw(ttl, events, token, revoked, since) {
      var i :| Observed(ttl, events, i, token, revoked, since);
      assert Observed(ttl, events, i, token, revoked, earlier);
    }
  }

  lemma SawNow(ttl: int, events: seq<Event>, token: string, since: int)
    requires since <= Run(ttl, events).clock
    ensures Saw(ttl, events, token, token in Run(ttl, events).revoked, since)
  {
    assert events[..|events|] == events;
    assert Observed(ttl, events, |events|, token, token in Run(ttl, events).revoked, since);
  }

  lemma EntryStaysSound(ttl: int, events: seq<Event>, e: Event, token: string)
    requires Sound(ttl, events, Run(ttl, events))
    ensures EntrySound(ttl, events + [e], Next(ttl, Run(ttl, events), e), token)
  {
    hide Saw, Run;
    var s := Run(ttl, events);
    assert EntrySound(ttl, events, s, token);
    if token in s.cache {
      SawExtends(ttl, events, e, token, s.cache[token].revoked, s.cache[token].expiresAt - Lag(ttl));
    }
    if e.Write? && e.p in s.calls && s.calls[e.p].Fetched? {
      var call := s.calls[e.p];
      assert CallSound(ttl, events, s, e.p);
      SawExtends(ttl, events, e, call.token, call.revoked, call.now);
    }
  }

  lemma CallStaysSound(ttl: int, events: seq<Event>, e: Event, p: nat)
    requires Sound(ttl, events, Run(ttl, events))
    ensures CallSound(ttl, events + [e], Next(ttl, Run(ttl, events), e), p)
  {
    hide Saw, Run;
    var s := Run(ttl, events);
    assert CallSound(ttl, events, s, p);
    if p in s.calls {
      var call := s.calls[p];
      assert EntrySound(ttl, events, s, call.token);
      if call.Missed? {
        SawNow(ttl, events, call.token, call.now);
        SawExtends(ttl, events, e, call.token, call.token in s.revoked, call.now);
      } else if call.Fetched? {
        SawExtends(ttl, events, e, call.token, call.revoked, call.now);
        SawEarlier(ttl, events + [e], call.token, call.revoked, call.now, call.now - Lag(ttl));
      } else if call.Answered? {
        SawExtends(ttl, events, e, call.token, call.revoked, call.now - Lag(ttl));
      } else if call.token in s.cache && call.now <= s.cache[call.token].expiresAt {
        var entry := s.cache[call.token];
        SawExtends(ttl, events, e, call.token, entry.revoked, entry.expiresAt - Lag(ttl));
        SawEarlier(ttl, events + [e], call.token, entry.revoked, entry.expiresAt - Lag(ttl), call.now - Lag(ttl));
      }
    }
  }

  lemma {:induction false} AlwaysSound(ttl: int, events: seq<Event>)
    ensures Sound(ttl, events, Run(ttl, events))
  {
    if events != [] {
      hide Next;
      var front, e := events[..|events| - 1], events[|events| - 1];
      AlwaysSound(ttl, front);
      assert events == front + [e];
      forall token ensures EntrySound(ttl, events, Run(ttl, events), token) {
        EntryStaysSound(ttl, front, e, token);
      }
      forall p ensures CallSound(ttl, events, Run(ttl, events), p) {
        CallStaysSound(ttl, front, e, p);
      }
    }
  }

  predicate IsAnswered(s: State, p: nat) {
    p in s.calls && s.calls[p].Answered?
  }

  lemma {:induction false} AnswerStands(ttl: int, events: seq<Event>, k: nat, p: nat)
    requires k <= |events| && IsAnswered(Run(ttl, events[..k]), p)
    ensures p in Run(ttl, events).calls && Run(ttl, events).calls[p] == Run(ttl, events[..k]).calls[p]
  {
    if k < |events| {
      var front := events[..|events| - 1];
      assert front[..k] == events[..k];
      AnswerStands(ttl, front, k, p);
    } else {
      assert events[..k] == events;
    }
  }

  /** Over every interleaving, a call answered within the first k events keeps that answer, and it was the store's own
      at some moment of those k events, no earlier than a TTL before the call started. */
  lemma AnswersLagByAtMostTtl(ttl: int, events: seq<Event>, k: nat, p: nat)
    requires k <= |events| && IsAnswered(Run(ttl, events[..k]), p)
    ensures p in Run(ttl, events).calls && Run(ttl, events).calls[p] == Run(ttl, events[..k]).calls[p]
    ensures var call := Run(ttl, events).calls[p];
            Saw(ttl, events[..k], call.token, call.revoked, call.now - Lag(ttl))
  {
    hide Run, Saw;
    AnswerStands(ttl, events, k, p);
    AlwaysSound(ttl, events[..k]);
    assert CallSound(ttl, events[..k], Run(ttl, events[..k]), p);
  }

  lemma {:induction false} ClockIsMonotone(ttl: int, events: seq<Event>, i: nat, j: nat)
    requires i <= j <= |events|
    ensures Run(ttl, events[..i]).clock <= Run(ttl, events[..j]).clock
    decreases j
  {
    if i < j {
      ClockIsMonotone(ttl, events, i, j - 1);
      assert events[..j][..j - 1] == events[..j - 1];
    }
  }

  /** Once the store has answered revoked since the first k events, every call that starts more than a TTL
      after that moment answers revoked. */
  lemma RevocationIsSeenAfterTtl(ttl: int, events: seq<Event>, k: nat, p: nat)
    requires k <= |events| && IsAnswered(Run(ttl, events), p)
    requires var token := Run(ttl, events).calls[p].token;
             forall i :: k <= i <= |events| ==> token in Run(ttl, events[..i]).revoked
    requires Run(ttl, events[..k]).clock + Lag(ttl) < Run(ttl, events).calls[p].now
    ensures Run(ttl, events).calls[p].revoked
  {
    hide Run;
    assert events[..|events|] == events;
    AnswersLagByAtMostTtl(ttl, events, |events|, p);
    var call := Run(ttl, events).calls[p];
    var i :| Observed(ttl, events, i, call.token, call.revoked, call.now - Lag(ttl));
    if i < k {
      ClockIsMonotone(ttl, events, i, k);
    }
  }

  // ----- what one call does when nothing interferes -----

  /** With an unexpired entry a call is answered from the cache, whatever the store would say. */
  lemma FreshEntryAnswers(ttl: int, s: State, p: nat, token: string)
    requires ttl > 0 && p !in s.calls && token in s.cache && s.clock <= s.cache[token].expiresAt
    ensures Next(ttl, Next(ttl, s, Start(p, token)), Read(p))
         == s.(calls := s.calls[p := Answered(token, s.clock, s.cache[token].revoked)])
  {
  }

  /** Without one, or without a TTL, it asks the store and answers what the store says, and with a TTL it leaves an
      entry that answers the calls of the next so many ticks. */
  lemma StaleEntryAsksTheStore(ttl: int, s: State, p: nat, token: string)
    requires p !in s.calls && (ttl > 0 && token in s.cache ==> s.cache[token].expiresAt < s.clock)
    ensures var asked := Next(ttl, Next(ttl, Next(ttl, s, Start(p, token)), Read(p)), Delete(p));
            var after := Next(ttl, Next(ttl, asked, Fetch(p)), Write(p));
            && after.calls == s.calls[p := Answered(token, s.clock, token in s.revoked)]
            && after.cache == (if ttl > 0 then s.cache[token := Entry(token in s.revoked, s.clock + ttl)] else s.cache)
            && Next(ttl, asked, FetchFails(p)).calls == s.calls[p := Errored(token, s.clock)]
  {
  }
}
