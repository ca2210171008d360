/** Where the limiter's times fall back from: a request reads the clock first and takes the lock later, and so does
    the cleanup. The runs of critical sections that arise are exactly those whose times fall back by no more than the
    longest wait between the two. */
module RateRaces {
  import opened RateLimiter

  datatype Action =
    | Tick(now: int)
    | ReadForCall(p: nat, rule: Rule, key: string)
    | ReadForCleanup(p: nat)
    | Enter(p: nat)

  /** The clock, what each process in between is about to do and with which time, and the critical sections so far. */
  datatype Race = Race(clock: int, pending: map<nat, Event>, entered: seq<Event>)

  function Act(r: Race, a: Action): Race {
    match a
    case Tick(now) => if r.clock <= now then r.(clock := now) else r
    case ReadForCall(p, rule, key) =>
      if p in r.pending then r else r.(pending := r.pending[p := Call(rule, key, r.clock)])
    case ReadForCleanup(p) => if p in r.pending then r else r.(pending := r.pending[p := Clean(r.clock)])
    case Enter(p) =>
      if p in r.pending then r.(pending := r.pending - {p}, entered := r.entered + [r.pending[p]]) else r
  }

  function Acted(from: int, actions: seq<Action>): Race {
    if actions == [] then Race(from, map[], [])
    else Act(Acted(from, actions[..|actions| - 1]), actions[|actions| - 1])
  }

  /** Whoever enters has not waited longer than `skew` since reading the clock. */
  predicate OnTime(r: Race, a: Action, skew: int) {
    a.Enter? && a.p in r.pending ==> r.clock <= r.pending[a.p].now + skew
  }

  predicate Timely(from: int, actions: seq<Action>, skew: int) {
    actions == [] ||
    var front, last := actions[..|actions| - 1], actions[|actions| - 1];
    Timely(from, front, skew) && OnTime(Acted(from, front), last, skew)
  }

  /** Then times fall back by no more than that. */
  lemma {:induction false} WaitsBoundTheSkew(from: int, actions: seq<Action>, skew: int)
    requires Timely(from, actions, skew)
    ensures var r := Acted(from, actions);
            && Within(r.entered, skew)
            && (forall i :: 0 <= i < |r.entered| ==> r.entered[i].now <= r.clock)
            && (forall p :: p in r.pending ==> r.pending[p].now <= r.clock)
  {
    if actions != [] {
      WaitsBoundTheSkew(from, actions[..|actions| - 1], skew);
    }
  }

  // ----- every such run arises -----

  lemma Append(from: int, actions: seq<Action>, a: Action, skew: int)
    ensures Acted(from, actions + [a]) == Act(Acted(from, actions), a)
    ensures Timely(from, actions + [a], skew)
       <==> Timely(from, actions, skew) && OnTime(Acted(from, actions), a, skew)
  {
    assert (actions + [a])[..|actions|] == actions;
  }

  /** With the clock at tau, the events before index j have been read if their time has come; the first k have
      entered. */
  function PendingAt(events: seq<Event>, tau: int, j: nat, k: nat): map<nat, Event> {
    map i: nat | k <= i < |events| && (events[i].now < tau || (events[i].now == tau && i < j)) :: events[i]
  }

  ghost predicate Reached(from: int, actions: seq<Action>, skew: int, events: seq<Event>, tau: int, j: nat, k: nat) {
    && Timely(from, actions, skew) && j <= |events| && k <= |events|
    && Acted(from, actions) == Race(tau, PendingAt(events, tau, j, k), events[..k])
  }

  function ReadOf(e: Event, p: nat): Action {
    match e
    case Call(rule, key, _) => ReadForCall(p, rule, key)
    case Clean(_) => ReadForCleanup(p)
  }

  /** Event j reads the clock if its time is now. */
  lemma ReadNext(from: int, actions: seq<Action>, skew: int, events: seq<Event>, tau: int, j: nat, k: nat)
    returns (more: seq<Action>)
    requires Reached(from, actions, skew, events, tau, j, k) && j < |events|
    requires forall i :: 0 <= i < k ==> events[i].now < tau
    ensures Reached(from, more, skew, events, tau, j + 1, k)
  {
    if events[j].now == tau {
      var a := ReadOf(events[j], j);
      Append(from, actions, a, skew);
      more := actions + [a];
      assert PendingAt(events, tau, j + 1, k) == PendingAt(events, tau, j, k)[j := events[j]];
    } else {
      more := actions;
      assert PendingAt(events, tau, j + 1, k) == PendingAt(events, tau, j, k);
    }
  }

  lemma {:induction false} ReadAll(
      from: int, actions: seq<Action>, skew: int, events: seq<Event>, tau: int, j: nat, k: nat)
    returns (more: seq<Action>)
    requires Reached(from, actions, skew, events, tau, j, k)
    requires forall i :: 0 <= i < k ==> events[i].now < tau
    ensures Reached(from, more, skew, events, tau, |events|, k)
    decreases |events| - j
  {
    if j == |events| {
      more := actions;
    } else {
      hide Reached;
      var next := ReadNext(from, actions, skew, events, tau, j, k);
      assert j + 1 <= |events|;
      more := ReadAll(from, next, skew, events, tau, j + 1, k);
    }
  }

  /** The next event enters, not too late: k0 is the first that entered at this time, and its own time is tau. */
  lemma EnterNext(from: int, actions: seq<Action>, skew: int, events: seq<Event>, tau: int, k: nat, k0: nat)
    returns (more: seq<Action>)
    requires skew >= 0 && Within(events, skew) && Reached(from, actions, skew, events, tau, |events|, k)
    requires k0 <= k < |events| && events[k].now <= tau && events[k0].now == tau
    ensures Reached(from, more, skew, events, tau, |events|, k + 1)
  {
    Append(from, actions, Enter(k), skew);
    more := actions + [Enter(k)];
    assert PendingAt(events, tau, |events|, k + 1) == PendingAt(events, tau, |events|, k) - {k};
    assert events[..k + 1] == events[..k] + [events[k]];
  }

  /** Everyone whose turn has come enters. */
  lemma {:induction false} EnterAll(
      from: int, actions: seq<Action>, skew: int, events: seq<Event>, tau: int, k: nat, k0: nat)
    returns (more: seq<Action>, k': nat)
    requires skew >= 0 && Within(events, skew) && Reached(from, actions, skew, events, tau, |events|, k)
    requires k0 <= k <= |events| && (k0 < k ==> events[k0].now == tau) && (k0 < |events| ==> tau <= events[k0].now)
    requires forall i :: 0 <= i < k ==> events[i].now <= tau
    ensures Reached(from, more, skew, events, tau, |events|, k')
    ensures k <= k' <= |events| && (k' < |events| ==> tau < events[k'].now)
    ensures forall i :: 0 <= i < k' ==> events[i].now <= tau
    decreases |events| - k
  {
    if k == |events| || tau < events[k].now {
      more, k' := actions, k;
    } else {
      hide Reached;
      var next := EnterNext(from, actions, skew, events, tau, k, k0);
      more, k' := EnterAll(from, next, skew, events, tau, k + 1, k0);
    }
  }

  lemma TickOn(from: int, actions: seq<Action>, skew: int, events: seq<Event>, tau: int, k: nat)
    returns (more: seq<Action>)
    requires Reached(from, actions, skew, events, tau, |events|, k)
    ensures Reached(from, more, skew, events, tau + 1, 0, k)
  {
    Append(from, actions, Tick(tau + 1), skew);
    more := actions + [Tick(tau + 1)];
    assert PendingAt(events, tau + 1, 0, k) == PendingAt(events, tau, |events|, k);
  }

  /** From one time to the last. */
  lemma {:induction false} Play(
      from: int, actions: seq<Action>, skew: int, events: seq<Event>, tau: int, k: nat, last: int)
    returns (more: seq<Action>)
    requires skew >= 0 && Within(events, skew) && Reached(from, actions, skew, events, tau, 0, k)
    requires k <= |events| && (k < |events| ==> tau <= events[k].now) && tau <= last
    requires forall i :: 0 <= i < k ==> events[i].now < tau
    requires forall i :: 0 <= i < |events| ==> events[i].now <= last
    ensures Timely(from, more, skew) && Acted(from, more).entered == events
    decreases last - tau
  {
    var read := ReadAll(from, actions, skew, events, tau, 0, k);
    var entered, k' := EnterAll(from, read, skew, events, tau, k, k);
    if tau == last {
      more := entered;
      assert events[..|events|] == events;
    } else {
      var next := TickOn(from, entered, skew, events, tau, k');
      more := Play(from, next, skew, events, tau + 1, k', last);
    }
  }

  lemma {:induction false} Earliest(events: seq<Event>) returns (from: int)
    ensures forall i :: 0 <= i < |events| ==> from <= events[i].now
  {
    if events == [] {
      from := 0;
    } else {
      var rest := Earliest(events[..|events| - 1]);
      from := if events[|events| - 1].now < rest then events[|events| - 1].now else rest;
    }
  }

  /** A run whose times fall back by at most `skew` is played by processes that wait no longer than that. */
  lemma EveryRunArises(events: seq<Event>, skew: int) returns (from: int, actions: seq<Action>)
    requires skew >= 0 && Within(events, skew)
    ensures Timely(from, actions, skew) && Acted(from, actions).entered == events
  {
    from := Earliest(events);
    TopIsTop(events);
    var last := if events == [] || Top(events) < from then from else Top(events);
    assert PendingAt(events, from, 0, 0) == map[];
    assert events[..0] == [];
    actions := Play(from, [], skew, events, from, 0, last);
  }

  lemma TopIsTop(events: seq<Event>)
    ensures forall i :: 0 <= i < |events| ==> events[i].now <= Top(events)
  {
    if events != [] {
      TopIsReached(events);
    }
  }

  // ----- the bound over interleavings -----

  ghost predicate RaceKeepsBound(
      rule: Rule, interval: int, skew: int, from: int, actions: seq<Action>, key: string, t: int) {
    var events := Acted(from, actions).entered;
    Timely(from, actions, skew) && Possible(interval, events) && OnlyRule(events, rule)
    ==> CountIn(Times(interval, events, rule, key), t, t + rule.window) <= 2 * rule.limit - 1
  }

  /** Over every interleaving of clock readings, requests and cleanups in which nobody waits longer than `skew` for
      the lock, 2 * limit - 1 holds exactly when the skew is at most one tick, or the limit is 1, and cleanup is off
      or window and skew together are at most twice its interval plus one tick. */
  lemma RaceBoundIff(rule: Rule, interval: int, skew: int)
    requires rule.limit > 0 && rule.window > 0 && ':' !in rule.name && skew >= 0
    ensures (forall from, actions, key, t :: RaceKeepsBound(rule, interval, skew, from, actions, key, t))
       <==> (skew <= 1 || rule.limit == 1) && (interval <= 0 || rule.window + skew <= 2 * interval + 1)
  {
    hide Times, CountIn, Within, Acted, Timely;
    RateBoundIff(rule, interval, skew);
    if forall events, key, t :: KeepsBound(rule, interval, skew, events, key, t) {
      forall from, actions: seq<Action>, key, t ensures RaceKeepsBound(rule, interval, skew, from, actions, key, t) {
        if Timely(from, actions, skew) {
          WaitsBoundTheSkew(from, actions, skew);
          assert KeepsBound(rule, interval, skew, Acted(from, actions).entered, key, t);
        }
      }
    } else {
      var events, key, t :| !KeepsBound(rule, interval, skew, events, key, t);
      var from, actions := EveryRunArises(events, skew);
      assert !RaceKeepsBound(rule, interval, skew, from, actions, key, t);
    }
  }
}
