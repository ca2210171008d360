/** The fixed-window rate limiter with garbage collection. Times are in nanoseconds; a run lists the critical sections
    in lock order, and because the clock is read before the lock is taken, times may fall back in it. */
module RateLimiter {
  import opened Basics
  import opened Text

  datatype Rule = Rule(name: string, limit: int, window: int)
  datatype Entry = Entry(count: int, start: int)

  function StorageKey(rule: Rule, key: string): string {
    rule.name + ":" + key
  }

  function At(entries: map<string, Entry>, k: string): Option<Entry> {
    if k in entries then Some(entries[k]) else None
  }

  /** No window is open: this request starts one. */
  predicate Expired(rule: Rule, entry: Option<Entry>, now: int) {
    entry.None? || now - entry.value.start >= rule.window
  }

  predicate Allows(rule: Rule, entry: Option<Entry>, now: int) {
    Expired(rule, entry, now) || entry.value.count < rule.limit
  }

  function Touched(rule: Rule, entry: Option<Entry>, now: int): Entry
    requires Allows(rule, entry, now)
  {
    if Expired(rule, entry, now) then Entry(1, now) else entry.value.(count := entry.value.count + 1)
  }

  predicate Stale(entry: Entry, interval: int, now: int) {
    now - entry.start > 2 * interval
  }

  /** What cleanup keeps. */
  function Kept(entries: map<string, Entry>, interval: int, now: int): map<string, Entry> {
    map k | k in entries && !Stale(entries[k], interval, now) :: entries[k]
  }

  class Limiter {
    var entries: map<string, Entry>
    const cleanupInterval: int

    constructor (cleanupInterval: int)
      ensures entries == map[] && this.cleanupInterval == cleanupInterval
    {
      entries := map[];
      this.cleanupInterval := cleanupInterval;
    }

    /** A refusal tells the client the exact moment from which the same state admits it again. */
    method Allow(rule: Rule, key: string, now: int) returns (allowed: bool, retryAfter: int)
      requires rule.limit > 0 && rule.window > 0
      modifies this`entries
      ensures var k := StorageKey(rule, key);
              && (allowed <==> Allows(rule, At(old(entries), k), now))
              && entries == Next(old(entries), cleanupInterval, Call(rule, key, now))
              && (!allowed ==> 0 < retryAfter)
              && (!allowed ==> forall t :: now <= t ==> (Allows(rule, At(entries, k), t) <==> now + retryAfter <= t))
    {
      var k := StorageKey(rule, key);
      if k !in entries || now - entries[k].start >= rule.window {
        entries := entries[k := Entry(1, now)];
        return true, 0;
      }
      var entry := entries[k];
      if entry.count >= rule.limit {
        return false, rule.window - (now - entry.start);
      }
      entries := entries[k := entry.(count := entry.count + 1)];
      return true, 0;
    }

    method Cleanup(now: int)
      modifies this`entries
      ensures entries == Next(old(entries), cleanupInterval, Clean(now))
    {
      var pending := entries.Keys;
      while pending != {}
        invariant pending <= old(entries).Keys
        invariant forall k :: k in entries <==>
          k in old(entries) && (k in pending || !Stale(old(entries)[k], cleanupInterval, now))
        invariant forall k :: k in entries ==> entries[k] == old(entries)[k]
        decreases |pending|
      {
        var k :| k in pending;
        pending := pending - {k};
        if now - entries[k].start > 2 * cleanupInterval {
          entries := entries - {k};
        }
      }
    }
  }

  // ----- runs -----

  datatype Event = Call(rule: Rule, key: string, now: int) | Clean(now: int)

  function Next(entries: map<string, Entry>, interval: int, e: Event): map<string, Entry> {
    match e
    case Call(rule, key, now) =>
      var k := StorageKey(rule, key);
      if Allows(rule, At(entries, k), now) then entries[k := Touched(rule, At(entries, k), now)] else entries
    case Clean(now) => Kept(entries, interval, now)
  }

  function Run(interval: int, events: seq<Event>): map<string, Entry> {
    if events == [] then map[] else Next(Run(interval, events[..|events| - 1]), interval, events[|events| - 1])
  }

  predicate IsAllowed(interval: int, events: seq<Event>, rule: Rule, key: string, now: int) {
    Allows(rule, At(Run(interval, events), StorageKey(rule, key)), now)
  }

  predicate Mine(e: Event, rule: Rule, key: string) {
    e.Call? && e.rule == rule && e.key == key
  }

  /** The times of the requests of this rule and key that were let through. */
  function Times(interval: int, events: seq<Event>, rule: Rule, key: string): seq<int> {
    if events == [] then []
    else
      var front, e := events[..|events| - 1], events[|events| - 1];
      Times(interval, front, rule, key) +
      if Mine(e, rule, key) && IsAllowed(interval, front, rule, key, e.now) then [e.now] else []
  }

  /** The times of those that opened a window. */
  function Starts(interval: int, events: seq<Event>, rule: Rule, key: string): seq<int> {
    if events == [] then []
    else
      var front, e := events[..|events| - 1], events[|events| - 1];
      Starts(interval, front, rule, key) +
      if Mine(e, rule, key) && Expired(rule, At(Run(interval, front), StorageKey(rule, key)), e.now)
      then [e.now] else []
  }

  lemma Unfold(interval: int, front: seq<Event>, e: Event, rule: Rule, key: string)
    ensures Run(interval, front + [e]) == Next(Run(interval, front), interval, e)
    ensures Times(interval, front + [e], rule, key) ==
            if Mine(e, rule, key) && IsAllowed(interval, front, rule, key, e.now)
            then Times(interval, front, rule, key) + [e.now] else Times(interval, front, rule, key)
    ensures Starts(interval, front + [e], rule, key) ==
            if Mine(e, rule, key) && Expired(rule, At(Run(interval, front), StorageKey(rule, key)), e.now)
            then Starts(interval, front, rule, key) + [e.now] else Starts(interval, front, rule, key)
  {
    assert (front + [e])[..|front|] == front;
    assert Times(interval, front, rule, key) + [] == Times(interval, front, rule, key);
    assert Starts(interval, front, rule, key) + [] == Starts(interval, front, rule, key);
  }

  /** No time lies more than `skew` before an earlier one; with skew 0 the times never fall back. */
  predicate Within(events: seq<Event>, skew: int) {
    forall i, j :: 0 <= i < j < |events| ==> events[i].now <= events[j].now + skew
  }

  /** The latest time so far. */
  function Top(events: seq<Event>): int {
    if events == [] then 0
    else
      var last := events[|events| - 1].now;
      if |events| == 1 || Top(events[..|events| - 1]) < last then last else Top(events[..|events| - 1])
  }

  lemma {:induction false} TopIsReached(events: seq<Event>)
    requires events != []
    ensures (exists i :: 0 <= i < |events| && events[i].now == Top(events))
    ensures forall i :: 0 <= i < |events| ==> events[i].now <= Top(events)
  {
    if |events| > 1 {
      var front := events[..|events| - 1];
      TopIsReached(front);
      var i :| 0 <= i < |front| && front[i].now == Top(front);
      assert events[i].now == Top(front);
    }
    assert events[|events| - 1].now <= Top(events);
    assert Top(events) == events[|events| - 1].now || (|events| > 1 && Top(events) == Top(events[..|events| - 1]));
  }

  /** What the last event of a run may assume. */
  lemma LastWithin(events: seq<Event>, skew: int)
    requires events != [] && Within(events, skew)
    ensures var front, e := events[..|events| - 1], events[|events| - 1];
            && events == front + [e] && Within(front, skew)
            && (front != [] ==> Top(front) <= e.now + skew && Top(front) <= Top(events))
            && e.now <= Top(events) && (front == [] ==> Top(events) == e.now)
            && (forall i :: 0 <= i < |front| ==> front[i] == events[i])
  {
    hide Top;
    var front := events[..|events| - 1];
    TopIsReached(events);
    if front != [] {
      TopIsReached(front);
      var i :| 0 <= i < |front| && front[i].now == Top(front);
      assert events[i].now == front[i].now;
    } else {
      assert events == [events[0]];
    }
  }

  predicate NeverCleans(events: seq<Event>) {
    forall i :: 0 <= i < |events| ==> events[i].Call?
  }

  predicate OnlyRule(events: seq<Event>, rule: Rule) {
    forall i :: 0 <= i < |events| && events[i].Call? ==> events[i].rule == rule
  }

  /** The cleanup loop is started only for a positive interval. */
  predicate Possible(interval: int, events: seq<Event>) {
    interval > 0 || NeverCleans(events)
  }

  /** The windows that cleanup leaves alone: it never runs, or whoever still belongs to a window comes too early for
      it. */
  predicate SafeWindow(rule: Rule, interval: int, skew: int) {
    interval <= 0 || rule.window + skew <= 2 * interval + 1
  }

  /** Rules have distinct names without a colon, positive limits and positive windows. */
  predicate WellNamed(rules: seq<Rule>) {
    && (forall r :: r in rules ==> ':' !in r.name && r.limit > 0 && r.window > 0)
    && (forall r, r' :: r in rules && r' in rules && r.name == r'.name ==> r == r')
  }

  predicate Uses(events: seq<Event>, rules: seq<Rule>) {
    forall i :: 0 <= i < |events| && events[i].Call? ==> events[i].rule in rules
  }

  /** Two rules never share an entry, whatever the clients' keys are. */
  lemma StorageKeysAreDistinct(rules: seq<Rule>, rule: Rule, key: string, other: Rule, otherKey: string)
    requires WellNamed(rules) && rule in rules && other in rules
    ensures StorageKey(rule, key) == StorageKey(other, otherKey) ==> rule == other && key == otherKey
  {
    if StorageKey(rule, key) == StorageKey(other, otherKey) {
      SplitFirst(rule.name, key, ':');
      SplitFirst(other.name, otherKey, ':');
      assert rule.name + [':'] + key == StorageKey(rule, key);
      assert other.name + [':'] + otherKey == StorageKey(other, otherKey);
      assert Split(StorageKey(rule, key), ':')[0] == rule.name;
      assert Split(StorageKey(other, otherKey), ':')[0] == other.name;
      assert key == StorageKey(rule, key)[|rule.name| + 1..];
      assert otherKey == StorageKey(other, otherKey)[|other.name| + 1..];
    }
  }

  // ----- the bound -----

  /** Times in [a, b). */
  function CountIn(times: seq<int>, a: int, b: int): (n: nat) {
    if times == [] then 0 else CountIn(times[..|times| - 1], a, b) + if a <= times[|times| - 1] < b then 1 else 0
  }

  lemma AppendCount(times: seq<int>, x: int, a: int, b: int)
    ensures CountIn(times + [x], a, b) == CountIn(times, a, b) + if a <= x < b then 1 else 0
  {
    assert (times + [x])[..|times|] == times;
  }

  lemma NoneCounted(a: int, b: int)
    ensures CountIn([], a, b) == 0
  {
  }

  lemma {:induction false} CountBelow(times: seq<int>, a: int, b: int, c: int)
    requires forall i :: 0 <= i < |times| ==> times[i] < b && times[i] < c
    ensures CountIn(times, a, b) == CountIn(times, a, c)
  {
    if times != [] {
      CountBelow(times[..|times| - 1], a, b, c);
    }
  }

  predicate Spaced(starts: seq<int>, w: int) {
    forall i, j :: 0 <= i < j < |starts| ==> starts[i] + w <= starts[j]
  }

  lemma Steps(k: int, w: int, x: int)
    requires (k - 1) * w <= x - w
    ensures k * w <= x
  {
    assert k * w == (k - 1) * w + w;
  }

  /** Times spaced by w fit an interval only so often. */
  lemma {:induction false} SpacedCount(starts: seq<int>, w: int, a: int, b: int)
    requires Spaced(starts, w) && w > 0
    ensures var k := CountIn(starts, a, b); k > 0 ==> (k - 1) * w <= b - 1 - a
  {
    if starts != [] {
      var front, last := starts[..|starts| - 1], starts[|starts| - 1];
      if a <= last < b {
        CountBelow(front, a, b, last - w + 1);
        SpacedCount(front, w, a, last - w + 1);
        var k := CountIn(front, a, last - w + 1);
        if k > 0 {
          Steps(k, w, last - a);
        }
      } else {
        SpacedCount(front, w, a, b);
      }
    }
  }

  /** Times in the window's length from t on. */
  function From(rule: Rule, times: seq<int>, t: int): nat {
    CountIn(times, t, t + rule.window)
  }

  predicate IsNear(rule: Rule, skew: int, start: int, t: int) {
    t - rule.window + 1 <= start < t + rule.window + skew
  }

  /** The windows whose requests can fall into the window's length from t on. */
  function Near(rule: Rule, skew: int, starts: seq<int>, t: int): nat {
    CountIn(starts, t - rule.window + 1, t + rule.window + skew)
  }

  /** What the windows so far can contribute there: their starts, and one less than the limit each besides; the last one
      has let `count` requests through. */
  function Cover(rule: Rule, skew: int, starts: seq<int>, count: int, t: int): int {
    if starts == [] then 0
    else
      var front, last := starts[..|starts| - 1], starts[|starts| - 1];
      (rule.limit - 1) * Near(rule, skew, front, t)
      + (if IsNear(rule, skew, last, t) then count - 1 else 0)
      + From(rule, starts, t)
  }

  ghost predicate Covered(rule: Rule, skew: int, times: seq<int>, starts: seq<int>, count: int) {
    forall t :: From(rule, times, t) <= Cover(rule, skew, starts, count, t)
  }

  /** The requests let through are covered by spaced windows; a missing entry means the last window is over for all. */
  ghost predicate Sound(rule: Rule, skew: int, entry: Option<Entry>, times: seq<int>, starts: seq<int>, top: int) {
    && Spaced(starts, rule.window)
    && if entry.None? then
         && Covered(rule, skew, times, starts, rule.limit)
         && (starts != [] ==> starts[|starts| - 1] + rule.window + skew <= top)
       else
         && Covered(rule, skew, times, starts, entry.value.count)
         && 1 <= entry.value.count <= rule.limit
         && starts != [] && starts[|starts| - 1] == entry.value.start <= top
  }

  lemma TimePasses(
      rule: Rule, skew: int, entry: Option<Entry>, times: seq<int>, starts: seq<int>, top: int, later: int)
    requires Sound(rule, skew, entry, times, starts, top) && top <= later
    ensures Sound(rule, skew, entry, times, starts, later)
  {
  }

  lemma CoverOfOpening(rule: Rule, skew: int, starts: seq<int>, count: int, now: int, t: int)
    requires 1 <= count <= rule.limit
    ensures Cover(rule, skew, starts, count, t) + (if t <= now < t + rule.window then 1 else 0)
         <= Cover(rule, skew, starts + [now], 1, t)
  {
    var more := starts + [now];
    assert more[..|more| - 1] == starts;
    AppendCount(starts, now, t, t + rule.window);
    if starts == [] {
      NoneCounted(t, t + rule.window);
      NoneCounted(t - rule.window + 1, t + rule.window + skew);
    } else {
      var front, last := starts[..|starts| - 1], starts[|starts| - 1];
      assert starts == front + [last];
      AppendCount(front, last, t - rule.window + 1, t + rule.window + skew);
      Distribute(rule.limit - 1, Near(rule, skew, front, t));
    }
  }

  lemma Distribute(m: int, n: int)
    ensures m * (n + 1) == m * n + m
  {
  }

  lemma OpeningKeepsSound(
      rule: Rule, skew: int, entry: Option<Entry>, times: seq<int>, starts: seq<int>, top: int, now: int, top': int)
    requires rule.limit > 0 && rule.window > 0 && Sound(rule, skew, entry, times, starts, top)
    requires top <= now + skew && top <= top' && now <= top' && Expired(rule, entry, now)
    ensures Sound(rule, skew, Some(Entry(1, now)), times + [now], starts + [now], top')
  {
    hide Cover;
    var count := if entry.None? then rule.limit else entry.value.count;
    forall t ensures From(rule, times + [now], t) <= Cover(rule, skew, starts + [now], 1, t) {
      AppendCount(times, now, t, t + rule.window);
      assert From(rule, times, t) <= Cover(rule, skew, starts, count, t);
      CoverOfOpening(rule, skew, starts, count, now, t);
    }
  }

  lemma CountingKeepsSound(
      rule: Rule, skew: int, entry: Entry, times: seq<int>, starts: seq<int>, top: int, now: int, top': int)
    requires rule.limit > 0 && rule.window > 0 && Sound(rule, skew, Some(entry), times, starts, top)
    requires top <= now + skew && top <= top' && !Expired(rule, Some(entry), now) && entry.count < rule.limit
    ensures Sound(rule, skew, Some(entry.(count := entry.count + 1)), times + [now], starts, top')
  {
    hide From, Near;
    forall t ensures From(rule, times + [now], t) <= Cover(rule, skew, starts, entry.count + 1, t) {
      FromAppend(rule, times, now, t);
      assert From(rule, times, t) <= Cover(rule, skew, starts, entry.count, t);
    }
  }

  lemma FromAppend(rule: Rule, times: seq<int>, now: int, t: int)
    ensures From(rule, times + [now], t) == From(rule, times, t) + if t <= now < t + rule.window then 1 else 0
  {
    AppendCount(times, now, t, t + rule.window);
  }

  lemma CleanKeepsSound(
      rule: Rule, skew: int, entry: Entry, times: seq<int>, starts: seq<int>, interval: int, now: int, top: int)
    requires rule.window + skew <= 2 * interval + 1 && now <= top
    requires Sound(rule, skew, Some(entry), times, starts, top) && Stale(entry, interval, now)
    ensures Sound(rule, skew, None, times, starts, top)
  {
    hide From, Near;
    forall t ensures From(rule, times, t) <= Cover(rule, skew, starts, rule.limit, t) {
      assert From(rule, times, t) <= Cover(rule, skew, starts, entry.count, t);
    }
  }

  /** What happens to one entry at one event. */
  lemma EventKeepsSound(
      rules: seq<Rule>, interval: int, skew: int, entries: map<string, Entry>, times: seq<int>, starts: seq<int>,
      top: int, e: Event, top': int, rule: Rule, key: string)
    requires WellNamed(rules) && rule in rules && (e.Call? ==> e.rule in rules)
    requires e.Clean? ==> interval > 0 && SafeWindow(rule, interval, skew)
    requires Sound(rule, skew, At(entries, StorageKey(rule, key)), times, starts, top)
    requires top <= e.now + skew && top <= top' && e.now <= top'
    ensures var k := StorageKey(rule, key);
            Sound(rule, skew, At(Next(entries, interval, e), k),
                  if Mine(e, rule, key) && Allows(rule, At(entries, k), e.now) then times + [e.now] else times,
                  if Mine(e, rule, key) && Expired(rule, At(entries, k), e.now) then starts + [e.now] else starts, top')
  {
    hide Sound, StorageKey;
    var k := StorageKey(rule, key);
    TimePasses(rule, skew, At(entries, k), times, starts, top, top');
    match e
    case Call(other, otherKey, now) =>
      StorageKeysAreDistinct(rules, rule, key, other, otherKey);
      if !Mine(e, rule, key) {
        assert At(Next(entries, interval, e), k) == At(entries, k);
      } else if Expired(rule, At(entries, k), now) {
        OpeningKeepsSound(rule, skew, At(entries, k), times, starts, top, now, top');
      } else if Allows(rule, At(entries, k), now) {
        CountingKeepsSound(rule, skew, entries[k], times, starts, top, now, top');
      }
    case Clean(now) =>
      if k in entries && Stale(entries[k], interval, now) {
        CleanKeepsSound(rule, skew, entries[k], times, starts, interval, now, top');
      }
  }

  lemma {:induction false} AlwaysSound(
      rules: seq<Rule>, interval: int, skew: int, events: seq<Event>, rule: Rule, key: string)
    requires WellNamed(rules) && rule in rules && Within(events, skew) && Uses(events, rules)
    requires Possible(interval, events) && SafeWindow(rule, interval, skew) && skew >= 0
    ensures Sound(rule, skew, At(Run(interval, events), StorageKey(rule, key)), Times(interval, events, rule, key),
                  Starts(interval, events, rule, key), Top(events))
  {
    if events == [] {
      SoundAtStart(rule, skew, 0);
    } else {
      hide Sound, StorageKey, Allows, Expired, Next, Run, Times, Starts, Within, Top, SafeWindow;
      var front, e := events[..|events| - 1], events[|events| - 1];
      LastWithin(events, skew);
      AlwaysSound(rules, interval, skew, front, rule, key);
      var top := if front == [] then e.now else Top(front);
      EmptyRun(interval, rule, key);
      SoundAtStart(rule, skew, e.now);
      EventKeepsSound(rules, interval, skew, Run(interval, front), Times(interval, front, rule, key),
                      Starts(interval, front, rule, key), top, e, Top(events), rule, key);
      Unfold(interval, front, e, rule, key);
    }
  }

  lemma EmptyRun(interval: int, rule: Rule, key: string)
    ensures Run(interval, []) == map[] && Times(interval, [], rule, key) == [] && Starts(interval, [], rule, key) == []
  {
  }

  lemma SoundAtStart(rule: Rule, skew: int, top: int)
    ensures Sound(rule, skew, None, [], [], top)
  {
  }

  /** How many windows can reach into one window's length when times fall back by at most `skew`. */
  function Windows(rule: Rule, skew: int): int
    requires rule.window > 0
  {
    3 + (skew - 2) / rule.window
  }

  function SkewBound(rule: Rule, skew: int): int
    requires rule.window > 0
  {
    Windows(rule, skew) * (rule.limit - 1) + 1
  }

  lemma FewNear(rule: Rule, skew: int, starts: seq<int>, t: int)
    requires rule.window > 0 && skew >= 0 && Spaced(starts, rule.window)
    ensures Near(rule, skew, starts, t) <= Windows(rule, skew) && From(rule, starts, t) <= 1
  {
    var w := rule.window;
    SpacedCount(starts, w, t - w + 1, t + w + skew);
    SpacedCount(starts, w, t, t + w);
    var k, m := Near(rule, skew, starts, t), From(rule, starts, t);
    WindowsAtLeast(rule, skew, if k > 0 then k else 1);
    if m > 1 {
      AtLeastOnce(m - 1, w);
    }
  }

  lemma AtLeastOnce(m: int, w: int)
    requires m >= 1 && w > 0
    ensures m * w >= w
  {
    Distribute(w, m - 1);
    assert w * (m - 1) >= 0;
  }

  lemma WindowsAtLeast(rule: Rule, skew: int, k: int)
    requires rule.window > 0 && (k - 1) * rule.window <= 2 * rule.window + skew - 2
    ensures k <= Windows(rule, skew)
  {
    var w := rule.window;
    var q := (skew - 2) / w;
    assert skew - 2 == q * w + (skew - 2) % w;
    var d := k - 3 - q;
    assert d * w == (k - 1) * w - 2 * w - q * w;
    if d >= 1 {
      AtLeastOnce(d, w);
    }
  }

  lemma Scaled(m: int, k: int, n: int)
    requires 0 <= m && k <= n
    ensures m * k <= n * m
  {
    assert m * (n - k) >= 0;
    assert m * (n - k) == n * m - m * k;
  }

  lemma CoverIsSmall(rule: Rule, skew: int, starts: seq<int>, count: int, t: int)
    requires rule.window > 0 && skew >= 0 && Spaced(starts, rule.window) && 1 <= count <= rule.limit
    ensures Cover(rule, skew, starts, count, t) <= SkewBound(rule, skew)
  {
    FewNear(rule, skew, starts, t);
    Scaled(rule.limit - 1, Near(rule, skew, starts, t), Windows(rule, skew));
    if starts != [] {
      var front, last := starts[..|starts| - 1], starts[|starts| - 1];
      assert starts == front + [last];
      AppendCount(front, last, t - rule.window + 1, t + rule.window + skew);
      Distribute(rule.limit - 1, Near(rule, skew, front, t));
    } else {
      NoneCounted(t - rule.window + 1, t + rule.window + skew);
    }
  }

  /** When times fall back by at most `skew`, any half-open interval of a window's length lets at most
      (3 + (skew - 2) / window) * (limit - 1) + 1 requests of a rule and key through. */
  lemma RateBoundWithin(
      rules: seq<Rule>, interval: int, skew: int, events: seq<Event>, rule: Rule, key: string, t: int)
    requires WellNamed(rules) && rule in rules && skew >= 0 && Within(events, skew) && Uses(events, rules)
    requires Possible(interval, events) && SafeWindow(rule, interval, skew)
    ensures CountIn(Times(interval, events, rule, key), t, t + rule.window) <= SkewBound(rule, skew)
  {
    hide Times, Starts, Run, SkewBound, Cover;
    AlwaysSound(rules, interval, skew, events, rule, key);
    var entry := At(Run(interval, events), StorageKey(rule, key));
    var times, starts := Times(interval, events, rule, key), Starts(interval, events, rule, key);
    var count := if entry.None? then rule.limit else entry.value.count;
    assert From(rule, times, t) <= Cover(rule, skew, starts, count, t);
    CoverIsSmall(rule, skew, starts, count, t);
  }

  lemma SmallSkewBound(rule: Rule, skew: int)
    requires rule.window > 0 && rule.limit > 0 && (skew <= 1 || rule.limit == 1)
    ensures SkewBound(rule, skew) <= 2 * rule.limit - 1
  {
    if skew <= 1 {
      assert (skew - 2) / rule.window <= -1;
      Scaled(rule.limit - 1, Windows(rule, skew), 2);
    }
  }

  /** At most 2 * limit - 1 where times fall back by at most one tick. */
  lemma RateBound(rules: seq<Rule>, interval: int, skew: int, events: seq<Event>, rule: Rule, key: string, t: int)
    requires WellNamed(rules) && rule in rules && 0 <= skew && Within(events, skew) && Uses(events, rules)
    requires skew <= 1 || rule.limit == 1
    requires Possible(interval, events) && SafeWindow(rule, interval, skew)
    ensures CountIn(Times(interval, events, rule, key), t, t + rule.window) <= 2 * rule.limit - 1
  {
    RateBoundWithin(rules, interval, skew, events, rule, key, t);
    SmallSkewBound(rule, skew);
  }

  // ----- refusals -----

  /** An entry's count is that many requests let through last, none of them before its window, up to the skew. */
  ghost predicate Earned(skew: int, entry: Option<Entry>, times: seq<int>, top: int) {
    entry.Some? ==>
      && 1 <= entry.value.count <= |times| && entry.value.start <= top
      && forall i :: |times| - entry.value.count <= i < |times| ==> entry.value.start - skew <= times[i]
  }

  lemma EventKeepsEarned(
      rules: seq<Rule>, interval: int, skew: int, entries: map<string, Entry>, times: seq<int>, top: int, e: Event,
      top': int, rule: Rule, key: string)
    requires WellNamed(rules) && rule in rules && (e.Call? ==> e.rule in rules) && skew >= 0
    requires Earned(skew, At(entries, StorageKey(rule, key)), times, top)
    requires top <= e.now + skew && top <= top' && e.now <= top'
    ensures var k := StorageKey(rule, key);
            Earned(skew, At(Next(entries, interval, e), k),
                   if Mine(e, rule, key) && Allows(rule, At(entries, k), e.now) then times + [e.now] else times, top')
  {
    hide StorageKey;
    if e.Call? {
      StorageKeysAreDistinct(rules, rule, key, e.rule, e.key);
    }
  }

  lemma {:induction false} AlwaysEarned(
      rules: seq<Rule>, interval: int, skew: int, events: seq<Event>, rule: Rule, key: string)
    requires WellNamed(rules) && rule in rules && Within(events, skew) && Uses(events, rules) && skew >= 0
    ensures Earned(skew, At(Run(interval, events), StorageKey(rule, key)), Times(interval, events, rule, key),
                   Top(events))
  {
    if events != [] {
      hide Earned, StorageKey, Allows, Expired, Next, Run, Times, Starts, Within, Top;
      var front, e := events[..|events| - 1], events[|events| - 1];
      LastWithin(events, skew);
      AlwaysEarned(rules, interval, skew, front, rule, key);
      var top := if front == [] then e.now else Top(front);
      EmptyRun(interval, rule, key);
      NothingToEarn(skew, e.now);
      EventKeepsEarned(rules, interval, skew, Run(interval, front), Times(interval, front, rule, key), top, e,
                       Top(events), rule, key);
      Unfold(interval, front, e, rule, key);
    }
  }

  lemma NothingToEarn(skew: int, top: int)
    ensures Earned(skew, None, [], top)
  {
  }

  /** A client is refused only after using up its limit: at least `limit` of its requests were let through, and the
      last `limit` of them less than a window ago, up to how far times fall back. */
  lemma RefusalsAreEarned(
      rules: seq<Rule>, interval: int, skew: int, events: seq<Event>, rule: Rule, key: string, now: int)
    requires WellNamed(rules) && rule in rules && Within(events, skew) && Uses(events, rules) && skew >= 0
    requires !IsAllowed(interval, events, rule, key, now)
    ensures var times := Times(interval, events, rule, key);
            && rule.limit <= |times|
            && forall i :: |times| - rule.limit <= i < |times| ==> now - rule.window - skew < times[i]
  {
    hide Run, Times, Top, Within, StorageKey;
    AlwaysEarned(rules, interval, skew, events, rule, key);
  }

  // ----- cleanup -----

  function WithoutCleans(events: seq<Event>): seq<Event> {
    if events == [] then []
    else WithoutCleans(events[..|events| - 1]) + if events[|events| - 1].Clean? then [] else [events[|events| - 1]]
  }

  /** The cleaned map lacks only entries old enough to have been collected. */
  ghost predicate Cleaned(cleaned: map<string, Entry>, full: map<string, Entry>, interval: int, top: int) {
    && (forall k :: k in cleaned ==> k in full && cleaned[k] == full[k])
    && (forall k :: k in full && k !in cleaned ==> Stale(full[k], interval, top))
  }

  lemma SameDecision(
      cleaned: map<string, Entry>, full: map<string, Entry>, interval: int, skew: int, top: int, rule: Rule, k: string,
      now: int)
    requires Cleaned(cleaned, full, interval, top) && top <= now + skew && rule.window + skew <= 2 * interval + 1
    ensures Allows(rule, At(cleaned, k), now) <==> Allows(rule, At(full, k), now)
    ensures Allows(rule, At(full, k), now) ==> Touched(rule, At(cleaned, k), now) == Touched(rule, At(full, k), now)
  {
  }

  lemma EventKeepsCleaned(
      cleaned: map<string, Entry>, full: map<string, Entry>, interval: int, skew: int, top: int, e: Event, top': int)
    requires Cleaned(cleaned, full, interval, top) && top <= e.now + skew && top <= top' && e.now <= top'
    requires e.Call? ==> e.rule.window + skew <= 2 * interval + 1
    ensures Cleaned(Next(cleaned, interval, e), if e.Clean? then full else Next(full, interval, e), interval, top')
  {
    hide StorageKey, Allows, Touched;
    if e.Call? {
      SameDecision(cleaned, full, interval, skew, top, e.rule, StorageKey(e.rule, e.key), e.now);
    }
  }

  lemma WithoutLast(events: seq<Event>)
    requires events != []
    ensures var front, e := events[..|events| - 1], events[|events| - 1];
            WithoutCleans(events) == if e.Clean? then WithoutCleans(front) else WithoutCleans(front) + [e]
  {
  }

  lemma {:induction false} CleansLoseNothing(rule: Rule, interval: int, skew: int, events: seq<Event>)
    requires Within(events, skew) && skew >= 0 && OnlyRule(events, rule) && rule.window + skew <= 2 * interval + 1
    ensures Cleaned(Run(interval, events), Run(interval, WithoutCleans(events)), interval, Top(events))
  {
    hide Run, Next, Within, Top, WithoutCleans;
    EmptyRun(interval, rule, "");
    NothingToClean();
    if events != [] {
      var front, e := events[..|events| - 1], events[|events| - 1];
      LastWithin(events, skew);
      WithoutLast(events);
      CleansLoseNothing(rule, interval, skew, front);
      var cleaned, full := Run(interval, front), Run(interval, WithoutCleans(front));
      Unfold(interval, front, e, rule, "");
      Unfold(interval, WithoutCleans(front), e, rule, "");
      EventKeepsCleaned(cleaned, full, interval, skew, if front == [] then e.now else Top(front), e, Top(events));
    }
  }

  lemma NothingToClean()
    ensures WithoutCleans([]) == []
  {
  }

  // ----- bursts -----

  /** n calls with the same time. */
  function Burst(rule: Rule, key: string, now: int, n: nat): seq<Event> {
    seq(n, _ => Call(rule, key, now))
  }

  lemma BurstOneMore(rule: Rule, key: string, now: int, n: nat)
    ensures Burst(rule, key, now, n + 1) == Burst(rule, key, now, n) + [Call(rule, key, now)]
    ensures Burst(rule, key, now, 0) == []
  {
  }

  lemma CallOpens(rule: Rule, entry: Option<Entry>, now: int)
    requires Expired(rule, entry, now)
    ensures Allows(rule, entry, now) && Touched(rule, entry, now) == Entry(1, now)
  {
  }

  lemma CallLands(entries: map<string, Entry>, interval: int, rule: Rule, key: string, now: int)
    ensures var k := StorageKey(rule, key);
            Allows(rule, At(entries, k), now) ==>
              At(Next(entries, interval, Call(rule, key, now)), k) == Some(Touched(rule, At(entries, k), now))
  {
  }

  /** The n-th further call in an open window. */
  lemma CallCounts(rule: Rule, entry: Entry, now: int, n: nat)
    requires now - entry.start < rule.window && n > 0 && entry.count + n <= rule.limit
    ensures var before := Entry(entry.count + n - 1, entry.start);
            Allows(rule, Some(before), now) && Touched(rule, Some(before), now) == Entry(entry.count + n, entry.start)
  {
  }

  /** A call that opens a window. */
  lemma Opens(interval: int, front: seq<Event>, rule: Rule, key: string, now: int, a: int, b: int)
    requires Expired(rule, At(Run(interval, front), StorageKey(rule, key)), now)
    ensures var events := front + Burst(rule, key, now, 1);
            && At(Run(interval, events), StorageKey(rule, key)) == Some(Entry(1, now))
            && CountIn(Times(interval, events, rule, key), a, b)
                 == CountIn(Times(interval, front, rule, key), a, b) + if a <= now < b then 1 else 0
  {
    hide Run, Times, CountIn, StorageKey, Allows, Touched, Expired, Burst;
    BurstOneMore(rule, key, now, 0);
    assert Burst(rule, key, now, 1) == [Call(rule, key, now)];
    CallOpens(rule, At(Run(interval, front), StorageKey(rule, key)), now);
    Unfold(interval, front, Call(rule, key, now), rule, key);
    AppendCount(Times(interval, front, rule, key), now, a, b);
  }

  /** Further calls in an open window are let through while the limit lasts. */
  lemma {:induction false} BurstContinues(
      interval: int, front: seq<Event>, rule: Rule, key: string, now: int, n: nat, entry: Entry, a: int, b: int)
    requires entry.count + n <= rule.limit && now - entry.start < rule.window
    requires At(Run(interval, front), StorageKey(rule, key)) == Some(entry)
    ensures var events := front + Burst(rule, key, now, n);
            && At(Run(interval, events), StorageKey(rule, key)) == Some(Entry(entry.count + n, entry.start))
            && CountIn(Times(interval, events, rule, key), a, b)
                 == CountIn(Times(interval, front, rule, key), a, b) + if a <= now < b then n else 0
  {
    hide Run, Times, CountIn, StorageKey, Burst, Allows, Touched, Expired, Next;
    BurstOneMore(rule, key, now, if n == 0 then 0 else n - 1);
    if n == 0 {
      assert front + [] == front;
    } else {
      BurstContinues(interval, front, rule, key, now, n - 1, entry, a, b);
      var before, call := front + Burst(rule, key, now, n - 1), Call(rule, key, now);
      assert front + Burst(rule, key, now, n) == before + [call];
      CallCounts(rule, entry, now, n);
      Unfold(interval, before, call, rule, key);
      CallLands(Run(interval, before), interval, rule, key, now);
      AppendCount(Times(interval, before, rule, key), now, a, b);
    }
  }

  /** A whole limit's worth: one call that opens the window at `start`, the others at `now`. */
  function Full(rule: Rule, key: string, start: int, now: int): seq<Event>
    requires rule.limit > 0
  {
    Burst(rule, key, start, 1) + Burst(rule, key, now, rule.limit - 1)
  }

  lemma FullIsAllowed(
      interval: int, front: seq<Event>, rule: Rule, key: string, start: int, now: int, a: int, b: int)
    requires rule.limit > 0 && now - start < rule.window
    requires Expired(rule, At(Run(interval, front), StorageKey(rule, key)), start)
    ensures var events := front + Full(rule, key, start, now);
            && At(Run(interval, events), StorageKey(rule, key)) == Some(Entry(rule.limit, start))
            && CountIn(Times(interval, events, rule, key), a, b)
                 == CountIn(Times(interval, front, rule, key), a, b)
                    + (if a <= start < b then 1 else 0) + (if a <= now < b then rule.limit - 1 else 0)
  {
    hide Run, Times, CountIn, StorageKey, Burst, Expired;
    Opens(interval, front, rule, key, start, a, b);
    BurstContinues(interval, front + Burst(rule, key, start, 1), rule, key, now, rule.limit - 1, Entry(1, start), a, b);
    assert front + Full(rule, key, start, now)
        == front + Burst(rule, key, start, 1) + Burst(rule, key, now, rule.limit - 1);
  }

  lemma {:induction false} CallsSurvive(events: seq<Event>)
    requires NeverCleans(events)
    ensures WithoutCleans(events) == events
  {
    if events != [] {
      var front, e := events[..|events| - 1], events[|events| - 1];
      CallsSurvive(front);
      assert WithoutCleans(events) == WithoutCleans(front) + [e];
      assert events == front + [e];
    }
  }

  // ----- cleanup in mid-window -----

  /** The latest time of a call that still belongs to the window opened at 0, once the cleanup has collected it. */
  function Latecomer(rule: Rule, interval: int): int {
    if 2 * interval + 1 < rule.window then 2 * interval + 1 else rule.window - 1
  }

  /** A limit's worth of calls, and the cleanup that forgets them. */
  function Forgotten(rule: Rule, key: string, interval: int): seq<Event>
    requires rule.limit > 0
  {
    Full(rule, key, 0, 0) + [Clean(2 * interval + 1)]
  }

  lemma AfterForgetting(rule: Rule, key: string, interval: int)
    requires interval > 0 && rule.limit > 0 && rule.window > 0
    ensures At(Run(interval, Full(rule, key, 0, 0)), StorageKey(rule, key)) == Some(Entry(rule.limit, 0))
    ensures At(Run(interval, Forgotten(rule, key, interval)), StorageKey(rule, key)) == None
    ensures CountIn(Times(interval, Forgotten(rule, key, interval), rule, key), 0, rule.window) == rule.limit
  {
    hide Run, Times, CountIn, StorageKey, Full;
    var first := Full(rule, key, 0, 0);
    assert [] + first == first;
    EmptyRun(interval, rule, key);
    NoneCounted(0, rule.window);
    FullIsAllowed(interval, [], rule, key, 0, 0, 0, rule.window);
    Unfold(interval, first, Clean(2 * interval + 1), rule, key);
  }

  /** With a longer window, a cleanup doubles what one window lets through. */
  lemma EarlyCleanupDoublesTheLimit(rule: Rule, key: string, interval: int, skew: int)
    requires interval > 0 && skew >= 0 && rule.limit > 0 && rule.window > 0 && 2 * interval + 1 < rule.window + skew
    ensures var t := Latecomer(rule, interval);
            var events := Forgotten(rule, key, interval) + Full(rule, key, t, t);
            && Within(events, skew) && OnlyRule(events, rule)
            && CountIn(Times(interval, events, rule, key), 0, rule.window) == 2 * rule.limit
  {
    hide Run, Times, CountIn, StorageKey;
    var t := Latecomer(rule, interval);
    AfterForgetting(rule, key, interval);
    FullIsAllowed(interval, Forgotten(rule, key, interval), rule, key, t, t, 0, rule.window);
  }

  lemma ForgottenWithin(rule: Rule, key: string, interval: int, skew: int)
    requires interval > 0 && skew >= 0 && rule.limit > 0
    ensures var events := Forgotten(rule, key, interval);
            && Within(events, skew) && OnlyRule(events, rule)
            && (forall i :: 0 <= i < |events| ==> events[i].now <= 2 * interval + 1)
            && events[..|events| - 1] == Full(rule, key, 0, 0) && NeverCleans(Full(rule, key, 0, 0))
  {
  }

  lemma EarlyCleanupChangesADecision(rule: Rule, key: string, interval: int, skew: int)
    requires interval > 0 && skew >= 0 && rule.limit > 0 && rule.window > 0 && 2 * interval + 1 < rule.window + skew
    ensures var events, t := Forgotten(rule, key, interval), Latecomer(rule, interval);
            && Within(events, skew) && OnlyRule(events, rule) && Top(events) <= t + skew
            && IsAllowed(interval, events, rule, key, t) && !IsAllowed(interval, WithoutCleans(events), rule, key, t)
  {
    hide Run, StorageKey, Times, CountIn, Top, Full, Within, NeverCleans, OnlyRule;
    var first := Full(rule, key, 0, 0);
    var events := Forgotten(rule, key, interval);
    ForgottenWithin(rule, key, interval, skew);
    AfterForgetting(rule, key, interval);
    CallsSurvive(first);
    assert WithoutCleans(events) == first + [] == first;
    TopIsReached(events);
  }

  /** Removing every cleanup from this run of the rule's requests does not change the decision at now. */
  ghost predicate SameWithoutCleans(rule: Rule, interval: int, skew: int, events: seq<Event>, key: string, now: int) {
    Within(events, skew) && Possible(interval, events) && OnlyRule(events, rule)
    && (events != [] ==> Top(events) <= now + skew)
    ==> (IsAllowed(interval, events, rule, key, now) <==> IsAllowed(interval, WithoutCleans(events), rule, key, now))
  }

  ghost predicate CleanupIsInvisible(rule: Rule, interval: int, skew: int) {
    forall events, key, now :: SameWithoutCleans(rule, interval, skew, events, key, now)
  }

  /** Cleanup is invisible, at whatever points it runs, exactly when it is switched off or window and skew together
      are at most twice its interval plus one tick. */
  lemma CleanupIsInvisibleIff(rule: Rule, interval: int, skew: int)
    requires rule.limit > 0 && rule.window > 0 && skew >= 0
    ensures CleanupIsInvisible(rule, interval, skew) <==> interval <= 0 || rule.window + skew <= 2 * interval + 1
  {
    hide Run, Allows, Within, Top, Forgotten, Latecomer, OnlyRule;
    if SafeWindow(rule, interval, skew) {
      forall events: seq<Event>, key, now ensures SameWithoutCleans(rule, interval, skew, events, key, now) {
        if Within(events, skew) && Possible(interval, events) && OnlyRule(events, rule)
           && events != [] && Top(events) <= now + skew {
          if interval <= 0 {
            CallsSurvive(events);
          } else {
            CleansLoseNothing(rule, interval, skew, events);
            SameDecision(Run(interval, events), Run(interval, WithoutCleans(events)), interval, skew, Top(events),
                         rule, StorageKey(rule, key), now);
          }
        }
      }
    } else {
      EarlyCleanupChangesADecision(rule, "", interval, skew);
      assert !SameWithoutCleans(rule, interval, skew, Forgotten(rule, "", interval), "", Latecomer(rule, interval));
    }
  }

  // ----- the bound is reached -----

  /** Windows opened back to back; the calls of each that can are moved into [window - 1, 2 * window - 1). */
  function Crowd(rule: Rule, key: string, n: nat): seq<Event>
    requires rule.limit > 0
  {
    if n == 0 then []
    else
      Crowd(rule, key, n - 1)
      + Full(rule, key, (n - 1) * rule.window, if n == 1 then rule.window - 1 else 2 * rule.window - 2)
  }

  /** Where the n-th window of the crowd starts: after the one before is over, and in the interval only once. */
  lemma CrowdStart(rule: Rule, n: nat)
    requires rule.limit > 0 && rule.window > 0 && n > 0
    ensures var w, start := rule.window, (n - 1) * rule.window;
            && (n > 1 ==> start - (n - 2) * w == w)
            && (w - 1 <= start < 2 * w - 1 <==> if w == 1 then n == 1 else n == 2)
            && (if n == 1 then w - 1 else 2 * w - 2) - start < w
            && n * (rule.limit - 1) == (n - 1) * (rule.limit - 1) + (rule.limit - 1)
  {
    var w := rule.window;
    Distribute(rule.limit - 1, n - 1);
    Distribute(w, n - 2);
    if n > 2 {
      AtLeastOnce(n - 2, w);
    }
  }

  lemma {:induction false} CrowdIsAllowed(rule: Rule, key: string, interval: int, n: nat)
    requires rule.limit > 0 && rule.window > 0 && n > 0
    ensures At(Run(interval, Crowd(rule, key, n)), StorageKey(rule, key))
         == Some(Entry(rule.limit, (n - 1) * rule.window))
    ensures CountIn(Times(interval, Crowd(rule, key, n), rule, key), rule.window - 1, 2 * rule.window - 1)
         == n * (rule.limit - 1) + if rule.window == 1 || n > 1 then 1 else 0
  {
    hide Run, Times, CountIn, StorageKey, Full;
    var w, front := rule.window, Crowd(rule, key, n - 1);
    CrowdStart(rule, n);
    if n > 1 {
      CrowdIsAllowed(rule, key, interval, n - 1);
    } else {
      EmptyRun(interval, rule, key);
      NoneCounted(w - 1, 2 * w - 1);
    }
    FullIsAllowed(interval, front, rule, key, (n - 1) * w, if n == 1 then w - 1 else 2 * w - 2, w - 1, 2 * w - 1);
  }

  predicate UpTo(events: seq<Event>, top: int) {
    forall i :: 0 <= i < |events| ==> events[i].now <= top
  }

  lemma AppendFull(events: seq<Event>, rule: Rule, key: string, start: int, now: int, skew: int, top: int, top': int)
    requires rule.limit > 0 && skew >= 0 && Within(events, skew) && UpTo(events, top)
    requires top <= start + skew && top <= now + skew && start <= now + skew
    requires top <= top' && start <= top' && now <= top'
    requires NeverCleans(events) && OnlyRule(events, rule)
    ensures var more := events + Full(rule, key, start, now);
            Within(more, skew) && UpTo(more, top') && NeverCleans(more) && OnlyRule(more, rule)
  {
  }

  lemma {:induction false} CrowdWithin(rule: Rule, key: string, skew: int, n: nat)
    requires rule.limit > 0 && rule.window > 0 && skew >= 0 && n <= Windows(rule, skew)
    ensures var events := Crowd(rule, key, n);
            Within(events, skew) && UpTo(events, n * rule.window) && NeverCleans(events) && OnlyRule(events, rule)
  {
    hide Windows, Within, UpTo, NeverCleans, OnlyRule, Full;
    if n == 0 {
      NoEvents(rule, skew);
    } else {
      var w := rule.window;
      CrowdWithin(rule, key, skew, n - 1);
      Distribute(w, n - 1);
      if n > 1 {
        RoomForWindow(rule, skew, n);
        AtLeastOnce(n - 1, w);
      }
      AppendFull(Crowd(rule, key, n - 1), rule, key, (n - 1) * w, if n == 1 then w - 1 else 2 * w - 2, skew,
                 (n - 1) * w, n * w);
    }
  }

  lemma NoEvents(rule: Rule, skew: int)
    ensures Within([], skew) && UpTo([], 0) && NeverCleans([]) && OnlyRule([], rule)
  {
  }

  lemma RoomForWindow(rule: Rule, skew: int, n: int)
    requires rule.window > 0 && n <= Windows(rule, skew)
    ensures (n - 1) * rule.window <= 2 * rule.window - 2 + skew
  {
    var w := rule.window;
    var q := (skew - 2) / w;
    assert skew - 2 == q * w + (skew - 2) % w;
    Scaled(w, n - 3, q);
    assert w * (n - 3) == (n - 1) * w - 2 * w;
  }

  /** For every skew the bound is sharp: some run without cleanup reaches it. */
  lemma BoundIsReached(rule: Rule, key: string, interval: int, skew: int)
    requires rule.limit > 0 && rule.window > 0 && skew >= 0
    ensures Windows(rule, skew) > 0
    ensures var events := Crowd(rule, key, Windows(rule, skew));
            && Within(events, skew) && NeverCleans(events) && OnlyRule(events, rule)
            && CountIn(Times(interval, events, rule, key), rule.window - 1, rule.window - 1 + rule.window)
                 == SkewBound(rule, skew)
  {
    hide Run, Times, CountIn, StorageKey, Full, Crowd, Within;
    WindowsAtLeast(rule, skew, if rule.window == 1 then 1 else 2);
    CrowdIsAllowed(rule, key, interval, Windows(rule, skew));
    CrowdWithin(rule, key, skew, Windows(rule, skew));
  }

  /** A run of one rule's requests keeps the bound of 2 * limit - 1 for this key and interval. */
  ghost predicate KeepsBound(rule: Rule, interval: int, skew: int, events: seq<Event>, key: string, t: int) {
    Within(events, skew) && Possible(interval, events) && OnlyRule(events, rule)
    ==> CountIn(Times(interval, events, rule, key), t, t + rule.window) <= 2 * rule.limit - 1
  }

  lemma LargeSkewBound(rule: Rule, skew: int)
    requires rule.window > 0 && rule.limit > 1 && skew > 1
    ensures SkewBound(rule, skew) > 2 * rule.limit - 1
  {
    assert (skew - 2) / rule.window >= 0;
    Scaled(rule.limit - 1, 3, Windows(rule, skew));
  }

  /** The bound of 2 * limit - 1 holds over all runs whose times fall back by at most `skew`, cleanups at arbitrary
      points included, exactly when that is at most one tick, or the limit is 1, and cleanup is invisible. */
  lemma RateBoundIff(rule: Rule, interval: int, skew: int)
    requires rule.limit > 0 && rule.window > 0 && ':' !in rule.name && skew >= 0
    ensures (forall events, key, t :: KeepsBound(rule, interval, skew, events, key, t))
       <==> (skew <= 1 || rule.limit == 1) && (interval <= 0 || rule.window + skew <= 2 * interval + 1)
  {
    hide Times, CountIn, Within, Forgotten, Latecomer, Full, Crowd, SkewBound, Windows;
    if !SafeWindow(rule, interval, skew) {
      EarlyCleanupDoublesTheLimit(rule, "", interval, skew);
      var t := Latecomer(rule, interval);
      assert !KeepsBound(rule, interval, skew, Forgotten(rule, "", interval) + Full(rule, "", t, t), "", 0);
    } else if skew <= 1 || rule.limit == 1 {
      forall events: seq<Event>, key, t ensures KeepsBound(rule, interval, skew, events, key, t) {
        if Within(events, skew) && Possible(interval, events) && OnlyRule(events, rule) {
          RateBound([rule], interval, skew, events, rule, key, t);
        }
      }
    } else {
      BoundIsReached(rule, "", interval, skew);
      LargeSkewBound(rule, skew);
      assert !KeepsBound(rule, interval, skew, Crowd(rule, "", Windows(rule, skew)), "", rule.window - 1);
    }
  }
}
