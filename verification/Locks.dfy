/** The explicit locks of concurrent database transactions, and why waiting for them never goes in a circle. */
module Locks {
  import opened Basics

  /** The advisory lock of a user, and row locks. */
  datatype Lock = User(id: int) | Account(id: int) | Code(id: int) | CreditRow(id: int) | ScheduleRow(id: int)

  datatype Work =
    | Deposit(account: int)
    | Spend(account: int, code: Option<int>)
    | Transfer(from: int, to: int, code: Option<int>)
    | Close(account: int)
    | CreateCredit(user: int, account: int, mfa: int)
    | Prepay(credit: int, account: int, rows: seq<int>, mfa: int) // the credit's pending rows, in schedule order
    | Payment(row: int, credit: int, account: int)

  function CodeLocks(code: Option<int>): seq<Lock> {
    if code.None? then [] else [Code(code.value)]
  }

  function RowLocks(rows: seq<int>): seq<Lock> {
    seq(|rows|, i requires 0 <= i < |rows| => ScheduleRow(rows[i]))
  }

  /** The locks a transaction takes, in order. A transfer locks its accounts by ascending id. */
  function Plan(work: Work): seq<Lock> {
    match work
    case Deposit(account) => [Account(account)]
    case Spend(account, code) => [Account(account)] + CodeLocks(code)
    case Transfer(from, to, code) =>
      (if from == to then [Account(from)]
       else if from < to then [Account(from), Account(to)]
       else [Account(to), Account(from)]) + CodeLocks(code)
    case Close(account) => [Account(account)]
    case CreateCredit(user, account, mfa) => [User(user), Account(account), Code(mfa)]
    case Prepay(credit, account, rows, mfa) => [CreditRow(credit), Account(account)] + RowLocks(rows) + [Code(mfa)]
    case Payment(row, credit, account) => [ScheduleRow(row), CreditRow(credit), Account(account)]
  }

  // ----- a workload and an order of its locks -----

  /** What the tables say about schedule rows: their credit, and their place in (payment_date, id) order. */
  datatype Layout = Layout(creditOf: int -> int, place: int -> int)

  /** The transactions that may run, as the tables allow them. */
  ghost predicate Consistent(works: iset<Work>, layout: Layout) {
    && (forall w :: w in works && w.Payment? ==> layout.creditOf(w.row) == w.credit)
    && (forall w :: w in works && w.Prepay? ==>
          && (forall i :: 0 <= i < |w.rows| ==> layout.creditOf(w.rows[i]) == w.credit)
          && (forall i, j :: 0 <= i < j < |w.rows| ==> layout.place(w.rows[i]) < layout.place(w.rows[j])))
  }

  /** No row is collected by the scheduler that a prepayment also locks. */
  ghost predicate Separate(works: iset<Work>) {
    forall w, v :: w in works && v in works && w.Prepay? && v.Payment? ==> v.row !in w.rows
  }

  /** It is enough that no credit is both prepaid and paid. */
  lemma SeparateCredits(works: iset<Work>, layout: Layout)
    requires Consistent(works, layout)
    requires forall w, v :: w in works && v in works && w.Prepay? && v.Payment? ==> w.credit != v.credit
    ensures Separate(works)
  {
  }

  ghost predicate IsPrepaid(works: iset<Work>, row: int) {
    exists w :: w in works && w.Prepay? && row in w.rows
  }

  type Rank = Lock -> (int, int)

  /** A schedule row ranks above the accounts where it is prepaid and below the credits elsewhere. */
  ghost function RankIn(works: iset<Work>, layout: Layout): Rank {
    (lock: Lock) =>
      match lock
      case User(id) => (0, id)
      case ScheduleRow(id) => (if IsPrepaid(works, id) then 4 else 1, layout.place(id))
      case CreditRow(id) => (2, id)
      case Account(id) => (3, id)
      case Code(id) => (5, id)
  }

  predicate Less(rank: Rank, a: Lock, b: Lock) {
    rank(a).0 < rank(b).0 || (rank(a).0 == rank(b).0 && rank(a).1 < rank(b).1)
  }

  predicate Increasing(rank: Rank, plan: seq<Lock>) {
    forall i, j :: 0 <= i < j < |plan| ==> Less(rank, plan[i], plan[j])
  }

  /** In a workload that keeps prepayments and payments apart every transaction takes its locks upwards. */
  lemma PlansIncrease(works: iset<Work>, layout: Layout, work: Work)
    requires Consistent(works, layout) && Separate(works) && work in works
    ensures Increasing(RankIn(works, layout), Plan(work))
  {
    if work.Prepay? {
      PrepayIncreases(works, layout, work);
    } else if work.Payment? {
      assert !IsPrepaid(works, work.row);
    }
  }

  lemma PrepayIncreases(works: iset<Work>, layout: Layout, work: Work)
    requires Consistent(works, layout) && work in works && work.Prepay?
    ensures Increasing(RankIn(works, layout), Plan(work))
  {
    var plan, n := Plan(work), |work.rows|;
    forall i | 2 <= i < 2 + n ensures plan[i] == ScheduleRow(work.rows[i - 2]) && IsPrepaid(works, work.rows[i - 2]) {
      assert work.rows[i - 2] in work.rows;
    }
    assert plan[0] == CreditRow(work.credit) && plan[1] == Account(work.account) && plan[2 + n] == Code(work.mfa);
  }

  // ----- the lock table as a state machine -----

  /** A transaction in progress: it holds the first so many locks of its plan. */
  datatype Proc = Proc(plan: seq<Lock>, held: nat)

  type State = map<nat, Proc>

  datatype Event =
    | Begin(p: nat, plan: seq<Lock>)
    | Acquire(p: nat)
    | Commit(p: nat)
    | Abort(p: nat)

  predicate Holds(s: State, p: nat, lock: Lock) {
    p in s && s[p].held <= |s[p].plan| && lock in s[p].plan[..s[p].held]
  }

  predicate Wants(s: State, p: nat) {
    p in s && s[p].held < |s[p].plan|
  }

  function Wanted(s: State, p: nat): Lock
    requires Wants(s, p)
  {
    s[p].plan[s[p].held]
  }

  /** The wait-for graph. */
  predicate Waits(s: State, p: nat, q: nat) {
    Wants(s, p) && p != q && Holds(s, q, Wanted(s, p))
  }

  predicate Blocked(s: State, p: nat) {
    exists q :: q in s && Waits(s, p, q)
  }

  /** Locks are granted to one holder at a time and kept until the transaction ends. */
  function Next(s: State, e: Event): State {
    match e
    case Begin(p, plan) => if p in s then s else s[p := Proc(plan, 0)]
    case Acquire(p) => if Wants(s, p) && !Blocked(s, p) then s[p := s[p].(held := s[p].held + 1)] else s
    case Commit(p) => if p in s && s[p].held == |s[p].plan| then s - {p} else s
    case Abort(p) => s - {p}
  }

  function Run(s: State, events: seq<Event>): State {
    if events == [] then s else Next(Run(s, events[..|events| - 1]), events[|events| - 1])
  }

  /** Every transaction of the run belongs to the workload. */
  ghost predicate OnlyWork(works: iset<Work>, events: seq<Event>) {
    forall i :: 0 <= i < |events| && events[i].Begin? ==> exists work :: work in works && events[i].plan == Plan(work)
  }

  ghost predicate Ordered(rank: Rank, s: State) {
    && (forall p :: p in s ==> s[p].held <= |s[p].plan| && Increasing(rank, s[p].plan))
    && (forall p, q, lock :: Holds(s, p, lock) && Holds(s, q, lock) ==> p == q)
  }

  lemma HoldsAfterAcquire(s: State, p: nat, q: nat, lock: Lock)
    requires Wants(s, p) && !Blocked(s, p)
    ensures var s' := Next(s, Acquire(p));
            Holds(s', q, lock) <==> Holds(s, q, lock) || (q == p && lock == Wanted(s, p))
  {
    var before, after := s[p].plan[..s[p].held], s[p].plan[..s[p].held + 1];
    assert after == before + [Wanted(s, p)];
  }

  lemma NextKeepsOrder(rank: Rank, s: State, e: Event)
    requires Ordered(rank, s) && (e.Begin? ==> Increasing(rank, e.plan))
    ensures Ordered(rank, Next(s, e))
  {
    var s' := Next(s, e);
    forall p, q, lock | Holds(s', p, lock) && Holds(s', q, lock) ensures p == q {
      if e.Acquire? && Wants(s, e.p) && !Blocked(s, e.p) {
        HoldsAfterAcquire(s, e.p, p, lock);
        HoldsAfterAcquire(s, e.p, q, lock);
        assert p != e.p && lock == Wanted(s, e.p) ==> !Waits(s, e.p, p);
        assert q != e.p && lock == Wanted(s, e.p) ==> !Waits(s, e.p, q);
      } else {
        assert Holds(s, p, lock) && Holds(s, q, lock);
      }
    }
  }

  lemma {:induction false} ReachableIsOrdered(works: iset<Work>, layout: Layout, events: seq<Event>)
    requires Consistent(works, layout) && Separate(works) && OnlyWork(works, events)
    ensures Ordered(RankIn(works, layout), Run(map[], events))
  {
    if events != [] {
      var front, e := events[..|events| - 1], events[|events| - 1];
      assert forall i :: 0 <= i < |front| ==> front[i] == events[i];
      ReachableIsOrdered(works, layout, front);
      if e.Begin? {
        var work :| work in works && e.plan == Plan(work);
        PlansIncrease(works, layout, work);
      }
      NextKeepsOrder(RankIn(works, layout), Run(map[], front), e);
    }
  }

  // ----- no circular wait -----

  /** A waiting holder wants a lock above the one it is waited for. */
  lemma WaitingClimbs(rank: Rank, s: State, p: nat, q: nat)
    requires Ordered(rank, s) && Waits(s, p, q) && Wants(s, q)
    ensures Less(rank, Wanted(s, p), Wanted(s, q))
  {
    var i :| 0 <= i < s[q].held && s[q].plan[i] == Wanted(s, p);
    assert Less(rank, s[q].plan[i], s[q].plan[s[q].held]);
  }

  /** Each waits for the next. */
  predicate IsChain(s: State, c: seq<nat>) {
    |c| == 1 || (|c| > 1 && Waits(s, c[0], c[1]) && IsChain(s, c[1..]))
  }

  lemma {:induction false} ChainClimbs(rank: Rank, s: State, c: seq<nat>)
    requires Ordered(rank, s) && IsChain(s, c) && |c| >= 2 && Wants(s, c[|c| - 1])
    ensures Wants(s, c[0]) && Less(rank, Wanted(s, c[0]), Wanted(s, c[|c| - 1]))
  {
    if |c| == 2 {
      WaitingClimbs(rank, s, c[0], c[1]);
    } else {
      ChainClimbs(rank, s, c[1..]);
      WaitingClimbs(rank, s, c[0], c[1]);
    }
  }

  /** While prepayments and payments keep apart, the wait-for graph of every reachable state has no cycle. */
  lemma NoCircularWait(works: iset<Work>, layout: Layout, events: seq<Event>, c: seq<nat>)
    requires Consistent(works, layout) && Separate(works)
    requires OnlyWork(works, events) && IsChain(Run(map[], events), c)
    ensures !Waits(Run(map[], events), c[|c| - 1], c[0])
  {
    ReachableIsOrdered(works, layout, events);
    var rank, s := RankIn(works, layout), Run(map[], events);
    if |c| >= 2 && Wants(s, c[|c| - 1]) {
      ChainClimbs(rank, s, c);
      ClimbingIsNotWaiting(rank, s, c[|c| - 1], c[0]);
    }
  }

  lemma ClimbingIsNotWaiting(rank: Rank, s: State, p: nat, q: nat)
    requires Ordered(rank, s) && Wants(s, p) && Wants(s, q) && Less(rank, Wanted(s, q), Wanted(s, p))
    ensures !Waits(s, p, q)
  {
    forall i | 0 <= i < s[q].held ensures s[q].plan[i] != Wanted(s, p) {
      assert Less(rank, s[q].plan[i], s[q].plan[s[q].held]);
    }
  }

  // ----- progress -----

  /** Among some transactions that all want a lock, one wants a highest. */
  lemma {:induction false} Highest(rank: Rank, s: State, ps: set<nat>) returns (top: nat)
    requires ps != {} && forall p :: p in ps ==> Wants(s, p)
    ensures top in ps && forall p :: p in ps ==> !Less(rank, Wanted(s, top), Wanted(s, p))
    decreases |ps|
  {
    var p :| p in ps;
    var rest := ps - {p};
    if rest == {} {
      assert ps == {p};
      top := p;
    } else {
      var t := Highest(rank, s, rest);
      top := if Less(rank, Wanted(s, t), Wanted(s, p)) then p else t;
    }
  }

  /** p has all its locks, or everyone is still waiting for some and nobody wants a higher one than p. */
  predicate IsTop(rank: Rank, s: State, p: nat) {
    p in s && (Wants(s, p) ==> forall q :: q in s ==> Wants(s, q) && !Less(rank, Wanted(s, p), Wanted(s, q)))
  }

  lemma SomeoneIsTop(rank: Rank, s: State) returns (p: nat)
    requires s != map[]
    ensures IsTop(rank, s, p)
  {
    if forall q :: q in s ==> Wants(s, q) {
      var q :| q in s;
      assert s.Keys != {};
      p := Highest(rank, s, s.Keys);
    } else {
      p :| p in s && !Wants(s, p);
    }
  }

  lemma TopIsNotBlocked(rank: Rank, s: State, p: nat)
    requires Ordered(rank, s) && IsTop(rank, s, p)
    ensures !Blocked(s, p)
  {
    forall q | q in s && Wants(s, p) ensures !Waits(s, p, q) {
      if Wants(s, q) && Less(rank, Wanted(s, q), Wanted(s, p)) {
        ClimbingIsNotWaiting(rank, s, p, q);
      } else if Waits(s, p, q) {
        WaitingClimbs(rank, s, p, q);
      }
    }
  }

  predicate OnlyProgress(events: seq<Event>) {
    forall i :: 0 <= i < |events| ==> events[i].Acquire? || events[i].Commit?
  }

  lemma {:induction false} RunConcat(s: State, events: seq<Event>, more: seq<Event>)
    ensures Run(s, events + more) == Run(Run(s, events), more)
  {
    if more == [] {
      assert events + more == events;
    } else {
      assert (events + more)[..|events + more| - 1] == events + more[..|more| - 1];
      RunConcat(s, events, more[..|more| - 1]);
    }
  }

  lemma RunOne(s: State, e: Event)
    ensures Run(s, [e]) == Next(s, e)
  {
    assert [e][..0] == [] && Run(s, []) == s;
  }

  lemma TopAcquires(rank: Rank, s: State, p: nat)
    requires Ordered(rank, s) && IsTop(rank, s, p) && Wants(s, p)
    ensures var s' := Next(s, Acquire(p));
            Ordered(rank, s') && s' == s[p := s[p].(held := s[p].held + 1)]
            && (Wants(s', p) ==> IsTop(rank, s', p))
  {
    TopIsNotBlocked(rank, s, p);
    NextKeepsOrder(rank, s, Acquire(p));
    var s' := Next(s, Acquire(p));
    if Wants(s', p) {
      assert Less(rank, Wanted(s, p), Wanted(s', p));
      forall q | q in s' ensures Wants(s', q) && !Less(rank, Wanted(s', p), Wanted(s', q)) {
        assert Wants(s, q) && !Less(rank, Wanted(s, p), Wanted(s, q));
      }
    }
  }

  /** A top transaction takes its remaining locks without ever waiting, and commits. */
  lemma {:induction false} TopFinishes(rank: Rank, s: State, p: nat) returns (events: seq<Event>)
    requires Ordered(rank, s) && IsTop(rank, s, p)
    ensures OnlyProgress(events) && Run(s, events) == s - {p}
    decreases |s[p].plan| - s[p].held
  {
    if !Wants(s, p) {
      events := [Commit(p)];
      RunOne(s, Commit(p));
    } else {
      TopAcquires(rank, s, p);
      var s' := Next(s, Acquire(p));
      assert IsTop(rank, s', p);
      var rest := TopFinishes(rank, s', p);
      events := [Acquire(p)] + rest;
      RunOne(s, Acquire(p));
      RunConcat(s, [Acquire(p)], rest);
      assert s' - {p} == s - {p};
    }
  }

  lemma {:induction false} StateDrains(rank: Rank, s: State) returns (events: seq<Event>)
    requires Ordered(rank, s)
    ensures OnlyProgress(events) && Run(s, events) == map[]
    decreases |s|
  {
    if s == map[] {
      events := [];
    } else {
      var p := SomeoneIsTop(rank, s);
      var first := TopFinishes(rank, s, p);
      var s' := s - {p};
      FewerKeepOrder(rank, s, p);
      assert |s'| < |s| by {
        assert s'.Keys == s.Keys - {p};
      }
      var rest := StateDrains(rank, s');
      events := first + rest;
      RunConcat(s, first, rest);
    }
  }

  lemma FewerKeepOrder(rank: Rank, s: State, p: nat)
    requires Ordered(rank, s)
    ensures Ordered(rank, s - {p})
  {
    forall q, r, lock | Holds(s - {p}, q, lock) && Holds(s - {p}, r, lock) ensures q == r {
      assert Holds(s, q, lock) && Holds(s, r, lock);
    }
  }

  /** Then from every reachable state all transactions in progress can take their locks and commit, none aborted. */
  lemma NoDeadlock(works: iset<Work>, layout: Layout, events: seq<Event>)
    requires Consistent(works, layout) && Separate(works) && OnlyWork(works, events)
    ensures CanDrain(events)
  {
    ReachableIsOrdered(works, layout, events);
    var more := StateDrains(RankIn(works, layout), Run(map[], events));
    RunConcat(map[], events, more);
  }

  ghost predicate CanDrain(events: seq<Event>) {
    exists more :: OnlyProgress(more) && Run(map[], events + more) == map[]
  }

  // ----- and exactly then -----

  function Acquires(p: nat, n: nat): seq<Event> {
    seq(n, _ => Acquire(p))
  }

  /** A transaction whose next locks nobody else holds takes them. */
  lemma {:induction false} TakesFreeLocks(s: State, p: nat, n: nat)
    requires p in s && s[p].held + n <= |s[p].plan|
    requires forall q, j :: q in s && q != p && s[p].held <= j < s[p].held + n ==> !Holds(s, q, s[p].plan[j])
    ensures Run(s, Acquires(p, n)) == s[p := s[p].(held := s[p].held + n)]
  {
    if n == 0 {
      assert Acquires(p, 0) == [];
    } else {
      TakesFreeLocks(s, p, n - 1);
      assert Acquires(p, n)[..n - 1] == Acquires(p, n - 1);
      var t := s[p := s[p].(held := s[p].held + n - 1)];
      assert Wanted(t, p) == s[p].plan[s[p].held + n - 1];
      forall q | q in t ensures !Waits(t, p, q) {
        assert q != p ==> (Holds(t, q, Wanted(t, p)) <==> Holds(s, q, Wanted(t, p)));
      }
      assert Next(t, Acquire(p)) == s[p := s[p].(held := s[p].held + n)];
    }
  }

  /** The payment locks its row, and the prepayment takes every lock up to that row. */
  function Clash(prepay: Work, payment: Work, k: nat): seq<Event> {
    [Begin(1, Plan(prepay)), Begin(2, Plan(payment)), Acquire(2)] + Acquires(1, 2 + k)
  }

  lemma SecondGoesFirst(mine: seq<Lock>, theirs: seq<Lock>)
    requires theirs != []
    ensures Run(map[], [Begin(1, mine), Begin(2, theirs), Acquire(2)]) == map[1 := Proc(mine, 0), 2 := Proc(theirs, 1)]
  {
    var s: State := map[1 := Proc(mine, 0), 2 := Proc(theirs, 0)];
    assert !Waits(s, 2, 1);
    assert Next(s, Acquire(2)) == map[1 := Proc(mine, 0), 2 := Proc(theirs, 1)];
    RunThree(map[], Begin(1, mine), Begin(2, theirs), Acquire(2));
    assert Next(Next(map[], Begin(1, mine)), Begin(2, theirs)) == s;
  }

  /** The first lock of either plan is reached in the other, and held when it is wanted there. */
  lemma CrossedPlansWait(mine: seq<Lock>, theirs: seq<Lock>, n: nat)
    requires 0 < n < |mine| && |theirs| > 1
    requires mine[n] == theirs[0] && theirs[1] == mine[0] && forall j :: 0 <= j < n ==> mine[j] != theirs[0]
    ensures var s := Run(map[], [Begin(1, mine), Begin(2, theirs), Acquire(2)] + Acquires(1, n));
            s.Keys == {1, 2} && Waits(s, 1, 2) && Waits(s, 2, 1)
  {
    hide Run;
    var s: State := map[1 := Proc(mine, 0), 2 := Proc(theirs, 1)];
    var t: State := map[1 := Proc(mine, n), 2 := Proc(theirs, 1)];
    SecondGoesFirst(mine, theirs);
    assert theirs[..1] == [theirs[0]];
    TakesFreeLocks(s, 1, n);
    RunConcat(map[], [Begin(1, mine), Begin(2, theirs), Acquire(2)], Acquires(1, n));
    assert s[1 := Proc(mine, n)] == t;
    assert mine[..n][0] == mine[0];
  }

  /** A prepayment and a payment of one of its rows can always come to wait for each other. */
  lemma PrepaymentAndPaymentCanWaitForEachOther(prepay: Work, payment: Work, k: nat)
    requires prepay.Prepay? && payment.Payment? && payment.credit == prepay.credit
    requires k < |prepay.rows| && payment.row == prepay.rows[k]
    requires forall i :: 0 <= i < k ==> prepay.rows[i] != payment.row
    ensures var s := Run(map[], Clash(prepay, payment, k));
            s.Keys == {1, 2} && Waits(s, 1, 2) && Waits(s, 2, 1)
  {
    hide Run, Waits;
    var mine, theirs := Plan(prepay), Plan(payment);
    forall j | 0 <= j < 2 + k ensures mine[j] != theirs[0] {
      assert j >= 2 ==> mine[j] == ScheduleRow(prepay.rows[j - 2]);
    }
    assert mine[2 + k] == ScheduleRow(prepay.rows[k]);
    CrossedPlansWait(mine, theirs, 2 + k);
  }

  lemma RunThree(s: State, a: Event, b: Event, c: Event)
    ensures Run(s, [a, b, c]) == Next(Next(Next(s, a), b), c)
  {
    RunOne(s, a);
    assert [a, b][..1] == [a] && [a, b, c][..2] == [a, b];
  }

  /** Two transactions that wait for each other stay so, whatever is tried short of an abort. */
  lemma {:induction false} StuckStays(s: State, events: seq<Event>)
    requires s.Keys == {1, 2} && Waits(s, 1, 2) && Waits(s, 2, 1) && OnlyProgress(events)
    ensures Run(s, events) == s
  {
    if events != [] {
      StuckStays(s, events[..|events| - 1]);
      assert Blocked(s, 1) && Blocked(s, 2);
    }
  }

  lemma {:induction false} FirstIndex(rows: seq<int>, row: int) returns (k: nat)
    requires row in rows
    ensures k < |rows| && rows[k] == row && forall i :: 0 <= i < k ==> rows[i] != row
  {
    if rows[0] == row {
      k := 0;
    } else {
      assert row in rows[1..];
      var rest := FirstIndex(rows[1..], row);
      k := rest + 1;
    }
  }

  /** No reachable state has a circular wait. */
  ghost predicate NeverCircular(works: iset<Work>) {
    forall events, c :: OnlyWork(works, events) && IsChain(Run(map[], events), c) ==>
      !Waits(Run(map[], events), c[|c| - 1], c[0])
  }

  /** Every reachable state can run to completion without an abort. */
  ghost predicate AlwaysDrains(works: iset<Work>) {
    forall events :: OnlyWork(works, events) ==> CanDrain(events)
  }

  lemma ClashIsWork(works: iset<Work>, prepay: Work, payment: Work, k: nat)
    requires prepay in works && payment in works
    ensures OnlyWork(works, Clash(prepay, payment, k))
  {
    hide Plan;
  }

  /** If prepayments and payments share a row, some run ends with each waiting for the other. */
  lemma SharedRowDeadlocks(works: iset<Work>, layout: Layout)
    requires Consistent(works, layout) && !Separate(works)
    ensures !NeverCircular(works) && !AlwaysDrains(works)
  {
    var prepay, payment :| prepay in works && payment in works && prepay.Prepay? && payment.Payment?
      && payment.row in prepay.rows;
    hide Run, Waits, Clash, Plan;
    var k := FirstIndex(prepay.rows, payment.row);
    PrepaymentAndPaymentCanWaitForEachOther(prepay, payment, k);
    var events := Clash(prepay, payment, k);
    var s := Run(map[], events);
    ClashIsWork(works, prepay, payment, k);
    assert IsChain(s, [1, 2]) by {
      assert [1, 2][1..] == [2];
    }
    assert !NeverCircular(works) by {
      assert Waits(s, [1, 2][1], [1, 2][0]);
    }
    forall more | OnlyProgress(more) ensures Run(map[], events + more) != map[] {
      RunConcat(map[], events, more);
      StuckStays(s, more);
    }
    assert !CanDrain(events);
  }

  /** Over all seven kinds of transaction: the wait-for graph is acyclic in every run, and every run can finish
      without an abort, exactly when no schedule row is both locked by a prepayment and collected by a payment. */
  lemma DeadlockFreeIff(works: iset<Work>, layout: Layout)
    requires Consistent(works, layout)
    ensures NeverCircular(works) <==> Separate(works)
    ensures AlwaysDrains(works) <==> Separate(works)
  {
    if Separate(works) {
      forall events, c | OnlyWork(works, events) && IsChain(Run(map[], events), c)
        ensures !Waits(Run(map[], events), c[|c| - 1], c[0])
      {
        NoCircularWait(works, layout, events, c);
      }
      forall events | OnlyWork(works, events) ensures CanDrain(events) {
        NoDeadlock(works, layout, events);
      }
    } else {
      SharedRowDeadlocks(works, layout);
    }
  }
}
