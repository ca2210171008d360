/** The three writers of credits and their schedules: issue, prepayment and the scheduler's payment. */
module Credits {
  import opened Basics
  import opened Tables
  import opened Prepayment
  import opened Schedule
  import Policy

  /** Payment dates, soonest first: the calendar of buildPaymentSchedule. */
  type Dates = d: seq<int> | forall i, j :: 0 <= i < j < |d| ==> d[i] <= d[j] witness []

  const MAX_TERM := 120

  datatype Request = Request(user: int, account: int, principal: int, rate: int, monthly: int, dates: Dates)

  datatype Mode = ReduceTermMode | ReducePaymentMode | FullCloseMode | UnknownMode

  /** One pending row of the monthly amount per date. */
  function NewRows(c: int, req: Request): (rows: seq<Row>)
    ensures |rows| == |req.dates|
  {
    seq(|req.dates|, i requires 0 <= i < |req.dates| => Row(c, req.dates[i], req.monthly, 0, RowPending))
  }

  /** What the CHECK constraints and NUMERIC columns demand of an issue. */
  predicate IssueAdmitted(accounts: seq<Account>, req: Request)
    requires HasAccount(accounts, req.account)
  {
    && 0 < |req.dates|
    && 0 < req.principal && accounts[req.account].balance + req.principal <= MAX_CENTS
    && 0 < req.monthly <= MAX_CENTS
    && 0 <= req.rate <= 99_999
  }

  /** CreateWithScheduleAndIssue after its policy check. */
  function Issue(db: Db, req: Request, code: int, now: int): (Db, Outcome) {
    var lock := LockAccount(db.accounts, req.account, req.user);
    if lock.Some? then (db, Failed(lock.value))
    else if !Usable(db.codes, code, now) then (db, Failed(MfaCodeNotFound))
    else if !IssueAdmitted(db.accounts, req) then (db, Failed(Constraint))
    else
      var c := |db.credits|;
      var credit := Credit(req.user, req.account, req.principal, req.rate, |req.dates|, req.monthly, Active);
      (Db(AddBalance(db.accounts, req.account, req.principal),
          db.txns + [Txn(req.user, None, Some(req.account), Some(c), req.principal, CreditIssue, TxnCompleted)],
          db.credits + [credit],
          db.rows + NewRows(c, req),
          UseCode(db.codes, code)),
       Done(c))
  }

  /** CreateWithScheduleAndIssue with the service's validation closure. */
  function Create(db: Db, config: Policy.Config, income: int, req: Request, code: int, now: int): (Db, Outcome) {
    var lock := LockAccount(db.accounts, req.account, req.user);
    if !(0 < |req.dates| <= MAX_TERM) then (db, Failed(InvalidCreditData))
    else if lock.Some? then (db, Failed(lock.value))
    else
      var policy :=
        Policy.PolicyError(config, Policy.RiskSummary(db.credits, req.user, income), req.principal, req.monthly);
      if policy.Some? then (db, Failed(policy.value)) else Issue(db, req, code, now)
  }

  /** The new pending amounts, or None when the mode cannot be applied. */
  function NewAmounts(amounts: seq<int>, amount: int, mode: Mode): (news: Option<seq<int>>)
    ensures news.Some? ==> |news.value| == |amounts|
  {
    var remaining := Total(amounts) - amount;
    if remaining == 0 then Some(seq(|amounts|, _ => 0))
    else
      match mode
      case ReduceTermMode => Some(ReduceTerm(amounts, amount))
      case ReducePaymentMode =>
        if amounts == [] || remaining < |amounts| then None else Some(EvenSplit(remaining, |amounts|))
      case FullCloseMode => None
      case UnknownMode => None
  }

  /** The credit row after a successful prepayment. */
  function Replanned(credit: Credit, news: seq<int>, remaining: int): Credit
    requires news != []
  {
    if remaining == 0 then credit.(principal := 0, status := Closed)
    else credit.(term := |Positive(news)|, monthly := news[0], principal := remaining, status := Active)
  }

  /** Why Prepay would refuse before touching any row. */
  function PrepayRefusal(db: Db, user: int, c: int, amount: int): Option<Error> {
    if !(0 <= c < |db.credits|) || db.credits[c].user != user then Some(CreditNotFound)
    else if db.credits[c].status != Active then Some(InvalidPrepayment)
    else
      var lock := LockAccount(db.accounts, db.credits[c].account, user);
      if lock.Some? then lock
      else if HasOverdue(db.rows, c) || PendingIds(db.rows, c) == [] then Some(InvalidPrepayment)
      else if amount <= 0 || amount > Total(PendingAmounts(db.rows, c)) then Some(InvalidPrepayment)
      else None
  }

  /** Prepay: every refusal is a rollback. */
  function Prepay(db: Db, user: int, c: int, amount: int, mode: Mode, code: int, now: int): (Db, Outcome) {
    var refusal := PrepayRefusal(db, user, c, amount);
    if refusal.Some? then (db, Failed(refusal.value))
    else
      var credit := db.credits[c];
      var ids, amounts := PendingIds(db.rows, c), PendingAmounts(db.rows, c);
      var remaining := Total(amounts) - amount;
      if !Usable(db.codes, code, now) then (db, Failed(MfaCodeNotFound))
      else if db.accounts[credit.account].balance < amount then (db, Failed(InsufficientFunds))
      else
        var news := NewAmounts(amounts, amount, mode);
        if news.None? then (db, Failed(InvalidPrepayment))
        else
          var credit' := Replanned(credit, news.value, remaining);
          (Db(AddBalance(db.accounts, credit.account, -amount),
              db.txns + [Txn(user, Some(credit.account), None, Some(c), amount, CreditPrepayment, TxnCompleted)],
              db.credits[c := credit'],
              WriteBack(db.rows, ids, news.value),
              UseCode(db.codes, code)),
           Prepaid(|db.txns|, credit.monthly, if remaining == 0 then 0 else news.value[0],
                   credit.term, if remaining == 0 then 0 else |Positive(news.value)|, remaining, remaining == 0))
  }

  /** markPaymentOverdue: a positive penalty is never charged again. */
  function MarkOverdue(r: Row): Row {
    r.(status := RowOverdue, penalty := if r.penalty > 0 then r.penalty else PenaltyFor(r.amount))
  }

  /** closeCreditIfFullyPaid, after the rows were updated. */
  function CloseIfPaid(credits: seq<Credit>, rows: seq<Row>, c: int): (credits': seq<Credit>)
    requires 0 <= c < |credits|
    ensures |credits'| == |credits|
  {
    if AllPaid(rows, c) then credits[c := credits[c].(status := Closed)] else credits
  }

  function PaymentTxns(credit: Credit, r: Row): seq<Txn> {
    [Txn(credit.user, Some(credit.account), None, Some(r.credit), r.amount, CreditPayment, TxnCompleted)] +
    if r.penalty > 0 then
      [Txn(credit.user, Some(credit.account), None, Some(r.credit), r.penalty, Penalty, TxnCompleted)]
    else []
  }

  /** ProcessPayment for schedule row `id`; whatever else the due list said about the row is stale and unused. */
  function ProcessPayment(db: Db, id: int): (Db, Outcome) {
    if !(0 <= id < |db.rows|) || !(0 <= db.rows[id].credit < |db.credits|) then (db, Failed(ScheduleNotFound))
    else
      var r := db.rows[id];
      var c := r.credit;
      var credit := db.credits[c];
      if r.status == RowPaid then (db, Processed(Skipped, r.amount, r.penalty))
      else
        var lock := LockAccount(db.accounts, credit.account, credit.user);
        if lock.Some? then (db, Failed(lock.value))
        else if db.accounts[credit.account].balance < WithdrawalFor(r) then
          if r.status == RowPending then
            var r' := MarkOverdue(r);
            (db.(rows := db.rows[id := r'], credits := db.credits[c := credit.(status := Overdue)]),
             Processed(StillOverdue, r.amount, r'.penalty))
          else (db, Processed(StillOverdue, r.amount, r.penalty))
        else
          var rows' := db.rows[id := r.(status := RowPaid)];
          (Db(AddBalance(db.accounts, credit.account, -WithdrawalFor(r)),
              db.txns + PaymentTxns(credit, r),
              CloseIfPaid(db.credits, rows', c),
              rows',
              db.codes),
           Processed(PaidNow, r.amount, r.penalty))
  }

  // ----- the invariants survive each writer -----

  lemma IssueKeepsSound(credits: seq<Credit>, rows: seq<Row>, req: Request, credit: Credit)
    requires Sound(credits, rows)
    requires 0 < |req.dates| && 0 < req.monthly == credit.monthly && credit.status == Active
    ensures Sound(credits + [credit], rows + NewRows(|credits|, req))
  {
    hide PendingIds;
    var c := |credits|;
    var credits', rows' := credits + [credit], rows + NewRows(c, req);
    assert RowsSound(credits', rows');
    assert DatesInOrder(rows');
    assert Coupled(credits', rows') by {
      assert rows'[|rows|].credit == c;
      forall d | 0 <= d < |credits|
        ensures AllPaid(rows', d) <==> AllPaid(rows, d)
        ensures HasOverdue(rows', d) <==> HasOverdue(rows, d)
      {
        assert forall i :: 0 <= i < |rows| ==> rows'[i] == rows[i];
      }
    }
  }

  /** What the two modes of a partial prepayment differ in: reduce term cuts the schedule to the shortest front that
      covers the debt, reduce payment keeps every row and spreads the debt to within a cent; other modes have no
      plan. */
  ghost predicate PlanFollows(mode: Mode, amounts: seq<int>, news: seq<int>, debt: int) {
    match mode
    case ReduceTermMode =>
      Shortened(amounts, news, |Positive(news)|) && LeastCover(amounts, debt, |Positive(news)|)
    case ReducePaymentMode =>
      && |amounts| <= debt
      && forall j, k :: 0 <= j < k < |news| ==> 0 < news[k] <= news[j] <= news[k] + 1
    case FullCloseMode => false
    case UnknownMode => false
  }

  /** What every mode's new amounts have in common. */
  ghost predicate PlanFits(amounts: seq<int>, news: seq<int>) {
    && |news| == |amounts|
    && NonIncreasing(news)
    && forall k :: 0 <= k < |news| ==> 0 <= news[k] <= amounts[0]
  }

  lemma NewAmountsFit(amounts: seq<int>, amount: int, mode: Mode)
    requires amounts != [] && AllPositive(amounts) && NonIncreasing(amounts)
    requires 0 < amount <= Total(amounts)
    requires NewAmounts(amounts, amount, mode).Some?
    ensures var news := NewAmounts(amounts, amount, mode).value;
            && PlanFits(amounts, news)
            && Total(news) == Total(amounts) - amount
            && (amount < Total(amounts) ==> 0 < news[0])
            && (amount == Total(amounts) ==> forall k :: 0 <= k < |news| ==> news[k] == 0)
            && (amount < Total(amounts) ==> PlanFollows(mode, amounts, news, Total(amounts) - amount))
  {
    hide ReduceTerm, Positive, Sum, LeastCover;
    var remaining := Total(amounts) - amount;
    var news := NewAmounts(amounts, amount, mode).value;
    if remaining == 0 {
      SumZero(news, Cents);
    } else if mode == ReduceTermMode {
      ReduceTermIsExactAndMinimal(amounts, amount);
    } else {
      EvenSplitIsExact(remaining, |amounts|);
      EvenSplitNeverRaises(amounts, remaining, amounts[0]);
    }
  }

  /** Of a sound active credit with pending rows, the amounts Prepay works on are positive and non-increasing. */
  lemma PendingAmountsFit(credits: seq<Credit>, rows: seq<Row>, c: int)
    requires Sound(credits, rows) && 0 <= c < |credits|
    ensures var amounts := PendingAmounts(rows, c);
            && AllPositive(amounts) && NonIncreasing(amounts)
            && forall k :: 0 <= k < |amounts| ==> amounts[k] <= credits[c].monthly
  {
    var ids := PendingIds(rows, c);
    var amounts := PendingAmounts(rows, c);
    assert forall k :: 0 <= k < |ids| ==> amounts[k] == rows[ids[k]].amount;
    assert forall k, l :: 0 <= k < l < |ids| ==> ids[k] < ids[l];
  }

  /** One row under a write-back: rows that were not pending stay, pending ones are paid or lowered to at most m. */
  lemma RewrittenRow(rows: seq<Row>, c: int, news: seq<int>, m: int, i: int)
    requires |news| == |PendingIds(rows, c)| && 0 <= i < |rows|
    requires forall k :: 0 <= k < |news| ==> 0 <= news[k] <= m
    ensures var r, r' := rows[i], WriteBack(rows, PendingIds(rows, c), news)[i];
            && r'.credit == r.credit && r'.date == r.date && r'.penalty == r.penalty
            && (!IsPending(r, c) ==> r' == r)
            && (IsPending(r, c) ==>
                  || (r'.status == RowPaid && r'.amount == r.amount)
                  || (r'.status == RowPending && 0 < r'.amount <= m))
  {
    hide PendingIds;
    var ids := PendingIds(rows, c);
    if i in ids {
      var k :| 0 <= k < |ids| && ids[k] == i;
      WriteBackAt(rows, ids, news, k);
      assert 0 <= news[k] <= m;
    } else {
      WriteBackUntouched(rows, ids, news, i);
    }
  }

  lemma WriteBackOrdersPending(rows: seq<Row>, c: int, news: seq<int>, i: int, j: int)
    requires |news| == |PendingIds(rows, c)| && NonIncreasing(news)
    requires 0 <= i < j < |rows| && IsPending(rows[i], c) && IsPending(rows[j], c)
    ensures var rows' := WriteBack(rows, PendingIds(rows, c), news);
            rows'[i].status == rows'[j].status == RowPending ==> rows'[j].amount <= rows'[i].amount
  {
    hide WriteBack, PendingIds;
    var ids := PendingIds(rows, c);
    var k :| 0 <= k < |ids| && ids[k] == i;
    var l :| 0 <= l < |ids| && ids[l] == j;
    WriteBackAt(rows, ids, news, k);
    WriteBackAt(rows, ids, news, l);
    assert k < l;
  }

  /** Writing a fitting plan back keeps every schedule's shape. */
  lemma WriteBackKeepsShape(credits: seq<Credit>, rows: seq<Row>, c: int, news: seq<int>, m: int)
    requires RowsSound(credits, rows) && DatesInOrder(rows) && PendingNonIncreasing(rows)
    requires |news| == |PendingIds(rows, c)| && NonIncreasing(news)
    requires forall k :: 0 <= k < |news| ==> 0 <= news[k] <= m
    ensures var rows' := WriteBack(rows, PendingIds(rows, c), news);
            && RowsSound(credits, rows')
            && DatesInOrder(rows')
            && PendingNonIncreasing(rows')
            && (forall i :: 0 <= i < |rows| && IsPending(rows'[i], c) ==> rows'[i].amount <= m)
            && (forall i :: 0 <= i < |rows| ==> rows'[i].credit == rows[i].credit)
            && (forall i :: 0 <= i < |rows| && rows[i].credit != c ==> rows'[i] == rows[i])
  {
    hide WriteBack, PendingIds;
    var rows' := WriteBack(rows, PendingIds(rows, c), news);
    forall i | 0 <= i < |rows|
      ensures rows'[i].credit == rows[i].credit && rows'[i].date == rows[i].date
      ensures 0 < rows'[i].amount && PenaltyRule(rows'[i])
      ensures IsPending(rows'[i], c) ==> IsPending(rows[i], c) && rows'[i].amount <= m
      ensures rows[i].credit != c ==> rows'[i] == rows[i]
    {
      RewrittenRow(rows, c, news, m, i);
    }
    forall i, j | 0 <= i < j < |rows| && IsPending(rows'[i], c) && IsPending(rows'[j], c)
      ensures rows'[j].amount <= rows'[i].amount
    {
      WriteBackOrdersPending(rows, c, news, i, j);
    }
  }

  lemma PrepayKeepsSound(credits: seq<Credit>, rows: seq<Row>, c: int, amount: int, mode: Mode)
    requires Sound(credits, rows) && 0 <= c < |credits| && credits[c].status == Active
    requires PendingIds(rows, c) != [] && 0 < amount <= Total(PendingAmounts(rows, c))
    requires NewAmounts(PendingAmounts(rows, c), amount, mode).Some?
    ensures var news := NewAmounts(PendingAmounts(rows, c), amount, mode).value;
            var credit' := Replanned(credits[c], news, Total(PendingAmounts(rows, c)) - amount);
            Sound(credits[c := credit'], WriteBack(rows, PendingIds(rows, c), news))
  {
    hide WriteBack, PendingIds, ReduceTerm, Sum;
    var amounts := PendingAmounts(rows, c);
    PendingAmountsFit(credits, rows, c);
    NewAmountsFit(amounts, amount, mode);
    var news := NewAmounts(amounts, amount, mode).value;
    WriteBackKeepsSound(credits, rows, c, news, Replanned(credits[c], news, Total(amounts) - amount));
  }

  lemma WriteBackKeepsSound(credits: seq<Credit>, rows: seq<Row>, c: int, news: seq<int>, credit': Credit)
    requires Sound(credits, rows) && 0 <= c < |credits| && credits[c].status == Active
    requires |news| == |PendingIds(rows, c)| && news != [] && NonIncreasing(news)
    requires forall k :: 0 <= k < |news| ==> 0 <= news[k]
    requires if news[0] == 0 then credit'.status == Closed else credit'.status == Active && credit'.monthly == news[0]
    ensures Sound(credits[c := credit'], WriteBack(rows, PendingIds(rows, c), news))
  {
    hide WriteBack, PendingIds;
    var credits' := credits[c := credit'];
    WriteBackKeepsShape(credits, rows, c, news, news[0]);
    WriteBackCouples(credits, rows, c, news, credits');
    WriteBackWithinMonthly(credits, rows, WriteBack(rows, PendingIds(rows, c), news), c, credits', news[0]);
  }

  lemma WriteBackWithinMonthly(
      credits: seq<Credit>, rows: seq<Row>, rows': seq<Row>, c: int, credits': seq<Credit>, m: int)
    requires WithinMonthly(credits, rows) && RowsSound(credits, rows') && |rows'| == |rows|
    requires |credits'| == |credits| && 0 <= c < |credits|
    requires forall d :: 0 <= d < |credits| && d != c ==> credits'[d] == credits[d]
    requires forall i :: 0 <= i < |rows| && IsPending(rows'[i], c) ==> rows'[i].amount <= m
    requires forall i :: 0 <= i < |rows| && rows[i].credit != c ==> rows'[i] == rows[i]
    requires forall i :: 0 <= i < |rows| && rows[i].credit == c ==> rows'[i].credit == c
    requires 0 < m ==> credits'[c].monthly == m
    ensures WithinMonthly(credits', rows')
  {
  }

  lemma RowOfActiveCredit(rows: seq<Row>, c: int, news: seq<int>, i: int)
    requires |news| == |PendingIds(rows, c)| > 0 && 0 <= i < |rows| && !HasOverdue(rows, c)
    requires forall k :: 0 <= k < |news| ==> 0 <= news[k] <= news[0]
    ensures var r, r' := rows[i], WriteBack(rows, PendingIds(rows, c), news)[i];
            && r'.credit == r.credit && (r.credit != c ==> r' == r)
            && (r.credit == c ==> r'.status != RowOverdue)
            && (r.credit == c && news[0] == 0 ==> r'.status == RowPaid)
  {
    RewrittenRow(rows, c, news, news[0], i);
  }

  /** After the write-back the credit is fully paid exactly when the plan left nothing. */
  lemma WriteBackCouples(credits: seq<Credit>, rows: seq<Row>, c: int, news: seq<int>, credits': seq<Credit>)
    requires Coupled(credits, rows) && 0 <= c < |credits| && credits[c].status == Active
    requires PendingIds(rows, c) != [] && |news| == |PendingIds(rows, c)|
    requires forall k :: 0 <= k < |news| ==> 0 <= news[k] <= news[0]
    requires |credits'| == |credits| && forall d :: 0 <= d < |credits| && d != c ==> credits'[d] == credits[d]
    requires credits'[c].status == if news[0] == 0 then Closed else Active
    ensures Coupled(credits', WriteBack(rows, PendingIds(rows, c), news))
  {
    hide WriteBack, PendingIds;
    var ids := PendingIds(rows, c);
    var rows' := WriteBack(rows, ids, news);
    forall i | 0 <= i < |rows|
      ensures rows'[i].credit == rows[i].credit && (rows[i].credit != c ==> rows'[i] == rows[i])
      ensures rows[i].credit == c ==> rows'[i].status != RowOverdue
      ensures rows[i].credit == c && news[0] == 0 ==> rows'[i].status == RowPaid
    {
      RowOfActiveCredit(rows, c, news, i);
    }
    WriteBackAt(rows, ids, news, 0);
    assert rows'[ids[0]].credit == c;
    ScheduleChangeCouples(credits, rows, rows', c, credits');
  }

  lemma OverdueKeepsSound(credits: seq<Credit>, rows: seq<Row>, id: int)
    requires Sound(credits, rows) && 0 <= id < |rows| && rows[id].status == RowPending
    ensures var c := rows[id].credit;
            Sound(credits[c := credits[c].(status := Overdue)], rows[id := MarkOverdue(rows[id])])
  {
    var c := rows[id].credit;
    var rows' := rows[id := MarkOverdue(rows[id])];
    var credits' := credits[c := credits[c].(status := Overdue)];
    assert rows'[id].status == RowOverdue;
    assert RowsSound(credits', rows');
    assert DatesInOrder(rows') && PendingNonIncreasing(rows') && WithinMonthly(credits', rows');
    ScheduleChangeCouples(credits, rows, rows', c, credits');
  }

  lemma PaidKeepsSound(credits: seq<Credit>, rows: seq<Row>, id: int)
    requires Sound(credits, rows) && 0 <= id < |rows| && rows[id].status != RowPaid
    ensures var rows' := rows[id := rows[id].(status := RowPaid)];
            Sound(CloseIfPaid(credits, rows', rows[id].credit), rows')
  {
    var c := rows[id].credit;
    var rows' := rows[id := rows[id].(status := RowPaid)];
    var credits' := CloseIfPaid(credits, rows', c);
    assert RowsSound(credits', rows');
    assert DatesInOrder(rows') && PendingNonIncreasing(rows') && WithinMonthly(credits', rows');
    assert !AllPaid(rows, c);
    assert HasOverdue(rows', c) ==> HasOverdue(rows, c);
    ScheduleChangeCouples(credits, rows, rows', c, credits');
  }

  /** Changing rows of one credit leaves the coupling of every other credit alone. */
  lemma ScheduleChangeCouples(credits: seq<Credit>, rows: seq<Row>, rows': seq<Row>, c: int, credits': seq<Credit>)
    requires Coupled(credits, rows) && |credits'| == |credits| && |rows'| == |rows|
    requires forall i :: 0 <= i < |rows| ==>
      rows'[i].credit == rows[i].credit && (rows[i].credit != c ==> rows'[i] == rows[i])
    requires forall d :: 0 <= d < |credits| && d != c ==> credits'[d] == credits[d]
    requires 0 <= c < |credits| ==>
      && (credits'[c].status == Closed <==> AllPaid(rows', c))
      && (credits'[c].status == Active ==> !HasOverdue(rows', c))
    ensures Coupled(credits', rows')
  {
    forall d | 0 <= d < |credits| && d != c
      ensures AllPaid(rows', d) <==> AllPaid(rows, d)
      ensures HasOverdue(rows', d) <==> HasOverdue(rows, d)
    {
    }
  }

  // ----- the stored term keeps covering the pending rows -----

  lemma IssueKeepsTerms(credits: seq<Credit>, rows: seq<Row>, req: Request, credit: Credit)
    requires RowsSound(credits, rows) && TermsCover(credits, rows) && credit.term == |req.dates|
    ensures TermsCover(credits + [credit], rows + NewRows(|credits|, req))
  {
    hide Sum, PendingIds;
    var c, news := |credits|, NewRows(|credits|, req);
    forall d | 0 <= d <= c ensures |PendingIds(rows + news, d)| <= (credits + [credit])[d].term {
      PendingCount(rows, d);
      PendingCount(rows + news, d);
      SumConcat(rows, news, PendingOne(d));
      SumAtMost(news, PendingOne(d), 1);
      if d == c {
        SumZero(rows, PendingOne(d));
      } else {
        SumZero(news, PendingOne(d));
      }
    }
  }

  /** After a write-back a credit has as many pending rows as the plan has positive amounts; other credits keep
      theirs. */
  lemma WriteBackCounts(rows: seq<Row>, c: int, news: seq<int>, d: int)
    requires |news| == |PendingIds(rows, c)| && forall k :: 0 <= k < |news| ==> 0 <= news[k]
    ensures |PendingIds(WriteBack(rows, PendingIds(rows, c), news), d)|
         == if d == c then |Positive(news)| else |PendingIds(rows, d)|
  {
    hide Sum, PendingIds, WriteBack;
    var ids := PendingIds(rows, c);
    var rows' := WriteBack(rows, ids, news);
    PendingCount(rows, d);
    PendingCount(rows', d);
    if d == c {
      WriteBackPendingCount(rows, ids, news, c);
    } else {
      forall i | 0 <= i < |rows| ensures PendingOne(d)(rows'[i]) == PendingOne(d)(rows[i]) {
        SameForOthers(rows, c, news, d, i);
      }
      SumCongruent(rows', rows, PendingOne(d), PendingOne(d));
    }
  }

  lemma SameForOthers(rows: seq<Row>, c: int, news: seq<int>, d: int, i: int)
    requires |news| == |PendingIds(rows, c)| && 0 <= i < |rows| && d != c
    ensures PendingOne(d)(WriteBack(rows, PendingIds(rows, c), news)[i]) == PendingOne(d)(rows[i])
  {
    hide PendingIds;
    var ids := PendingIds(rows, c);
    if i in ids {
      var k :| 0 <= k < |ids| && ids[k] == i;
      WriteBackAt(rows, ids, news, k);
    } else {
      WriteBackUntouched(rows, ids, news, i);
    }
  }

  lemma {:induction false} NonePositive(s: seq<int>)
    requires forall k :: 0 <= k < |s| ==> s[k] == 0
    ensures Positive(s) == []
  {
    if s != [] {
      NonePositive(s[..|s| - 1]);
    }
  }

  lemma PrepayKeepsTerms(credits: seq<Credit>, rows: seq<Row>, c: int, amount: int, mode: Mode)
    requires Sound(credits, rows) && TermsCover(credits, rows) && 0 <= c < |credits|
    requires PendingIds(rows, c) != [] && 0 < amount <= Total(PendingAmounts(rows, c))
    requires NewAmounts(PendingAmounts(rows, c), amount, mode).Some?
    ensures var news := NewAmounts(PendingAmounts(rows, c), amount, mode).value;
            var credit' := Replanned(credits[c], news, Total(PendingAmounts(rows, c)) - amount);
            TermsCover(credits[c := credit'], WriteBack(rows, PendingIds(rows, c), news))
  {
    hide WriteBack, PendingIds, ReduceTerm, Sum, Positive, NewAmounts;
    var amounts := PendingAmounts(rows, c);
    PendingAmountsFit(credits, rows, c);
    NewAmountsFit(amounts, amount, mode);
    var news := NewAmounts(amounts, amount, mode).value;
    if amount == Total(amounts) {
      NonePositive(news);
    }
    var credits' := credits[c := Replanned(credits[c], news, Total(amounts) - amount)];
    forall d | 0 <= d < |credits|
      ensures |PendingIds(WriteBack(rows, PendingIds(rows, c), news), d)| <= credits'[d].term
    {
      WriteBackCounts(rows, c, news, d);
    }
  }

  /** One row leaving the pending state, or a paid one, only lowers the counts. */
  lemma RowChangeKeepsTerms(credits: seq<Credit>, rows: seq<Row>, id: int, r': Row, credits': seq<Credit>)
    requires TermsCover(credits, rows) && 0 <= id < |rows| && r'.status != RowPending
    requires |credits'| == |credits| && forall d :: 0 <= d < |credits| ==> credits'[d].term == credits[d].term
    ensures TermsCover(credits', rows[id := r'])
  {
    hide Sum, PendingIds;
    forall d | 0 <= d < |credits| ensures |PendingIds(rows[id := r'], d)| <= credits'[d].term {
      PendingCount(rows, d);
      PendingCount(rows[id := r'], d);
      SumUpdate(rows, id, r', PendingOne(d));
    }
  }
}
