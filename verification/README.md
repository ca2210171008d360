# A verified model of the bank core

The bank keeps accounts, a transaction log, credits with payment schedules, one-time (MFA) codes, idempotency keys,
sessions and revoked tokens in database tables. This project models what its repositories, services and middleware do
to those tables and proves what every run of them guarantees. `dafny verify dfyconfig.toml` checks all of it.

**The bank machine.** `Tables` holds the rows (money is an integer number of cents, an id is a position in an
append-only table). `Accounts`, `Credits` and `Mfa` give each repository operation as a function from the tables to the
committed tables, or to the unchanged ones with the reason of the rollback. `Bank.Step` is one operation, `Bank.Run` any
sequence of them, and `Bank.Inv` what every reachable state satisfies. `AccountEffects` and `CreditEffects` say of each
operation, from its request alone, exactly when it commits, what it changes and which refusal comes first, without the
functions that compute it. `BankRuns` and `Calendar` draw the consequences over whole runs, `Guards` what the checks in
front of the operations achieve, and `Limits` why int64 and NUMERIC are wide enough.
`BankStore.Store` is the same code in the form the repositories have: tables in fields, rows rewritten in loops, a
rollback on error. Every method of it ends in exactly the state and outcome of its step. `Prepayment` is the
arithmetic of the two ways a prepayment rewrites a schedule, `Schedule` the write-back and the invariants of schedule
rows, `Ledger` the statistics query, `Policy` the credit policy, `Scheduler` the due list, its batches and which rows a
run collects.

**Interleaved protocols.** `Admission` (the policy check before and inside the transaction, with the user's advisory
lock), `Idempotency` (claim, execute, store or release), `MfaProtocol` (issue, verify, then spend together with the
operation, or roll back), `RevocationCache` (every lock section of the cache is a step), `TokenChecks` (that cache in
front of the session tables), `RateRaces` (clock readings and critical sections of the rate limiter) and `Locks`
(explicit locks of concurrent transactions; `LockCoverage` ties them to what the bank machine writes) are state machines
over events; their theorems quantify over every sequence of events.

**Components.** `RateLimiter`, `Revocation`, `Card`, `MoneyText` and `OperationHash`, over the text forms in `Text`.

What came out that a reader of the code would not expect:

- The overdue-row test in `Prepay` never decides anything (`BankRuns.OverdueCheckIsRedundant`), nor do the tests for a
  new amount of zero or less in the two rewriting loops (`BankStore.Store.TakeOff` and `SplitEvenly` assert so).
- The scheduler retries missed payments, but only the first 100 rows of the due list get their turn: a run changes
  nothing exactly when every row of its batch is stuck, and then every later run is held up too
  (`Scheduler.StuckBatchHoldsTheRestUp`). A row nearer the front is collected as soon as its account covers it
  (`Scheduler.OwingRowIsCollected`).
- A revocation is permanent exactly if the revoked row lasts as long as the session or the session itself is ended.
  Login and logout always meet this, `SaveRevokedToken` alone does not (`Revocation.ForgottenRevocation`).
- The rate limiter reads the clock before it takes its lock, so times can fall back in lock order. One window lets at most
  2 * limit - 1 requests through exactly while they fall back by at most one tick (or the limit is 1) and cleanup is
  invisible; further back the sharp bound grows with the number of windows that can reach into one
  (`RateRaces.RaceBoundIff`, `RateLimiter.RateBoundWithin`, `RateLimiter.BoundIsReached`).
- Collecting rate-limit entries is invisible exactly if it is switched off or window and fall-back together are at most
  twice the cleanup interval plus one tick (`RateLimiter.CleanupIsInvisibleIff`).
- Parsing an accepted amount is exact precisely when its cents fit int64; larger ones wrap (`MoneyText.LargeAmountsWrap`).
  The parser alone also reads signs and a point without digits; only the grammar in front of it keeps those out
  (`MoneyText.ReadOutsideTheGrammar`).
- At most one handler run per idempotency key succeeds exactly when retention is at least the longest time a request can
  take (`Idempotency.AtMostOneSuccessIff`); the configuration does not enforce it.
- `Prepay` and `ProcessPayment` take the credit row and a schedule row in opposite orders. The seven kinds of locking
  transactions never wait in a circle, and can always all commit, exactly when no row locked by a prepayment is also
  collected by a payment (`Locks.DeadlockFreeIff`); keeping a credit's prepayments and payments apart is enough.
- Two overlapping issues of a code for the same operation leave two usable codes
  (`MfaProtocol.OverlappingIssuesLeaveTwo`); each of them still commits at most once. The cooldown in front of the issue
  (internal/services/mfa_service.go:120-123) has to be off, run in several processes, or be outlasted by an issue for
  two of them to overlap.
- The idempotency recorder stores what the client got exactly when whatever a handler sets last after its header went out
  repeats what was sent (`Idempotency.RecordedIsSentIff`). The repository's own handlers write their header once
  (internal/handlers/response.go:10-15, internal/handlers/endpoint.go:55-62), so only another handler can differ.

Where code and documentation differ the code is followed: README.md:726-735 lists the idempotent operations without
credit prepayment, internal/middleware/idempotency.go:262-273 includes it. The protocol is modelled for one key and does
not depend on that list.

## Model

| member | source | states |
|---|---|---|
| Bank.StepKeepsInv | internal/repositories/account_repository.go:222-593 | every operation, successful or refused, keeps ledger agreement, schedule shape, status coupling, ownership, closed accounts at rest, and penalties booked exactly once |
| Bank.EveryRunIsSound | migrations/001_init.sql:11-112 | all those invariants hold after any sequence of operations on the empty bank |
| Bank.PaymentKeepsBooks | internal/repositories/credit_payment_repository.go:128-185 | one withdrawal of amount plus penalty, logged as two transactions, keeps balance and log equal |
| Bank.IssueKeepsInv | internal/repositories/credit_repository.go:85-169 | issuing a credit keeps every invariant |
| Bank.PrepayKeepsInv | internal/repositories/credit_repository.go:171-316 | a prepayment in any mode keeps every invariant |
| Bank.ProcessPaymentKeepsInv | internal/repositories/credit_payment_repository.go:96-203 | processing any schedule row, stale or not, keeps every invariant |
| BankRuns.BalanceIsRecomputed | internal/repositories/analytics_repository.go:525-563 | in every reachable state each balance is non-negative and equals the net amount the statistics query folds from the completed transactions |
| Ledger.BreakdownAddsUp | internal/repositories/analytics_repository.go:565-582 | the per-type net amounts add up to the summary's net amount |
| BankRuns.ScheduleShape | internal/repositories/credit_repository.go:849-889 | in every reachable state a credit's pending amounts are positive and non-increasing, the stored monthly payment is at least the first, and there are no more of them than the stored term |
| BankRuns.StatusCoupling | internal/repositories/credit_payment_repository.go:321-353 | in every reachable state a credit is closed exactly when all its rows are paid, an active one has no overdue row, and the penalties logged are those of its paid rows |
| BankRuns.PenaltyIsATenth | internal/repositories/credit_payment_repository.go:300-319 | a pending row has no penalty; an overdue row's is a tenth of its amount rounded half up to a cent |
| BankRuns.DebtIsConserved | internal/repositories/credit_repository.go:140-162 | over every run, repayments plus prepayments plus unpaid rows of a credit add up to the schedule it was issued with |
| BankRuns.StepConservesDebt | internal/repositories/credit_repository.go:171-316 | no operation changes what any existing credit has repaid plus owes |
| BankRuns.FailureChangesNothing | internal/repositories/credit_repository.go:190-225 | an operation that fails leaves every table as it was |
| BankRuns.StatusesMoveForward | internal/repositories/credit_repository.go:1037-1116 | no operation moves a credit back along active, overdue, closed, or changes its user or account |
| BankRuns.StatusesMoveForwardOverRuns | internal/repositories/credit_repository.go:1037-1116 | over every run a credit goes active, overdue, closed and never back, so a closed credit never reopens |
| BankRuns.RowsMoveForwardOverRuns | internal/repositories/credit_payment_repository.go:285-319 | over every run a row goes pending, overdue, paid and never back; amount and penalty are fixed once it left pending, and a paid row never changes |
| BankRuns.RetryIsSafe | internal/repositories/credit_payment_repository.go:106-148 | processing one row any number of times, pending or stale, charges its account at most once, keeps the amount, sets the penalty at most once and to a tenth, and changes nothing for a paid row |
| BankRuns.OverdueCheckIsRedundant | internal/repositories/credit_repository.go:186-203 | an active credit never has an overdue row and always has a pending one |
| BankRuns.PrepaymentOutcome | internal/repositories/credit_repository.go:286-316 | a successful prepayment never raises the monthly payment and never lengthens the term against the ones it reports as old, and the term and debt it reports are the number and total of the rows still unpaid |
| BankRuns.ClosedAccountsStayAtRest | internal/repositories/account_repository.go:551-593 | once closed, an account stays closed through every later run with balance zero, no open credit and no unpaid row |
| BankRuns.BlockingCreditIsOpenCredit | internal/repositories/account_repository.go:743-767 | in a sound state the blocking-credit query is true exactly for an account with an active or overdue credit |
| BankRuns.TransferKeepsTotal | internal/repositories/account_repository.go:392-549 | a transfer takes exactly the requested amount off the source and puts it on the target, keeps the total of all balances, and to itself changes no balance |
| AccountEffects.TransferMovesItsAmount | internal/repositories/account_repository.go:392-549 | a transfer commits exactly when both accounts are in use, the source is the user's, the code passes, the amount is positive and covered and fits the target; then the source has exactly the amount less, the target exactly the amount more, that amount is logged, and nothing else changes |
| AccountEffects.TransferRefusals | internal/repositories/account_repository.go:629-697 | which of the six refusals a transfer gets, in the order of its checks |
| AccountEffects.DepositAddsItsAmount | internal/repositories/account_repository.go:222-248 | commits exactly on the user's own account in use for a positive amount that fits, adds and logs exactly it, and changes no other account |
| AccountEffects.SpendingTakesItsAmount | internal/repositories/account_repository.go:250-390 | commits exactly on the user's own account in use with a code that passes and a positive amount the balance covers, takes and logs exactly it, and changes no other account; else the refusal due first |
| AccountEffects.OpenAccountAddsAnEmptyOne | internal/repositories/account_repository.go:30-55 | the new account is the user's, empty and in use, and no account changes |
| AccountEffects.SetBlockedSetsOneFlag | internal/repositories/admin_repository.go:236-275 | done exactly when the account is not in the wanted state yet, and changes that flag alone |
| AccountEffects.CloseNeedsNothingLeft | internal/repositories/account_repository.go:551-593 | in a sound state an account closes exactly when it is the user's, in use, empty and without an open credit, and only its flag changes; else the refusal due first |
| Calendar.BalanceIsWhatWasAsked | internal/repositories/account_repository.go:222-549 | over every run each balance is the sum of what the committed requests asked for: deposits, spending, transfers, principals, prepayments and collected instalments with penalties |
| Ledger.SummaryOfOneMore | internal/repositories/analytics_repository.go:525-563 | a completed transaction adds its amount to the income of the account it enters and the expense of the one it leaves, and to neither when both are the same |
| CreditEffects.PrepaysExactlyWhenItMay | internal/repositories/credit_repository.go:171-302 | a prepayment goes through exactly on the user's active credit with the account in use, a usable code, a covered amount within what is owed, and, if debt stays, reduce_term or reduce_payment with a cent for every row; so never a partial full_close or an unknown mode |
| CreditEffects.PrepayFollowsItsMode | internal/repositories/credit_repository.go:256-316 | reduce_term leaves a front of the old amounts with at most its last lowered and no shorter front covers the debt, reduce_payment leaves every row with amounts at most a cent apart; rows taken off are paid with their amount, other rows and credits are untouched, and the credit and the answer hold the new term, monthly payment and debt |
| CreditEffects.PrepayTakesItsAmount | internal/repositories/credit_repository.go:227-246 | it takes exactly its amount off the credit's account and logs it for the credit |
| CreditEffects.PrepayRefusals | internal/repositories/credit_repository.go:171-302 | which refusal a prepayment gets, in the order of its checks |
| CreditEffects.ModePlan | internal/repositories/credit_repository.go:256-297 | the positive part of every plan is a front of it, of the shape its mode calls for |
| CreditEffects.IssuesExactlyWhenItMay | internal/repositories/credit_repository.go:85-169 | a credit is issued exactly for a term of 1 to 120 on the user's own account in use, with the policy off or all its limits readable and none violated, a usable code, and amounts the columns admit |
| CreditEffects.IssueFollowsItsDates | internal/repositories/credit_repository.go:721-744 | by every day the new credit's rows that fall due sum to the monthly payment times the requested dates up to that day; all are pending without penalty, the principal is paid out and logged, and earlier rows and credits stay |
| CreditEffects.IssueRefusals | internal/services/credit_service.go:108-162 | which refusal a creation gets; a policy refusal names the violated limit that is checked first |
| CreditEffects.PaidExactlyWhenCovered | internal/repositories/credit_payment_repository.go:96-203 | a row is collected exactly when it is unpaid, its account is in use and holds amount plus penalty; that sum leaves the account and is logged, and the credit closes with its last unpaid row |
| CreditEffects.UncollectedRowsGoOverdue | internal/repositories/credit_payment_repository.go:106-148 | a paid row is skipped, an account not in use is an error, and otherwise a row not covered goes overdue, at first with a tenth as penalty, with nothing else but its credit's status changed |
| Calendar.NoInstalmentBeforeItsDate | internal/repositories/credit_payment_repository.go:44-94 | from any issue on, whatever is requested and however often the scheduler runs up to day t, the instalments charged plus those unpaid and due by t are at most the monthly payment times the payment dates up to t, and equal to it without prepayments |
| Calendar.ReplansNeverAskEarlier | internal/repositories/credit_repository.go:900-977 | no first part of a replanned schedule asks for more than the same part of the old one |
| BankRuns.CommitSpendsItsCode | internal/repositories/mfa_tx.go:9-33 | an operation with a code commits only while the code is unspent and unexpired, and spends exactly it; a failed one spends nothing |
| BankRuns.CodeCommitsOnce | internal/repositories/account_repository.go:278-315 | in any run, of all operations carrying the same code at most one commits |
| Guards.FrozenAccountsKeepTheirMoney | internal/repositories/account_repository.go:597-697 | no operation moves money into or out of a blocked or closed account, or closes a blocked one |
| Guards.BalanceFallsOnlyForItsOwner | internal/repositories/account_repository.go:629-697 | whenever a balance falls, its owner spends or a due payment of the owner's credit is collected |
| Guards.CreditsMeetThePolicy | internal/services/credit_service.go:129-150 | with the policy on, a credit is issued only when the request violates no limit on what is committed |
| Guards.UncollectedMeansUncovered | internal/repositories/credit_payment_repository.go:128-148 | a payment left overdue was not covered by the balance, and no money moved |
| Guards.CollectedIsLogged | internal/repositories/credit_payment_repository.go:150-185 | a collected payment charges the account exactly the amount and penalty it logs |
| Limits.EveryRunFits | migrations/001_init.sql:11-112 | in every reachable state balances and row amounts fit their columns and no schedule exceeds the longest term |
| Limits.OutstandingFitsInt64 | internal/repositories/credit_repository.go:891-898 | in every reachable state the int64 sum of a credit's pending amounts does not overflow |
| Prepayment.ReduceTermIsExactAndMinimal | internal/repositories/credit_repository.go:900-938 | the surviving rows are a prefix with at most the last one lowered, sum to the remaining debt, and no shorter prefix covers that debt |
| Prepayment.EvenSplitIsExact | internal/repositories/credit_repository.go:940-977 | the new amounts sum to the debt, differ by at most a cent with the larger first, and are positive when there is a cent for each row |
| Prepayment.EvenSplitIsUnique | internal/repositories/credit_repository.go:940-977 | it is the only non-increasing split of the debt whose amounts differ by at most a cent |
| Prepayment.EvenSplitNeverRaises | internal/repositories/credit_repository.go:954-966 | no new amount exceeds the largest old one |
| Schedule.WriteBackOwed | internal/repositories/credit_repository.go:990-1035 | writing new amounts back changes what the credit owes by exactly the difference of the totals |
| Credits.NewAmountsFit | internal/repositories/credit_repository.go:256-297 | whatever the mode, the plan sums to outstanding minus prepayment, is non-increasing and never exceeds the first old amount; reduce term gives the shortest front that covers the debt, reduce payment a split over all rows to within a cent, and no other mode a partial plan |
| Credits.PrepayKeepsSound | internal/repositories/credit_repository.go:240-316 | rewriting a schedule keeps its shape, its dates and the coupling with the credit's status |
| BankStore.SumPending | internal/repositories/credit_repository.go:891-898 | the loop returns the total of the amounts |
| BankStore.FilterPositive | internal/repositories/credit_repository.go:979-988 | the loop returns the payments with positive amounts, in order |
| BankStore.Store.FindPending | internal/repositories/credit_repository.go:849-889 | the credit's pending rows in schedule order |
| BankStore.Store.ApplyReduceTerm | internal/repositories/credit_repository.go:900-938 | in-place rewriting from the back ends in the reduce-term plan, its first amount and its length |
| BankStore.Store.TakeOffFromBack | internal/repositories/credit_repository.go:906-927 | the backward loop itself, with rows and payments updated as it goes |
| BankStore.Store.ApplyReducePayment | internal/repositories/credit_repository.go:940-977 | refuses exactly when there are fewer cents than rows, otherwise ends in the even split |
| BankStore.Store.Prepay | internal/repositories/credit_repository.go:171-316 | same state and outcome as the step, refusals in the same order, everything rolled back on error, on all tables that meet the CHECK on schedule amounts |
| BankStore.Store.ProcessPayment | internal/repositories/credit_payment_repository.go:96-203 | same state and outcome as the step |
| BankStore.Store.CreateCredit | internal/repositories/credit_repository.go:85-169 | same state and outcome as the step |
| BankStore.Store.OpenAccount | internal/repositories/account_repository.go:30-55 | same state and outcome as the step |
| BankStore.Store.SetBlocked | internal/repositories/admin_repository.go:236-275 | same state and outcome as the step, refusing a status that is already set |
| BankStore.Store.Deposit | internal/repositories/account_repository.go:222-248 | same state and outcome as the step |
| BankStore.Store.Spend | internal/repositories/account_repository.go:250-390 | same state and outcome as the step, with or without a code |
| BankStore.Store.Transfer | internal/repositories/account_repository.go:392-549 | same state and outcome as the step |
| BankStore.Store.LockTransferAccounts | internal/repositories/account_repository.go:631-697 | scanning the locked rows and raising flags reports exactly the error the rows call for |
| BankStore.Store.Close | internal/repositories/account_repository.go:551-593 | same state and outcome as the step |
| BankStore.Store.ProcessDuePayments | internal/services/credit_payment_service.go:45-72 | one run processes the due list in order, failures skipped |
| Policy.DecisionListsTheViolations | internal/services/credit_service.go:326-377 | a decision is eligible exactly when its reason list is empty, lists exactly the violated limits, each once in the order of the checks, and is headed by the first |
| Policy.UndecidedIffUnreadable | internal/services/credit_service.go:265-368 | the decision fails exactly when the policy is on and one of its two amount limits cannot be read |
| Policy.SummaryOfOneMore | internal/repositories/credit_repository.go:594-643 | a credit adds to the risk summary only of its user and only while not closed: one, its principal, its monthly payment, and one overdue when it is |
| Policy.OpenCreditsAreCounted | internal/repositories/credit_repository.go:594-603 | the active count is the number of the user's credits that are not closed |
| Policy.BuildDecision | internal/services/credit_service.go:265-368 | adding reasons to the response in place ends in that decision |
| Admission.NoUserExceedsTheLimit | internal/services/credit_service.go:108-162 | with the policy on and a positive limit, no interleaving of creations, prepayments and scheduler steps takes a user's active plus overdue credits above the limit, however stale the first check was |
| Admission.AtomicCreateIsOneFlight | internal/repositories/credit_repository.go:103-138 | the atomic creation is the uninterrupted run of check, lock, check, commit |
| Scheduler.DueListIsWhatIsOwing | internal/repositories/credit_payment_repository.go:44-94 | in every sound state the due list is exactly the rows that are not paid and whose date has come, overdue ones included |
| Scheduler.FindDueTakesTheEarliest | internal/repositories/credit_payment_repository.go:44-94 | the list is in (date, id) order, and every unpaid row whose date has come is in it or comes after all of a full list |
| Scheduler.OwingRowIsCollected | internal/services/credit_payment_service.go:45-72 | a pending or overdue row with fewer than 100 unpaid due rows in front of it is paid by the next run once its account holds what its rows up to that date cost, whatever other accounts hold |
| Scheduler.BatchServes | internal/services/credit_payment_service.go:55-69 | an account that can pay all its rows up to a day pays every row of its own in a batch of rows up to that day; failing payments of others do not stop it |
| Scheduler.StuckBatchHoldsTheRestUp | internal/services/credit_payment_service.go:45-72 | a run changes nothing exactly when every row of its batch is paid, on an account not in use, or overdue and uncovered; then no later run changes anything either |
| Scheduler.OneRunPaysItsBatch | internal/services/credit_payment_service.go:45-72 | over funded accounts a run pays exactly the first min(100, n) of n unpaid due rows and changes no other row |
| Scheduler.SchedulerDrains | internal/services/credit_payment_service.go:45-72 | over funded accounts k runs pay 100 k of the unpaid due rows, and after enough of them every row whose date has come is paid |
| Scheduler.BatchIsARun | internal/services/credit_payment_service.go:55-69 | a batch is a run of single payments, so it keeps every invariant whatever the accounts hold |
| Idempotency.AtMostOneSuccess | internal/middleware/idempotency.go:75-131 | over every interleaving, when each purge spares rows younger than the requests then at work, at most one handler run ends below 400 while the row is there |
| Idempotency.AtMostOneSuccessIff | internal/repositories/idempotency_repository.go:173-190 | for all retentions and request lifetimes, every run has at most one success exactly when the lifetime is at most the retention |
| Idempotency.StoredResponseStays | internal/repositories/idempotency_repository.go:113-171 | a stored response is never replaced or released until a purge reaches its row |
| Idempotency.SettledIsStoredOrFreed | internal/middleware/idempotency.go:109-129 | from every reachable state a claimant that settles has its answer sent; below 400 the row then holds exactly that response under its claim, at 400 or above the key is free |
| Idempotency.LaterRequestsReplay | internal/repositories/idempotency_repository.go:63-111 | in every run, once a response below 400 has been written, every request that arrives later while no purge reaches the claim runs no handler and is answered with that status and body (an error for a type that may not be replayed), or a conflict for another hash |
| Idempotency.NextRequestIsServed | internal/middleware/idempotency.go:75-107 | a request claims a free key and can run its handler; on a taken one it can always be answered as the row demands |
| Idempotency.RunHandler | internal/middleware/idempotency.go:107-108 | writing through the recorder call by call ends in the recorded response |
| Idempotency.EarlyPurgeRunsTwice | internal/repositories/idempotency_repository.go:173-190 | from any safe state, a purge that reaches the row of a request still at work lets two handler runs succeed |
| Idempotency.KeyTable.DeleteOlderThan | internal/repositories/idempotency_repository.go:173-190 | removes exactly the rows created before the cutoff, as the protocol's purge does for one key |
| Idempotency.RecordedIsSentIff | internal/middleware/idempotency.go:134-159 | for every handler, what is stored is what the client got exactly when the status and content type set last after the header went out, if any, repeat the sent ones |
| Idempotency.RecordedIsLateOrSent | internal/middleware/idempotency.go:134-159 | for every handler, the stored body is the sent one, and status and content type are the late ones where there are any and the sent ones otherwise |
| Idempotency.KeptAsSentIff | internal/middleware/idempotency.go:110-129 | storing or releasing the key follows the sent status exactly when a late status, if any, is on the same side of 400 |
| Idempotency.RecordedIsSent | internal/handlers/endpoint.go:55-62 | so a handler that touches nothing of its header once it went out is recorded as sent |
| Idempotency.LateHeaderIsMisread | internal/middleware/idempotency.go:147-150 | after any output whose header went out, writing a header with another status makes the record differ from what was sent |
| Idempotency.KeyTable.Serve | internal/middleware/idempotency.go:75-131 | a first request is answered by its handler and below 400 its recorded response stays in the table, else nothing does; a duplicate changes nothing and is told what the row demands; this is where the protocol takes an uninterrupted request, and no other key is touched |
| MfaProtocol.SingleUse | internal/services/mfa_service.go:333-375 | over every interleaving each code is spent by at most one committed operation, of the user it was issued to and with the operation data it was issued for |
| MfaProtocol.CommitsAreConfirmed | internal/services/mfa_service.go:333-375 | over every interleaving a committed operation was confirmed: the secret of a code requested for exactly it was entered, and both that and the commit came before the code expired |
| MfaProtocol.LatestCodeIsFound | internal/repositories/mfa_repository.go:78-111 | a committed code created after every other active one of its operation is the only one a lookup finds |
| Mfa.SavedCodeStandsAlone | internal/repositories/mfa_repository.go:28-76 | a saved code is the only usable one of its user and operation until it expires, and codes of others are untouched |
| Mfa.CodeStore.DeleteExpired | internal/repositories/mfa_repository.go:139-157 | keeps exactly the codes unused and unexpired, as they were |
| MfaProtocol.AlwaysOneActive | internal/repositories/mfa_repository.go:28-111 | while issues for one user and operation do not overlap, a user never has two usable codes for it, so a lookup has one answer |
| MfaProtocol.IssueLeavesOneIff | internal/repositories/mfa_repository.go:28-76 | whatever happens between its UPDATE and its commit, a new code is then the only active one of its operation exactly when no code issued since the UPDATE is still active for it |
| MfaProtocol.OverlappingIssuesLeaveTwo | internal/repositories/mfa_repository.go:36-76 | two issues that both look before either commits always leave two usable codes |
| MfaProtocol.AtomicIssueIsSaveCode | internal/repositories/mfa_repository.go:28-76 | an issue with nothing in between is the atomic save |
| MfaProtocol.CodeSurvives | internal/repositories/account_repository.go:278-315 | through any events short of a commit with it, an issue that spends it or its expiry, rollbacks included, a code stays usable |
| MfaProtocol.UsableCodeCommits | internal/services/mfa_service.go:333-375 | a code the lookup finds verifies and then commits its operation, and is spent by that |
| MfaProtocol.RolledBackCodeStillCommits | internal/repositories/account_repository.go:278-315 | in any run without overlapping issues, a usable code that the events after it spare, rollbacks of its own operation included, still verifies and commits the operation it was issued for |
| MfaProtocol.PurgesAreInvisible | internal/repositories/mfa_repository.go:139-157 | deleting expired codes, at any points of any run, changes no verification, no commit and no usable code |
| Mfa.PurgeAnswers | internal/repositories/mfa_repository.go:139-157 | after a purge a lookup answers as before, except for codes expired by then |
| Mfa.CodeStore.Save | internal/repositories/mfa_repository.go:28-76 | the earlier active codes of the operation are spent and a new one is added |
| Mfa.CodeStore.MarkUsed | internal/repositories/mfa_repository.go:113-137 | succeeds exactly on an unused, unexpired code and spends it |
| OperationHash.DescriptionDetermines | internal/services/mfa_service.go:399-836 | equal descriptions mean the same user and the same operation, across all seven purposes |
| RateLimiter.RateBound | internal/middleware/rate_limiter.go:174-225 | when times fall back by at most one tick in lock order, any half-open interval of a window's length lets at most 2 * limit - 1 requests of a rule and key through, when cleanup is off or the window is short enough for it |
| RateLimiter.RateBoundWithin | internal/middleware/rate_limiter.go:174-225 | for any fall-back, the bound is (limit - 1) per window that can reach into the interval, plus one |
| RateRaces.WaitsBoundTheSkew | internal/middleware/rate_limiter.go:174-179 | if no request or cleanup waits longer than skew between reading the clock and its critical section, times fall back by at most skew in lock order |
| RateRaces.EveryRunArises | internal/middleware/rate_limiter.go:174-225 | and every run with such a fall-back arises from processes that wait no longer |
| RateRaces.RaceBoundIff | internal/middleware/rate_limiter.go:101-225 | over every interleaving of clock readings and critical sections with waits up to skew, 2 * limit - 1 holds exactly when the skew is at most one tick or the limit is 1, and cleanup is off or window plus skew is at most twice its interval plus one tick |
| RateLimiter.CleanupIsInvisibleIff | internal/middleware/rate_limiter.go:101-225 | for any fall-back, cleanup at arbitrary points changes no decision exactly when it is switched off or window plus fall-back is at most twice the interval plus one tick |
| RateLimiter.RateBoundIff | internal/middleware/rate_limiter.go:101-225 | over all runs with fall-back up to skew, 2 * limit - 1 holds exactly when the skew is at most one tick or the limit is 1, and cleanup is switched off or window plus skew is at most twice its interval plus one tick |
| RateLimiter.BoundIsReached | internal/middleware/rate_limiter.go:174-198 | for every fall-back the bound is sharp: a run without cleanup reaches it |
| RateLimiter.EarlyCleanupDoublesTheLimit | internal/middleware/rate_limiter.go:214-225 | with cleanup on, for any longer window plus fall-back there is a run with twice the limit inside one window |
| RateLimiter.StorageKeysAreDistinct | internal/middleware/rate_limiter.go:174-177 | rules with distinct names free of colons never share an entry, whatever the keys |
| RateLimiter.RefusalsAreEarned | internal/middleware/rate_limiter.go:174-198 | a client is refused only after at least `limit` of its requests were let through, the last `limit` of them less than a window ago, up to how far times fall back |
| RateLimiter.Limiter.Allow | internal/middleware/rate_limiter.go:174-198 | decides and counts as specified; a refusal names the exact moment from which the same state admits again |
| RateLimiter.Limiter.Cleanup | internal/middleware/rate_limiter.go:214-225 | the deleting loop removes exactly the stale entries |
| Revocation.AcceptedIff | internal/repositories/token_repository.go:81-105 | in every run with the service's expiries a token is accepted exactly until it expires, if it was logged in with, not logged out, and not revoked by itself or with its user's tokens since that login |
| Revocation.TokenStore.DeleteExpired | internal/repositories/token_repository.go:107-124 | removes exactly the revoked rows that have expired, and no session |
| Revocation.RevocationIsPermanent | internal/repositories/token_repository.go:81-124 | in every run with the service's expiries, a token with a session once answered revoked is answered revoked ever after |
| Revocation.RevokedForeverIff | internal/repositories/token_repository.go:20-124 | from any state, permanent exactly when the session is over or the revoked row outlasts it |
| Revocation.UserRevocationCoversAll | internal/repositories/token_repository.go:39-79 | after revoking a user's tokens every session of the user is revoked for good |
| Revocation.TokenStore.RevokeActiveUserTokens | internal/repositories/token_repository.go:39-79 | live sessions get a revoked row unless one exists, and all the user's sessions end |
| Revocation.TokenStore.CreateSession | internal/repositories/user_session_repository.go:20-41 | a session is added unless the token already has one |
| Revocation.TokenStore.RevokeByTokenHash | internal/repositories/user_session_repository.go:43-56 | the token's session, if any, ends |
| RevocationCache.AnswersLagByAtMostTtl | internal/middleware/token_revocation_cache.go:41-87 | over every interleaving each answer stands and is the store's own at some moment before it was given and no earlier than a TTL before the call started |
| RevocationCache.RevocationIsSeenAfterTtl | internal/middleware/token_revocation_cache.go:41-62 | a call starting more than a TTL after a lasting revocation answers revoked |
| TokenChecks.DeadTokensAreRefused | internal/middleware/token_revocation_cache.go:41-62 | end to end, once a token's session is over in the tables or outlasted by a revoked row, every call starting more than a TTL later answers revoked, for good |
| TokenChecks.EndedSessionsAreRefused | internal/services/auth_service.go:109-165 | the same after a logout's last write or after revoking the user's tokens, whatever else happens to the tables and the cache |
| RevocationCache.FreshEntryAnswers | internal/middleware/token_revocation_cache.go:41-62 | an unexpired entry answers a call without asking the store |
| RevocationCache.StaleEntryAsksTheStore | internal/middleware/token_revocation_cache.go:41-87 | without one a call is answered by the store, and the answer is kept for a TTL; a failing store is an error |
| RevocationCache.Cache.Read | internal/middleware/token_revocation_cache.go:64-81 | hits exactly on an unexpired entry and deletes an expired one |
| LockCoverage.WritesAreLocked | internal/repositories/account_repository.go:595-697 | every account, credit, schedule row and code that an operation's transaction changes is among the locks it takes |
| Locks.NoCircularWait | internal/repositories/account_repository.go:595-697 | over all seven kinds of transaction, while no row is both locked by a prepayment and collected by a payment, the wait-for graph of every reachable state has no cycle |
| Locks.NoDeadlock | internal/repositories/credit_repository.go:103-124 | under the same condition, from every reachable state all transactions in progress can take their locks and commit, none aborted |
| Locks.DeadlockFreeIff | internal/repositories/credit_repository.go:171-225 | a workload is free of circular waits in every run, and can always drain, exactly when no row is both locked by a prepayment and collected by a payment |
| Locks.SeparateCredits | internal/repositories/credit_payment_repository.go:243-283 | it is enough that no credit is both prepaid and paid |
| Locks.PrepaymentAndPaymentCanWaitForEachOther | internal/repositories/credit_payment_repository.go:243-283 | any prepayment and any payment of one of its rows admit a run after which each waits for the other |
| Card.CheckDigitCompletes | internal/security/card.go:115-136 | for digits of any length the computed check digit is the only one that makes the validator's sum a multiple of ten |
| Card.SingleErrorIsDetected | internal/security/card.go:69-96 | changing any single digit of an accepted number makes it rejected |
| Card.SwapIsDetectedIff | internal/security/card.go:69-96 | swapping two neighbours goes unnoticed exactly for equal digits and for 0 and 9 |
| Card.IsValidCardNumber | internal/security/card.go:69-96 | the right-to-left loop accepts exactly 12 to 19 digits with a Luhn sum divisible by ten |
| Card.GenerateCardNumber | internal/security/card.go:15-36 | whatever the random digits, the result has sixteen digits, begins with 2200 and is accepted |
| Card.CalculateLuhnCheckDigit | internal/security/card.go:115-136 | the loop computes the check digit, or an error exactly when some character is no digit |
| Card.NormalizeCardNumber | internal/security/card.go:57-67 | the digits of the text, in order |
| MoneyText.MoneyRoundTrip | internal/repositories/credit_repository.go:1118-1153 | printing and reading back gives the same cents exactly when they fit int64 |
| MoneyText.ParsingIsExactIffItFits | internal/services/money.go:9-24 | for every accepted amount the parsed cents are the exact decimal value times 100 exactly when that fits int64 |
| MoneyText.LargeAmountsWrap | internal/repositories/credit_repository.go:1148-1148 | the amount of 2^63 cents is accepted and read as the most negative one |
| MoneyText.NegativeZeroIsRead | internal/repositories/credit_repository.go:1129-1146 | the parser alone reads a negative zero whole part as its fraction; the grammar rejects it |
| MoneyText.WhatTheParserReads | internal/repositories/credit_repository.go:1118-1149 | the strings the parser reads and the cents it makes of each, signs and missing digits included |
| MoneyText.ReadOutsideTheGrammar | internal/repositories/credit_repository.go:1118-1149 | of those, exactly the ones with a signed part or a point without digits are outside the amount grammar |
| MoneyText.AddMoneyAddsCents | internal/repositories/credit_payment_repository.go:365-379 | adding two amounts as text prints exactly the sum of their cents |
| MoneyText.StoredMoneyAdds | internal/repositories/credit_payment_repository.go:357-388 | on printed amounts addition and the sign test agree with cents |

## Left out

- SQL, drivers, isolation levels, implicit foreign-key locks and I/O errors: a transaction is one atomic step with the explicit locks named above; the clock, randomness and calendar dates are parameters.
- The floating-point annuity and percent texts: the monthly payment is any positive number of cents; the 30-day income of the risk summary is a parameter.
- Cryptography: hashes are taken as injective (an operation is stored under its description, a code under itself), and checking a code is equality.
- The attempt limiter, the request cooldown and the circuit breaker: easier versions of the rate limiter argument, and they can only refuse.
- HTTP handlers, routing, audit records, mail, the administration and reporting queries other than the account statistics, and the web frontend.
- Card ids on transactions and the card tables: a card payment or card transfer is modelled on the accounts behind the cards.
- BankStore.Store.Prepay: requires the CHECK on schedule amounts; the amount arrives in cents, its text is the subject of `MoneyText`.
- BankStore.Store.FindPending: returns rows in id order; the source orders by date and id, which is the same order by the dates invariant in `Schedule.Sound`.
- Scheduler.SchedulerDrains: assumes that nothing else runs between the scheduler's runs, as the claim itself does.
- Idempotency.AtMostOneSuccess: takes a status below 400 to mean that the effect committed and counts successes since the last purge of the row.
- RateLimiter.Limiter.Allow: returns the waiting time itself; the truncation to whole seconds in the response header is not modelled.
- MfaProtocol.PurgesAreInvisible: each step uses the time at which it happens, where the database uses the start of the step's transaction; a code that expires in between is not modelled.
- MfaProtocol.IssueLeavesOneIff: an issue is its UPDATE and its commit; the row locks that can delay a second UPDATE until the first issue commits are not modelled, and do not show it the first one's new code.
- RevocationCache.AnswersLagByAtMostTtl: the missing checker and the missing store, which answer not revoked without a lookup, are not modelled.
- MoneyText.AddMoney: covers plain decimals, the only form the tables hold; fractions, exponents and signs accepted by the rational parser are not modelled.
- Locks.DeadlockFreeIff: explicit locks only; the locks that foreign keys and the issue and purge of codes take are not modelled.
