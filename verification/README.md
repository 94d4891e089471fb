# Selatpay settlement, modelled and proved

Selatpay settles a USDC deposit into an IDR payout. This project models the part of it that has to be
right when things go wrong: the saga that credits a deposit, pays the merchant, books the payout and
announces completion, together with the ledger, the FX arithmetic, the chain watcher, the outbox, the
idempotency layer and two text formats. `dafny verify dfyconfig.toml` checks everything.

**How it is built.** The database is a value (`Schema.DB`). A saga step is a function from a database
to a commit or an abort (`Steps`). `Protocol` is the state machine over it: an API that creates
intents, a watcher that records deposits, any number of workers that claim a saga by lease, execute
its step, record an error or crash, an outbox dispatcher, a clock, and a bank. A worker may act after its lease has run out,
a commit may land and be reported as an error, and a bank payment may land although its transaction is
rolled back. `IsRun` is every interleaving (the adversarial regime); `Timely.IsTimelyRun` are the runs
in which a worker acts only within its lease and commits are reported faithfully. Code that works on
mutable state is written that way (`Tables.Database`, `Worker.Runner`, `Watcher.ChainWatcher`,
`Outbox.Dispatcher`, `Idempotency.PgStore` and `CachedStore`, `Replays.CaptureWriter` and
`Middleware`) and proved against those functions; `Worker.TickIsStretch` shows that a Tick of the
imperative runner is a stretch of a protocol run, so the safety results cover it.

**Main results.**

- Whatever interleaves, an intent never regresses, and every saga row and every claimed worker finds
  the intent, payout and journal entries its step needs (`Adversarial.Safe`, `NeverRegresses`).
- Exactly-once effect: an intent's journal entries are always a prefix of those of one clean pass
  (`ExactlyOnce.ExactlyOnceEffect`, with `CleanPassIsPosted` tying the list to the steps).
- In the timely regime sagas are owned by one live worker, move forward only, and end within
  4 * MaxAttempts recorded ticks (`Guarantees`). Outside it a row goes back, or a final row changes,
  exactly when one of two kinds of late write occurs, and an intent is announced once per committed
  emit_completed (`StaleWrites`).
- From every reachable state a saga that only faults held up can be completed in four ticks
  (`Completion.SolventSagaCompletes`).
- Every step ends in one of three ways, decided exactly by the faults and the bank's answer, and the saga
  row records which (`Outcomes`). When a saga can be claimed is read off its history, and in the timely
  regime a retry is never claimed early (`Schedule`).
- The bank pays an intent once for its committed payout plus once per payment whose transaction was
  rolled back (`RailCalls.DisbursementCount`), and such runs exist even in the timely regime
  (`Witnesses.PaidTwice`).
- An intent's state says exactly which of its records exist, so balances can be read off the intents
  table; the books balance, and reconciliation reports exactly the deposits that wait to be credited
  (`Standing`, `Balances`, `Recon`).
- At every rate scale the negative-spread guard fires exactly when the mid value does not fit int64 or
  the remainder of the quote's division exceeds what the spread leaves (`Pricing.GuardFiresExactly`).

**Where the code departs from what is written about it.** The model follows the code.

- The failed marks and the reset to pending in `trigger_payout` are rolled back with the error that
  follows them, so they never persist, although `internal/saga/payout_integration_test.go:218-225`
  expects them.
- The payout row's random id is the bank's idempotency key. A rolled-back attempt draws a new one, so
  the retry is not a no-op at the bank.
- With a positive rate scale `QuoteAmount` multiplies its divisor by 10^scale although a rate means
  num / 10^scale. Every such payout whose spread leaves more than 10000 / 10^(2 * scale) bps is rejected
  by the books (`Fx.ScaledRateAlwaysRejects`, `Pricing.ScaledIntentNeverSettles`).
- `AdvanceSagaStep`, `CompleteSagaRun`, `ScheduleSagaRetry` and `FailSagaRun` filter on the id only. A
  worker that outlives its lease can reopen a completed saga (`Witnesses.CompletedSagaReopened`), and so
  can one whose commit was reported as an error (`Witnesses.CompletionRecordedAsError`).
- A saga scheduled for a retry can be claimed early when a worker that outlived its lease records its own
  error (`Witnesses.RetryClaimedEarly`). `NewBackoff` can yield a base above its maximum
  (`Backoff.PolicyIsOrdered`).
- There is no in-progress mark in the idempotency layer: overlapping requests under one key all run
  their handler (`Replays.OverlapRunsTwice`). A response without a body is passed as NULL to a NOT
  NULL column, so it is never stored.
- `FormatAmount` divides by zero from 64 decimals on, and `ParseAmount` does not check its last
  addition.
- `Verify` takes a timestamp some 292 years ahead as fresh: the age saturates and its negation wraps.

**Assumptions.** Each step transaction, and each statement outside one, is atomic. Foreign calls (the
bank, the RPC node, HMAC, SHA-256, base58, random ids, clocks, jitter) are parameters; random payout ids
do not repeat; a bank that answers success has paid.

## Model

| member | source | states |
|---|---|---|
| `Adversarial.Safe` | internal/saga/runner.go:119-207 | in every state of every run the whole invariant holds: each saga row's current step and each in-flight worker's claimed step has the intent rank, payout and journal entries it needs, every journal entry is what its step posts, refs are unique and in step order, every payout succeeded, and a saga exists iff a finalized deposit is linked |
| `Adversarial.NeverRegresses` | internal/saga/steps/trigger_payout.go:154-164 | over any stretch of a run no intent goes back, no payout, quote, journal entry or deposit is lost or changed except for a raised commitment and a filled link, no saga is lost, and no outbox row loses its topic, aggregate or payload |
| `Adversarial.RunStepKeeps` | internal/saga/runner.go:172-207 | a committed step keeps the invariant whoever runs it and whatever the saga row says by then |
| `Adversarial.ObserveEnqueues` | internal/chain/watcher.go:219-253 | the upsert and the enqueue keep "a saga exists iff a finalized deposit is linked" |
| `Adversarial.DispatchKeeps` | internal/db/queries/outbox.sql:21-34 | draining the outbox, committed or rolled back, keeps the invariant and every row's content |
| `Adversarial.NoFailureIsEverCommitted` | internal/saga/steps/trigger_payout.go:82-147 | in every run no committed payout is anything but succeeded and no intent is failed or expired |
| `Adversarial.PermanentRejectionLeavesNoMark` | internal/saga/steps/trigger_payout.go:125-147 | after a permanent rejection by the rail the database is the one before the step |
| `ExactlyOnce.ExactlyOnceEffect` | internal/ledger/ledger.go:63-103 | in every state of every run an intent's entries are those of one clean pass cut after some step, for one finalized deposit of that intent and the mid value of its own quote |
| `ExactlyOnce.CleanPassIsPosted` | internal/saga/steps/apply_payout_result.go:45-97 | the four steps, each committed once from a state without entries for the intent, have posted exactly that list after each step |
| `ExactlyOnce.StepJournal` | internal/saga/steps/credit_deposit.go:61-84 | what each committed step does to the journal |
| `Guarantees.MutualExclusion` | internal/db/queries/saga_runs.sql:18-35 | two live workers never hold the same saga |
| `Guarantees.ForwardOnly` | internal/db/queries/saga_runs.sql:40-85 | over any stretch of a timely run current_step never goes back, and completed and failed rows never change |
| `Guarantees.CompletionIsAnnouncedOnce` | internal/saga/steps/emit_completed.go:44-94 | an intent has exactly one intent.completed row if its saga is completed and none otherwise, and then the intent is completed |
| `Guarantees.Terminates` | internal/saga/runner.go:128-148 | a saga is never recorded more than 4 * MaxAttempts times, and by then it is completed or failed |
| `StaleWrites.StepBackExactly` | internal/db/queries/saga_runs.sql:40-60 | current_step goes back iff a step other than emit_completed commits from a claim more than one step behind the row |
| `StaleWrites.FinalExactly` | internal/db/queries/saga_runs.sql:40-85 | in every run a completed or failed row changes iff a late commit (other than completing it again) or a late error (other than failing it again) writes it |
| `StaleWrites.ForwardExactly` | internal/db/queries/saga_runs.sql:40-85 | over any stretch of any run the row only moves forward and final rows stay iff no such late write occurs in it |
| `StaleWrites.TimelyIsNeverLate` | internal/saga/runner.go:155-207 | a timely run has no late write |
| `StaleWrites.AnnouncementCount` | internal/saga/steps/emit_completed.go:44-94 | in every run an intent has one intent.completed row per committed emit_completed of it, so exactly one iff that step committed exactly once |
| `Completion.SolventSagaCompletes` | internal/saga/runner.go:119-149 | every run can be continued, within one wait and four ticks of one worker, so that an unfinished saga with bank details and a covering mid value completes; a timely run stays timely |
| `Timely.ActionMoves` | internal/db/queries/saga_runs.sql:40-85 | each action keeps current_step from going back and terminal rows fixed, and a recorded tick strictly lowers steps remaining times MaxAttempts plus attempts left |
| `RailCalls.NoCallAfterPayout` | internal/saga/steps/trigger_payout.go:64-73 | once a payout is committed no later state has another rail call for its intent |
| `RailCalls.DisbursementCount` | internal/saga/steps/trigger_payout.go:86-110 | a bank that honours its key pays an intent once for the committed payout plus once per landed call whose transaction was rolled back |
| `RailCalls.AtMostOnceExactly` | internal/saga/runner.go:172-182 | an intent is paid at most once iff no landed call was rolled back, or one was and no payout followed |
| `Witnesses.PaidTwice` | internal/saga/steps/trigger_payout.go:86-110 | a timely run with the shipped rate and spread in which the bank pays an intent under two keys |
| `Witnesses.CompletedSagaReopened` | internal/db/queries/saga_runs.sql:40-60 | a run in which a stale worker moves a completed saga back to apply_payout_result and it is announced twice |
| `Witnesses.CompletionRecordedAsError` | internal/saga/runner.go:135-148 | for every MaxAttempts, a run with every lease honoured in which a completion reported as an error is recorded over, the completed saga becoming failed or pending |
| `Witnesses.RetryClaimedEarly` | internal/db/queries/saga_runs.sql:66-75 | a run in which a stale worker's error is recorded over a scheduled retry and the saga is claimed early, no step having committed |
| `Outgoing.AlwaysTruthful` | internal/saga/steps/emit_completed.go:51-93 | in every run each rail call is for a funded intent whose deposit is credited and for its amount, and each announcement carries the merchant and amounts of a completed intent |
| `Outgoing.DeliveryAccounted` | internal/outbox/dispatcher.go:210-278 | over every settlement run, however drained, an announcement's attempts are its committed failed sends and it is delivered iff one committed send succeeded |
| `Outgoing.MailIsKept` | internal/db/queries/outbox.sql:12-34 | over every settlement run no announcement is lost or altered, and a delivered one is final and never sent again |
| `Outgoing.AnnouncedIsClaimable` | internal/outbox/publisher.go:24-55 | a committed emit_completed leaves a row that a dispatcher of intent.completed can claim at that moment, and then sends |
| `Outgoing.CallsNeedBankDetails` | internal/saga/steps/trigger_payout.go:43-53 | the rail is called only from trigger_payout and only for a merchant with a non-empty bank code, account number and account name |
| `Progress.FaultlessStepExactly` | internal/saga/runner.go:172-207 | without a fault a reached step commits iff the merchant has bank details and the mid value covers the payout, and otherwise fails terminally without a rail call |
| `Progress.CommitNeedsPayable` | internal/saga/steps/trigger_payout.go:43-53 | whatever the faults, a step commits only with bank details at trigger_payout and a covering mid value at apply_payout_result |
| `Outcomes.EndsExactly` | internal/saga/runner.go:172-207 | every reached step, under every fault and answer, fails for good, commits or fails to be retried, each iff a condition on the faults, the answer, the bank details and the mid value |
| `Outcomes.AnswerDecides` | internal/saga/steps/trigger_payout.go:86-151 | trigger_payout asking the bank calls it for the intent's amount, is terminal iff the answer is unknown or a permanent rejection that was marked, commits iff success, and retries on an error or a retry answer |
| `Outcomes.MissingRows` | internal/saga/steps/apply_payout_result.go:48-69 | in any database a failed query is retried, and so is a missing row, except a missing intent at the first two steps and a payout that is missing or not succeeded, which are terminal |
| `Outcomes.UnknownStepIsFinal` | internal/saga/runner.go:128-134 | an unknown step fails for good |
| `Outcomes.CommitIsBalanced` | internal/db/migrations/0001_core_ledger.sql:91-95 | no step commits an unbalanced entry, from any database |
| `Outcomes.RecordedExactly` | internal/saga/runner.go:135-148 | in any run a worker's recorded error fails the saga iff its step failed for good or spent the last attempt, and otherwise leaves it pending at the retry time with one more attempt |
| `Schedule.RowFollowsHistory` | internal/db/queries/saga_runs.sql:18-85 | in every run next_run_at and lease_until are those of the row's last enqueueing, advance, retry, claim and release |
| `Schedule.ClaimableExactly` | internal/db/queries/saga_runs.sql:18-27 | in every run an idle worker can claim a saga iff it is not final, its scheduled time has come and no lease on it stands |
| `Schedule.RetryWaits` | internal/db/queries/saga_runs.sql:66-75 | in every run a saga scheduled for a retry is not claimed before its time unless in between a step of it committed or another error of it was recorded |
| `Schedule.TimelyRetryWaits` | internal/db/queries/saga_runs.sql:66-75 | in timely runs no claim after a scheduled retry comes before its time |
| `Progress.EntryAccepted` | internal/ledger/ledger.go:53-103 | every entry the steps build passes Validate and the currency trigger |
| `Standing.RecordsAlwaysMatch` | internal/saga/steps/apply_payout_result.go:81-96 | in every run an intent is funded or beyond iff its deposit is credited, settling or beyond iff its payout is made, paid out or beyond iff its swap and disbursement are booked, completed iff announced |
| `Balances.BalancesClosedForm` | internal/db/queries/ledger.sql:34-55 | in every reachable state hot wallet = credited deposits, FX settlement = quoted amounts of swapped intents, user funds = their difference, cash-out = minus what merchants were paid |
| `Balances.ProfitClosedForm` | internal/saga/steps/apply_payout_result.go:137-176 | in every reachable state FX expense = the mid values booked, FX revenue = what they exceed the payouts by, never negative, and their difference is the cash that left |
| `Standing.BalancesByState` | internal/db/queries/ledger.sql:34-55 | in every reachable state hot wallet = credits of intents funded or beyond, FX settlement = quotes and cash-out = minus amounts of intents paid out or beyond, user funds = the difference |
| `Standing.CreditIsADeposit` | internal/saga/steps/credit_deposit.go:40-82 | the credit of an intent is the amount of a finalized deposit linked to it |
| `Balances.BooksBalance` | internal/db/queries/ledger.sql:57-76 | in every reachable state the debit-normal and credit-normal balances of each currency are equal |
| `Balances.PostingsAreSound` | internal/db/migrations/0001_core_ledger.sql:47-64 | in every reachable state every posting is a positive debit or credit of a known account in its currency |
| `Balances.EntriesAreNamed` | internal/saga/steps/apply_payout_result.go:119-169 | in every reachable state each entry has the kind and external_ref text of its step and intent |
| `Recon.DifferenceIsUncredited` | internal/recon/walker.go:92-121 | if the chain holds the recorded finalized deposits, Walk's difference is the sum of those not credited, never negative, and zero iff none waits |
| `Recon.FreshSignature` | internal/saga/steps/credit_deposit.go:40-82 | distinct intents credit distinct signatures |
| `Pricing.GuardFiresExactly` | internal/saga/steps/apply_payout_result.go:70-79 | for every reachable intent at every scale a fault-free apply_payout_result rejects terminally iff the mid value does not fit int64 or I * 10^6 * (10000 - t * p * p) is below the quote's remainder, with t = 10000 - spread and p = 10^scale |
| `Pricing.RejectedIntentNeverSettles` | internal/saga/steps/apply_payout_result.go:70-97 | an intent whose quote meets that condition is never paid out on the books, in any run |
| `Pricing.ScaledIntentNeverSettles` | internal/quoter/quoter.go:157-161 | so is no intent with 10000 < (10000 - spread) * 10^(2 * scale) |
| `Pricing.ApplyRejects` | internal/saga/steps/apply_payout_result.go:70-79 | a fault-free apply_payout_result rejects iff the mid value is below the amount paid |
| `Fx.Pow10` | internal/quoter/quoter.go:177-183 | the loop computes 10^n wrapped to int64 |
| `Fx.QuoteAmount` | internal/quoter/quoter.go:140-175 | the quote that `Fx.QuoteSucceedsExactly` and `Fx.QuoteErrorExactly` describe, and at scale 0 the largest usdc whose value at the effective rate is within the request |
| `Fx.QuoteSucceedsExactly` | internal/quoter/quoter.go:140-175 | at scales 0 to 18 a request is quoted iff amount and rate are positive, 0 <= spread < 10000 and amount * 10^10 / (rate * (10000 - spread) * 10^scale) is in 1 to 2^63 - 1, and the quote is that quotient |
| `Fx.QuoteErrorExactly` | internal/quoter/quoter.go:140-175 | each error iff its condition is the first to fail |
| `Fx.QuoteIsFloor` | internal/quoter/quoter.go:140-175 | the quote is the floor of amount * 10^10 over rate * (10000 - spread), bounded both ways |
| `Fx.QuoteMonotone` | internal/quoter/quoter.go:140-175 | at every scale quotes grow with the amount and the spread and fall with the rate |
| `Fx.QuoteSplit` | internal/quoter/quoter.go:140-175 | at every scale q(a) + q(b) <= q(a + b) <= q(a) + q(b) + 1, and the whole fails only by overflow |
| `Fx.MidIsFloor` | internal/saga/steps/apply_payout_result.go:187-204 | the mid value at scale 0 is the floor of usdc * rate / 10^6, or 0 when that exceeds int64 |
| `Fx.SpreadUpperBound` | internal/saga/steps/apply_payout_result.go:70-79 | mid - I <= I * s / (10000 - s) |
| `Fx.NegativeSpreadExactly` | internal/saga/steps/apply_payout_result.go:70-79 | at every scale up to 18, mid < I iff the mid value does not fit int64 or I * 10^6 * (10000 - t * p * p) is below the remainder of the quote's division |
| `Fx.UnscaledGuard` | internal/saga/steps/apply_payout_result.go:70-79 | at scale 0 that remainder condition is I * s * 10^6 below the remainder |
| `Fx.SpreadNonNegative` | internal/saga/steps/apply_payout_result.go:70-79 | mid >= I whenever the mid value fits int64 and I * s * 10^6 >= N * (10000 - s) |
| `Fx.ShippedRateNeverRejects` | internal/quoter/provider.go:33-37 | at rate 16200 and spread 50 the guard is silent for every amount that can be quoted |
| `Fx.MidFits` | internal/saga/steps/apply_payout_result.go:196-203 | the mid value fits int64 whenever I * 10000 < 2^63 * (10000 - s) |
| `Fx.NegativeSpreadWitness` | internal/saga/steps/apply_payout_result.go:72-79 | one rupiah at rate 16200 without spread is rejected |
| `Fx.ScaledRateAlwaysRejects` | internal/quoter/quoter.go:157-161 | mid < I whenever 10000 < (10000 - s) * 10^(2 * scale) |
| `Fx.ScaledBelow9900` | internal/quoter/quoter.go:157-161 | at a positive scale that is every spread below 9900 bps |
| `Ledger.Validate` | internal/ledger/validate.go:8-41 | the first problem in order, and acceptance exactly of entries whose every currency nets to zero modulo 2^64 |
| `Ledger.ValidationExactly` | internal/ledger/validate.go:8-41 | accepted iff reference and kind are not blank, there are lines, each a positive debit or credit in a given currency, and every currency nets to zero modulo 2^64; which error otherwise |
| `Ledger.FirstLineErrorExactly` | internal/ledger/validate.go:19-34 | the line error is that of the first bad line |
| `Ledger.CheckBalanced` | internal/db/migrations/0001_core_ledger.sql:72-90 | the trigger accepts exactly the entries whose every currency nets to zero |
| `Ledger.TriggerExactly` | internal/db/migrations/0001_core_ledger.sql:72-90 | the trigger accepts an entry iff its sums vanish modulo 2^64 and lie within 2^64 of zero |
| `Ledger.ValidateAgreesWithTrigger` | internal/ledger/validate.go:18-40 | when every partial sum fits int64 Validate and the trigger accept the same sums |
| `Ledger.SmallVolumeAgrees` | internal/ledger/validate.go:18-40 | so too when the amounts total less than 2^64 |
| `Ledger.ValidateWrapWitness` | internal/ledger/validate.go:18-40 | three debits and no credit that Validate accepts and the trigger rejects |
| `Ledger.SidesDifferByNet` | internal/db/queries/ledger.sql:57-76 | debit-normal minus credit-normal balances of a currency is the net of all its postings |
| `Ledger.Conservation` | internal/db/migrations/0001_core_ledger.sql:47-95 | when every entry passed both triggers the two sides of each currency are equal |
| `Schema.FinalizedDeposit` | internal/db/queries/onchain_payments.sql:27-31 | the oldest finalized row linked to the intent, None iff there is none |
| `Schema.RefTextInjective` | internal/saga/steps/apply_payout_result.go:119-120 | equal external_ref texts are of the same step and intent |
| `Safety.TriggerShape` | internal/saga/steps/trigger_payout.go:54-110 | trigger_payout commits only with a payout already succeeded and no call, or with none before and a call that succeeded |
| `Tables.Database.UpsertOnchainPayment` | internal/db/queries/onchain_payments.sql:2-13 | inserts, or raises the commitment and fills an empty link of the row with that signature |
| `Tables.Database.GetFinalizedDeposit` | internal/db/queries/onchain_payments.sql:27-31 | the oldest finalized row linked to the intent |
| `Tables.Database.EnqueueSagaRun` | internal/db/queries/saga_runs.sql:7-10 | inserts a pending saga at the first step unless one exists |
| `Tables.Database.ClaimDueSagaRun` | internal/db/queries/saga_runs.sql:18-35 | claims nothing iff every saga is final, scheduled for later or under a standing lease; else one that is none of these, of the earliest next_run_at, running under the new lease |
| `Tables.Database.UpsertPayoutRow` | internal/db/queries/payouts.sql:6-9 | inserts a pending payout under a new id, or returns the existing row unchanged |
| `Tables.Database.InsertEntry` | internal/ledger/ledger.go:75-100 | succeeds iff every line is a positive debit or credit of a known account in its currency, and then appends exactly the entry |
| `Tables.Database.Post` | internal/ledger/ledger.go:53-103 | fails iff validation or a new entry's postings fail; leaves the journal alone on a known external_ref, else appends the entry |
| `Tables.Database.CheckDeferred` | internal/db/migrations/0001_core_ledger.sql:91-95 | the commit passes iff every entry added since the transaction began is balanced |
| `Tables.Database.PublishOutbox` | internal/outbox/publisher.go:24-55 | rejects an empty topic, else appends one undelivered row |
| `Worker.Runner.CreditDeposit` | internal/saga/steps/credit_deposit.go:29-96 | the tables and the result are those of the credit_deposit transaction, every error classified terminal or retryable |
| `Worker.Runner.AdvanceIntentToSettling` | internal/saga/steps/trigger_payout.go:154-164 | moves a funded intent to settling and any other not at all |
| `Worker.Runner.TriggerPayout` | internal/saga/steps/trigger_payout.go:32-152 | the tables, the result and the rail call are those of the trigger_payout transaction |
| `Worker.Runner.ApplyPayoutResult` | internal/saga/steps/apply_payout_result.go:45-97 | the tables and the result are those of the apply_payout_result transaction |
| `Worker.Runner.EmitCompleted` | internal/saga/steps/emit_completed.go:44-94 | the tables and the result are those of the emit_completed transaction |
| `Worker.Runner.ExecuteStep` | internal/saga/runner.go:172-207 | step, saga row and deferred trigger commit together; after any error the tables are as before and only the rail call remains |
| `Worker.Runner.RecordFailure` | internal/saga/runner.go:209-239 | fails the saga on a terminal error or the last attempt, else schedules it at now plus the draw modulo min(base * 2^(attempts + 1), max); a failed update changes nothing |
| `Worker.Runner.Tick` | internal/saga/runner.go:119-149 | an error iff the claim query fails; no work iff that or no saga is due, and then no change; otherwise the claim, the step and the record of its error, composed |
| `Worker.TickIsStretch` | internal/saga/runner.go:119-149 | a Tick's effect on tables and rail is that of a stretch of protocol actions by one worker, which is free again afterwards |
| `Watcher.ChainWatcher.RefreshReferences` | internal/chain/watcher.go:135-157 | the map of the references that decode, replaced as a whole, or kept on a query error |
| `Watcher.RefsExactly` | internal/chain/watcher.go:135-157 | a key is known iff some active intent names it, and stands for the last that does |
| `Watcher.FirstKnown` | internal/chain/watcher.go:440-462 | the intent of the first account key that is a known reference, None iff none is |
| `Watcher.UnfinalizedExactly` | internal/db/queries/onchain_payments.sql:18-22 | the list is the unfinalized rows in order of age, cut at the limit |
| `Watcher.ChainWatcher.MatchReference` | internal/chain/watcher.go:440-462 | the intent of the first account key that is a known reference |
| `Watcher.ChainWatcher.ProcessSignature` | internal/chain/watcher.go:165-272 | a transfer is stored iff destination, mint and decimals are ours, 0 < amount < 2^63, the first known reference names an existing intent and the database does not fail; a new row has that amount and link and is finalized iff the event was; an error iff the fetch or parse failed or a transfer to us was not stored |
| `Watcher.EventExactly` | internal/chain/watcher.go:219-262 | an event that is not stored changes nothing; one that is upserts its own row, and enqueues only for a finalized linked row |
| `Watcher.ConfirmedStartsNothing` | internal/chain/watcher.go:237-253 | an event below finalized commitment starts a saga only for a row that was already finalized and unlinked |
| `Watcher.ChainWatcher.PromoteUnfinalized` | internal/chain/watcher.go:279-296 | the oldest unfinalized rows up to the batch size, each processed at finalized commitment |
| `Watcher.ChainWatcher.PollReferences` | internal/chain/watcher.go:302-330 | a signature is processed, at confirmed commitment, iff it is listed for a known reference as one that did not fail |
| `Watcher.RowExactly` | internal/db/queries/onchain_payments.sql:2-13 | after any sequence of events a row exists iff its signature was seen, with the highest commitment, the first amount and the first link seen |
| `Watcher.LinkIsWriteOnce` | internal/db/queries/onchain_payments.sql:11-11 | the link of a stored row, once written, is the same after any later events |
| `Watcher.OrderDoesNotMatter` | internal/chain/watcher.go:206-264 | for one chain and one reference map the rows depend only on the set of events |
| `Watcher.ProcessIsObserve` | internal/chain/watcher.go:210-258 | processing a signature is the protocol's Observe action or changes nothing |
| `Watcher.SagaExistsExactly` | internal/chain/watcher.go:237-253 | in every reachable state a saga exists for an intent iff a finalized deposit is linked to it |
| `Outbox.AttemptsAreCommittedFailures` | internal/outbox/dispatcher.go:210-278 | in every run attempts is the number of committed failed sends, and a row is delivered iff one committed send succeeded |
| `Outbox.NothingLost` | internal/db/queries/outbox.sql:12-34 | no published row is lost or altered in content, and a delivered row never changes nor is sent again |
| `Outbox.AttemptsWithinBudget` | internal/outbox/dispatcher.go:244-262 | within the parking horizon no row exceeds MaxAttempts |
| `Outbox.BudgetEndsAtHorizon` | internal/outbox/dispatcher.go:244-262 | for every configuration a run in which a parked row comes due and is attempted once more than MaxAttempts |
| `Outbox.DrainedExactly` | internal/outbox/dispatcher.go:210-278 | a committed drain delivers a sent row at its send time, counts a failure and sets next_attempt_at to that time plus a draw below min(base * 2^attempts, max), or a hundred years out of attempts, and leaves every other row |
| `Outbox.ClaimsAreDue` | internal/db/queries/outbox.sql:12-19 | a batch touches only undelivered rows of its topic whose time has come |
| `Outbox.SendsAreSpaced` | internal/outbox/dispatcher.go:244-262 | in every run a row whose failed send was committed is not sent again before that time |
| `Outbox.Dispatcher.ClaimDue` | internal/db/queries/outbox.sql:12-19 | undelivered rows of the topic whose time has come, earliest first, up to the batch size, none left out |
| `Outbox.Dispatcher.SendBatch` | internal/outbox/dispatcher.go:233-272 | sends up to the first row whose outcome cannot be written, and fails iff there is one; otherwise the table the transaction sees has every claimed row resolved |
| `Outbox.Dispatcher.DrainOnce` | internal/outbox/dispatcher.go:210-278 | one batch, the earliest due rows, is one Drain of the run model: all rows resolved and committed, or, iff a write or the commit fails, the table unchanged and only the sends up to that write made |
| `Backoff.NewBackoff` | internal/saga/backoff.go:17-28 | positive base and maximum, the arguments kept when 0 < base <= max, else the defaults |
| `Backoff.PolicyIsOrdered` | internal/saga/backoff.go:17-28 | the base is within the maximum iff it is at most five minutes or the given maximum |
| `Backoff.Delay` | internal/saga/backoff.go:41-60 | a draw from the window of the attempt, 0 when it is empty |
| `Backoff.ComputeBackoff` | internal/outbox/dispatcher.go:283-297 | a draw from the runner's window of the attempt before |
| `Backoff.WindowClosedForm` | internal/saga/backoff.go:41-60 | without overflow the window is min(base * 2^n, max) at every attempt |
| `Backoff.ScheduleExactly` | internal/saga/backoff.go:41-60 | the schedule holds at every attempt iff no doubling below max leaves int64 |
| `Backoff.SmallMaxNeverOverflows` | internal/saga/backoff.go:41-60 | a maximum of at most 2^62 ns never overflows |
| `Idempotency.PgStore.Get` | internal/idempotency/store_pg.go:22-41 | the stored record, not found, or unavailable |
| `Idempotency.PgStore.Put` | internal/idempotency/store_pg.go:43-72 | inserts and reports created, or returns the winner unchanged, with every fault's effect on the table |
| `Idempotency.CacheKeyInjective` | internal/idempotency/store_cache.go:33-35 | distinct merchant and key pairs have distinct cache keys |
| `Idempotency.CacheIsTransparent` | internal/idempotency/store_cache.go:37-64 | with a coherent cache a lookup answers as the table does, and is unavailable iff the table is and the cache has no hit |
| `Idempotency.CachedStore.Get` | internal/idempotency/store_cache.go:37-64 | answers as the inner store under any cache fault, keeps the cache coherent, warms exactly the entry read |
| `Idempotency.CachedStore.Put` | internal/idempotency/store_cache.go:66-73 | answers and writes as the inner store and warms with the stored record |
| `Idempotency.CachedStore.Lose` | internal/idempotency/store_cache.go:75-90 | losing or garbling any entries keeps the cache coherent |
| `Idempotency.DeletionExactly` | internal/db/queries/idempotency.sql:11-12 | after deleting rows the cached store still answers as the table iff none of them is cached |
| `Replays.CaptureWriter.WriteHeader` | internal/idempotency/middleware.go:125-132 | the first header wins, for the capture and the client alike |
| `Replays.CaptureWriter.Write` | internal/idempotency/middleware.go:134-140 | a body without a header means 200; the captured body is the client's |
| `Replays.CaptureWriter.Serve` | internal/idempotency/middleware.go:118-140 | after any sequence of writes the captured response is the one the client received |
| `Replays.ReceivedExactly` | internal/idempotency/middleware.go:118-140 | the first thing a handler does settles the status, and the body is all it writes |
| `Replays.Middleware.Handle` | internal/idempotency/middleware.go:62-105 | replays the stored response to the same hash, 409 to another, 500 when the lookup fails, else runs the handler and stores its response unless it is a server error |
| `Replays.CreatedAtMostOnce` | internal/idempotency/store_pg.go:43-72 | across all interleavings at most one Put per key reports created |
| `Replays.ReplaysAgree` | internal/idempotency/middleware.go:62-76 | all replays of a key are the same response to the same request, none a server error |
| `Replays.ReplayRepeatsAnAnswer` | internal/idempotency/middleware.go:62-105 | every replay has the status and, byte for byte, the body of an answer the handler gave before to the same key and hash |
| `Replays.StoredForever` | internal/db/queries/idempotency.sql:5-9 | no stored response is ever changed or lost |
| `Replays.StoredAnswersAll` | internal/idempotency/middleware.go:62-76 | once stored, every later request under the key gets that response, or a conflict if its hash differs, and never runs the handler |
| `Replays.RunsExactly` | internal/idempotency/middleware.go:62-85 | the handler runs iff nothing is stored at the lookup |
| `Replays.ExecutionCount` | internal/idempotency/middleware.go:62-105 | in every run the handler ran for a key once per request that found a working table with nothing stored, so at most once iff at most one did |
| `Replays.StoredExactly` | internal/idempotency/middleware.go:84-100 | a response is stored iff it is below 500, has a body and the insert does not fail |
| `Replays.OverlapRunsTwice` | internal/idempotency/middleware.go:62-85 | a run in which two overlapping requests both execute |
| `Amount.Pow10` | internal/solanapay/url.go:193-199 | the loop computes 10^n modulo 2^64 |
| `Amount.ParseAmount` | internal/solanapay/url.go:157-191 | the parse that `Amount.ParsesExactly` and `Amount.ParseErrorExactly` describe |
| `Amount.ParsesExactly` | internal/solanapay/url.go:157-191 | a text parses iff it is digits, or digits, a point and at most decimals digits (and decimals > 0), whole * power and padded fraction each below 2^64 |
| `Amount.ParseErrorExactly` | internal/solanapay/url.go:157-191 | each error iff its condition is the first to fail |
| `Amount.ScaleIsZeroExactly` | internal/solanapay/url.go:193-199 | pow10 is zero iff its argument is at least 64 |
| `Amount.RoundTrip` | internal/solanapay/url.go:139-191 | FormatAmount prints iff decimals <= 63, and ParseAmount then returns raw, for every uint64 |
| `Amount.PrintParsedExactly` | internal/solanapay/url.go:139-191 | a canonical text that parses is printed back unchanged iff its fraction is below the power the register holds and whole * power + fraction does not wrap |
| `Amount.PrintParsed` | internal/solanapay/url.go:139-191 | up to 19 decimals that is iff its exact value fits a uint64 |
| `Amount.ParseIsExactModulo` | internal/solanapay/url.go:171-190 | every successful parse is the exact value modulo 2^64, and exact iff that value fits |
| `Amount.FormatDenotesExactly` | internal/solanapay/url.go:139-152 | the printed text denotes raw / 10^decimals iff decimals <= 19 or raw is below the wrapped power |
| `Amount.WrapWitness` | internal/solanapay/url.go:187-189 | "1.9" with 19 decimals parses to a wrapped amount |
| `Webhook.SplitOn` | internal/webhook/sign.go:136-147 | the parts between separators |
| `Webhook.SplitJoin` | internal/webhook/sign.go:136-147 | splitting a join of separator-free parts gives them back |
| `Webhook.JoinSplit` | internal/webhook/sign.go:136-147 | the parts hold no separator, and joining them gives the text back |
| `Webhook.TrimSpace` | internal/webhook/sign.go:149-157 | blanks removed at both ends |
| `Webhook.TrimmedExactly` | internal/webhook/sign.go:149-157 | trimming removes the blanks and tabs at both ends, all of them and nothing else |
| `Webhook.BlanksDoNotMatter` | internal/webhook/sign.go:149-157 | a part reads the same with any blanks and tabs around it |
| `Webhook.IndexByte` | internal/webhook/sign.go:159-166 | the first position of the byte, -1 iff absent |
| `Webhook.ParseSignatureHeader` | internal/webhook/sign.go:94-131 | the header that `Webhook.HeaderExactly` describes |
| `Webhook.HeaderExactly` | internal/webhook/sign.go:94-131 | each error iff its condition holds and none before it; otherwise the last t and the last v1, decoded |
| `Webhook.HeaderRoundTrip` | internal/webhook/sign.go:94-131 | parsing a printed header returns its timestamp and MAC, for every int64 and every non-empty MAC |
| `Webhook.ExtensionsAreIgnored` | internal/webhook/sign.go:101-121 | inserting comma-separated parts with other keys anywhere in a non-empty header changes nothing |
| `Webhook.SignedBytesInjective` | internal/webhook/sign.go:52-55 | the signed bytes determine the timestamp and the body |
| `Webhook.ToleranceExactly` | internal/webhook/sign.go:71-79 | the tolerance test passes iff the age is within it, or the timestamp lies 2^63 ns or more ahead, or the tolerance is the largest duration |
| `Webhook.ElapsedIsDistance` | internal/webhook/sign.go:72-72 | the age is the distance in nanoseconds from the signed Unix time, for all times the clock holds |
| `Webhook.RefusedExactly` | internal/webhook/sign.go:63-89 | which error: the reader's own, then the age, then the MAC |
| `Webhook.VerifyAcceptsSigned` | internal/webhook/sign.go:63-88 | Verify accepts what Sign produced iff the tolerance test passes |
| `Webhook.AcceptanceBinds` | internal/webhook/sign.go:80-87 | a MAC accepted for another timestamp or body is a collision |
| `Webhook.EmptySecretRefused` | internal/webhook/sign.go:48-66 | an empty secret neither signs nor verifies |
| `Decimal.ParseFormatInt` | internal/webhook/sign.go:57-57 | every int64 survives printing and parsing |
| `Decimal.ParseIntOfDigits` | internal/webhook/sign.go:109-112 | digits parse with or without a sign, leading zeros and all, iff the value fits int64 |
| `Hex.HexRoundTrip` | internal/webhook/sign.go:126-129 | decoding inverts hex encoding |
| `Hex.HexDecodeExactly` | internal/webhook/sign.go:126-129 | decoding takes exactly the texts of an even number of hex digits, two to a byte |

## Left out

- HTTP servers, routing, request authentication, dashboards and templates: presentation and thin checks.
- The parts of the idempotency handler before the lookup (method, missing key, missing merchant, unreadable body): pass-through branches without state.
- Informational (1xx) statuses and failed writes to the client: the capture and the client are taken to accept every write.
- Solana RPC and WebSocket clients and their reconnect loops; SPL instruction decoding; what they return is a parameter.
- Base58, AES-GCM, ed25519, SHA-256 and HMAC internals: uninterpreted.
- JSON and net/url encoding: a cache payload decodes to what was encoded, or does not decode.
- The rail's HTTP status mapping: the rail answers error, success, retry, permanent or unknown.
- Overlapping transactions under READ COMMITTED: every transaction is atomic, so unique-violation races and skipped locks do not arise.
- Quote issuing and signing, quote expiry, intent listing, and the expiry of intents: no settlement step reads them.
- Descriptions, last_error, lease_owner, created_at ties, block times and rail references: no decision depends on them; equal next_run_at may be claimed in any order.
- 32-bit wrap-around of step_attempts, payout attempts and outbox attempts: they are unbounded here; a saga's stay below MaxAttempts in timely runs, an outbox row's within it up to the parking horizon, and a committed payout's are 1.
- The dispatcher's advisory lock: `Outbox.Dispatcher` is the process that holds it.
- Fx.SpreadUpperBound, Fx.SpreadNonNegative, Fx.MidFits, Fx.QuoteIsFloor, Fx.MidIsFloor: stated at scale 0, the only shipped scale; the quote and the guard are exact at every scale in `Fx.QuoteSucceedsExactly` and `Fx.NegativeSpreadExactly`.
- Outbox.DrainedExactly, Outbox.SendsAreSpaced: stated for policies whose doublings fit int64, which is every maximum up to 2^62 ns; `Backoff.ScheduleExactly` says what happens otherwise.
- The Idempotent-Replay response header and the format of cache keys beyond their being distinct.
- Recon.DifferenceIsUncredited: assumes that the chain holds exactly the recorded finalized deposits and that no funds left the wallet; Walk itself assumes nothing.
- Worker.Runner.Tick: is the runner acting alone; interleavings with other workers are the subject of `Protocol`, to which `Worker.TickIsStretch` ties it.
