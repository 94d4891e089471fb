/** The settlement steps as transactions: each maps the database it reads to a commit or an abort,
    and an abort leaves nothing behind. */
module Steps {
  import opened Options
  import opened MachineInts
  import opened Schema
  import Ledger
  import Outbox

  datatype RailReply = RailError | RailSuccess | RailRetry | RailPermanent | RailUnknown

  /** A query that fails. Every failure is retryable except one on an account lookup, which the
      steps wrap as terminal. */
  datatype Fault = NoFault | QueryFails | AccountLookupFails

  /** The FX arithmetic the API and apply_payout_result call; `Pricing` instantiates it. */
  datatype Pricer = Pricer(quote: (int, Quote) -> Option<int>, mid: (int, Quote) -> int)

  /** What a step does not decide: the clock, where the connection fails (`early`: before anything
      leaves the process; `late`: after, commit included), the id Postgres would draw for a new
      payout row, and how the rail answers. `landed` is whether the bank paid. */
  datatype Env = Env(pricer: Pricer, now: Time, early: Fault, late: bool, railKnown: bool, payoutId: Id,
                     reply: RailReply, landed: bool)

  /** A call to the rail. It is not part of the transaction. */
  datatype Submission = Submission(key: Id, intent: Id, amountIdr: int, landed: bool)

  datatype Outcome = Commit(db: DB, next: Option<Step>) | Abort(terminal: bool)

  datatype StepRun = StepRun(outcome: Outcome, call: Option<Submission>)

  // ---- saga_runs ----

  function EnqueueSaga(db: DB, i: Id, now: Time): DB {
    if i in db.sagas then db
    else db.(sagas := db.sagas[i := Saga(FIRST_STEP, SagaPending, 0, now, None)])
  }

  predicate Due(s: Saga, now: Time) {
    && (s.state == SagaPending || s.state == SagaRunning)
    && s.nextRunAt <= now
    && (s.leaseUntil.None? || s.leaseUntil.value < now)
  }

  function ClaimSaga(db: DB, i: Id, leaseUntil: Time): DB
    requires i in db.sagas
  {
    db.(sagas := db.sagas[i := db.sagas[i].(state := SagaRunning, leaseUntil := Some(leaseUntil))])
  }

  function AdvanceSaga(db: DB, i: Id, next: Step, now: Time): DB {
    db.(sagas := db.sagas[i := Saga(next, SagaPending, 0, now, None)])
  }

  function CompleteSaga(db: DB, i: Id): DB
    requires i in db.sagas
  {
    db.(sagas := db.sagas[i := db.sagas[i].(state := SagaCompleted, leaseUntil := None)])
  }

  function RetrySaga(db: DB, i: Id, nextRunAt: Time): DB
    requires i in db.sagas
  {
    var s := db.sagas[i];
    var s' := s.(attempts := s.attempts + 1, state := SagaPending, nextRunAt := nextRunAt, leaseUntil := None);
    db.(sagas := db.sagas[i := s'])
  }

  function FailSaga(db: DB, i: Id): DB
    requires i in db.sagas
  {
    db.(sagas := db.sagas[i := db.sagas[i].(state := SagaFailed, leaseUntil := None)])
  }

  // ---- Shared statements ----

  function SetIntentState(db: DB, i: Id, state: IntentState): DB
    requires i in db.intents
  {
    db.(intents := db.intents[i := db.intents[i].(state := state)])
  }

  /** The steps move an intent only from the state they expect. */
  function AdvanceIntent(db: DB, i: Id, from: IntentState, to: IntentState): DB
    requires i in db.intents
  {
    if db.intents[i].state == from then SetIntentState(db, i, to) else db
  }

  /** Idempotent on external_ref: a known ref leaves the journal alone. */
  function Posted(db: DB, e: JournalEntry): DB {
    if HasEntry(db.journal, e.ref) then db else db.(journal := db.journal + [e])
  }

  /** Ledger.PostTx: validate, return the existing entry on a known external_ref, else insert
      line by line under the currency trigger. None is any error. */
  ghost function PostTx(db: DB, e: JournalEntry): Option<DB> {
    if Ledger.Validation(Ledger.Entry(e.ref.Text(), e.kind, e.lines)).Some? then None
    else if !HasEntry(db.journal, e.ref) && !PostingsAllowed(db, e.lines) then None
    else Some(Posted(db, e))
  }

  predicate PostingsAllowed(db: DB, lines: seq<Ledger.Line>) {
    forall k :: 0 <= k < |lines| ==> Ledger.PostingAllowed(db.accounts, lines[k])
  }

  // ---- The entries ----

  function CreditLines(amount: int): seq<Ledger.Line> {
    [Ledger.Line(HOT_WALLET, amount, USDC, Ledger.Debit), Ledger.Line(USER_FUNDS, amount, USDC, Ledger.Credit)]
  }

  function FxSwapLines(amount: int): seq<Ledger.Line> {
    [Ledger.Line(USER_FUNDS, amount, USDC, Ledger.Debit), Ledger.Line(FX_SETTLEMENT, amount, USDC, Ledger.Credit)]
  }

  function DisbursedLines(mid: int, paid: int): seq<Ledger.Line> {
    [Ledger.Line(FX_EXPENSE, mid, IDR, Ledger.Debit), Ledger.Line(CASH_OUT, paid, IDR, Ledger.Credit)]
    + if mid - paid > 0 then [Ledger.Line(FX_REVENUE, mid - paid, IDR, Ledger.Credit)] else []
  }

  function CreditEntry(i: Id, d: Deposit): JournalEntry {
    JournalEntry(CreditDepositRef(i), "deposit_credit", Some(d.signature), CreditLines(d.amount))
  }

  function FxSwapEntry(i: Id, quotedUsdc: int): JournalEntry {
    JournalEntry(FxSwapRef(i), "fx_swap_usdc", None, FxSwapLines(quotedUsdc))
  }

  function DisbursedEntry(i: Id, mid: int, paid: int): JournalEntry {
    JournalEntry(PayoutDisbursedRef(i), "payout_disbursed", None, DisbursedLines(mid, paid))
  }

  // ---- credit_deposit ----

  ghost function CreditDeposit(db: DB, i: Id, env: Env): Outcome {
    if env.early == QueryFails then Abort(false)
    else if i !in db.intents then Abort(true)
    else
      match FinalizedDeposit(db.onchain, i)
      case None => Abort(false)
      case Some(d) =>
        if env.early == AccountLookupFails || HOT_WALLET !in db.accounts || USER_FUNDS !in db.accounts then Abort(true)
        else
          match PostTx(db, CreditEntry(i, d))
          case None => Abort(false)
          case Some(db1) => Commit(AdvanceIntent(db1, i, Pending, Funded), Some(StepTriggerPayout))
  }

  // ---- trigger_payout ----

  predicate HasBankDetails(m: Merchant) {
    && m.bankCode.Some? && m.bankCode.value != ""
    && m.accountNumber.Some? && m.accountNumber.value != ""
    && m.accountName.Some? && m.accountName.value != ""
  }

  function UpsertPayout(db: DB, i: Id, id: Id, amountIdr: int): DB {
    if i in db.payouts then db else db.(payouts := db.payouts[i := Payout(id, amountIdr, PayoutPending, 0)])
  }

  function SetPayout(db: DB, i: Id, state: PayoutState, attempts: nat): DB
    requires i in db.payouts
  {
    db.(payouts := db.payouts[i := db.payouts[i].(state := state, attempts := attempts)])
  }

  function AdvanceToSettling(db: DB, i: Id): Outcome
    requires i in db.intents
  {
    Commit(AdvanceIntent(db, i, Funded, Settling), Some(StepApplyPayoutResult))
  }

  function TriggerPayout(db: DB, i: Id, env: Env): StepRun {
    if env.early == QueryFails then StepRun(Abort(false), None)
    else if i !in db.intents then StepRun(Abort(true), None)
    else if db.intents[i].merchant !in db.merchants then StepRun(Abort(false), None)
    else if !HasBankDetails(db.merchants[db.intents[i].merchant]) then StepRun(Abort(true), None)
    else
      var db1 := UpsertPayout(db, i, env.payoutId, db.intents[i].amountIdr);
      var po := db1.payouts[i];
      if po.state == PayoutSucceeded then StepRun(AdvanceToSettling(db1, i), None)
      else if po.state == PayoutFailed then StepRun(Abort(true), None)
      else if !env.railKnown then StepRun(Abort(true), None)
      else
        var db2 := SetPayout(db1, i, PayoutSubmitting, po.attempts + 1);
        var call := Some(Submission(po.id, i, po.amountIdr, env.landed));
        match env.reply
        case RailError => StepRun(Abort(false), call)
        case RailSuccess =>
          var db3 := SetPayout(db2, i, PayoutSucceeded, po.attempts + 1);
          StepRun(AdvanceToSettling(db3, i), call)
        // The reset to pending and the failed marks are written, then rolled back with the error.
        case RailRetry => StepRun(Abort(false), call)
        case RailPermanent => StepRun(Abort(!env.late), call)
        case RailUnknown => StepRun(Abort(true), call)
  }

  // ---- apply_payout_result ----

  ghost function ApplyPayoutResult(db: DB, i: Id, env: Env): Outcome {
    if env.early == QueryFails || i !in db.intents then Abort(false)
    else if i !in db.payouts || db.payouts[i].state != PayoutSucceeded then Abort(true)
    else if db.intents[i].quote !in db.quotes then Abort(false)
    else
      var intent, quote, paid := db.intents[i], db.quotes[db.intents[i].quote], db.payouts[i].amountIdr;
      var mid := env.pricer.mid(intent.quotedUsdc, quote);
      if mid - paid < 0 then Abort(true)
      else if env.early == AccountLookupFails || FX_SETTLEMENT !in db.accounts
        || USER_FUNDS !in db.accounts then Abort(true)
      else
        match PostTx(db, FxSwapEntry(i, intent.quotedUsdc))
        case None => Abort(false)
        case Some(db1) =>
          if FX_EXPENSE !in db.accounts || CASH_OUT !in db.accounts || FX_REVENUE !in db.accounts then Abort(true)
          else
            match PostTx(db1, DisbursedEntry(i, mid, paid))
            case None => Abort(false)
            case Some(db2) => Commit(AdvanceIntent(db2, i, Settling, PaidOut), Some(StepEmitCompleted))
  }

  // ---- emit_completed ----

  const COMPLETED_TOPIC := "intent.completed"

  function EmitCompleted(db: DB, i: Id, env: Env): Outcome {
    if env.early == QueryFails || i !in db.intents then Abort(false)
    else
      var db1 := AdvanceIntent(db, i, PaidOut, Completed);
      var updated := db1.intents[i];
      var event := CompletedEvent(i, updated.merchant, updated.state, updated.amountIdr, updated.quotedUsdc);
      match Outbox.Publish(db1.outbox, COMPLETED_TOPIC, Some(i), event, env.now)
      case None => Abort(false)
      case Some(rows) => Commit(db1.(outbox := rows), None)
  }

  // ---- executeStep ----

  ghost function Execute(db: DB, i: Id, step: Step, env: Env): StepRun {
    match step
    case StepCreditDeposit => StepRun(CreditDeposit(db, i, env), None)
    case StepTriggerPayout => TriggerPayout(db, i, env)
    case StepApplyPayoutResult => StepRun(ApplyPayoutResult(db, i, env), None)
    case StepEmitCompleted => StepRun(EmitCompleted(db, i, env), None)
    case StepUnknown(_) => StepRun(Abort(true), None)
  }

  /** The deferred trigger runs at commit over the entries this transaction added. */
  ghost predicate DeferredChecksPass(before: DB, after: DB) {
    forall k :: |before.journal| <= k < |after.journal| ==> Ledger.Balanced(after.journal[k].lines)
  }

  /** The saga advance, the deferred trigger and the commit of a transaction begun on `before`. */
  ghost function Closed(before: DB, run: StepRun, i: Id, env: Env): StepRun {
    match run.outcome
    case Abort(_) => run
    case Commit(db1, next) =>
      if i !in db1.sagas || env.late then run.(outcome := Abort(false))
      else
        var db2 := if next.None? then CompleteSaga(db1, i) else AdvanceSaga(db1, i, next.value, env.now);
        if !DeferredChecksPass(before, db2) then run.(outcome := Abort(false))
        else run.(outcome := Commit(db2, next))
  }

  /** The step, the saga advance and the commit are one transaction. */
  ghost function RunStep(db: DB, i: Id, step: Step, env: Env): StepRun {
    Closed(db, Execute(db, i, step, env), i, env)
  }
}
