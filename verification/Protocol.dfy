/** The settlement system as a state machine: an API that creates intents, a watcher that records
    deposits, any number of workers that claim sagas by lease and execute steps, an outbox dispatcher,
    a rail and a clock.
    Every action is one database transaction, taken as atomic. */
module Protocol {
  import opened Options
  import opened MachineInts
  import opened Schema
  import opened Steps
  import Outbox

  datatype Phase = Claimed | Erred(terminal: bool)

  /** A worker between its claim and the end of its Tick: the snapshot it took of the saga row. */
  datatype Claim = Claim(intent: Id, step: Step, attempts: int, leaseUntil: Time, phase: Phase)

  /** A rail call and whether the transaction it was made from committed. */
  datatype RailCall = RailCall(submission: Submission, committed: bool)

  /** `sends` logs what the outbox dispatcher sent. */
  datatype Sys = Sys(db: DB, inflight: map<nat, Claim>, now: Time, rail: seq<RailCall>, sends: seq<Outbox.Event>,
                     maxAttempts: int, pricer: Pricer)

  datatype Action =
    | SetMerchant(merchantId: Id, merchant: Merchant)
    | CreateIntent(intentId: Id, merchantId: Id, amountIdr: int, quoteId: Id, quote: Quote)
    | Observe(signature: Id, amount: int, commitment: Commitment, link: Option<Id>)
    | Elapse(duration: nat)
    | Take(worker: nat, intentId: Id, lease: nat)
    | Run(worker: nat, env: Env, reported: bool)
    | Record(worker: nat, delay: nat)
    | Crash(worker: nat)
    | Dispatch(batch: Outbox.Action<CompletedEvent>, cfg: Outbox.Config)

  ghost predicate Init(s: Sys) {
    && s.db == DB(SEEDED, map[], map[], map[], map[], map[], [], [], [])
    && s.inflight == map[] && s.rail == [] && s.sends == [] && 1 <= s.maxAttempts
  }

  // ---- Watcher ----

  /** Position of the row with this signature, the primary key. */
  function FindDeposit(onchain: seq<Deposit>, signature: Id): (k: Option<nat>)
    ensures k.Some? ==> k.value < |onchain| && onchain[k.value].signature == signature
    ensures k.None? <==> forall j :: 0 <= j < |onchain| ==> onchain[j].signature != signature
  {
    if onchain == [] then None
    else if onchain[|onchain| - 1].signature == signature then Some(|onchain| - 1)
    else FindDeposit(onchain[..|onchain| - 1], signature)
  }

  function HigherCommitment(a: Commitment, b: Commitment): Commitment {
    if CommitmentRank(a) < CommitmentRank(b) then b else a
  }

  /** The ON CONFLICT branch: raise the commitment, fill an empty link, keep the rest. */
  function MergeDeposit(row: Deposit, d: Deposit): Deposit {
    row.(commitment := HigherCommitment(row.commitment, d.commitment),
         intent := if row.intent.Some? then row.intent else d.intent)
  }

  /** UpsertOnchainPayment */
  function UpsertDeposit(onchain: seq<Deposit>, d: Deposit): seq<Deposit> {
    match FindDeposit(onchain, d.signature)
    case None => onchain + [d]
    case Some(k) => onchain[k := MergeDeposit(onchain[k], d)]
  }

  /** The row the upsert returns. */
  function UpsertedRow(onchain: seq<Deposit>, d: Deposit): Deposit {
    match FindDeposit(onchain, d.signature)
    case None => d
    case Some(k) => MergeDeposit(onchain[k], d)
  }

  /** ProcessSignature's transaction: upsert, and enqueue when the row is finalized and linked. */
  function ObserveDeposit(db: DB, d: Deposit, now: Time): DB {
    var db1 := db.(onchain := UpsertDeposit(db.onchain, d));
    var row := UpsertedRow(db.onchain, d);
    if row.commitment == Finalized && row.intent.Some? then EnqueueSaga(db1, row.intent.value, now) else db1
  }

  // ---- The machine ----

  /** gen_random_uuid never repeats an id already in use. */
  ghost predicate FreshPayoutId(s: Sys, id: Id) {
    && (forall k :: 0 <= k < |s.rail| ==> s.rail[k].submission.key != id)
    && (forall j :: j in s.db.payouts ==> s.db.payouts[j].id != id)
  }

  /** The dispatcher claims a batch of the outbox, sends it and commits or rolls back. */
  ghost predicate CanDispatch(s: Sys, batch: Outbox.Action<CompletedEvent>, cfg: Outbox.Config) {
    batch.Drain? && batch.now == s.now && Outbox.Enabled(Outbox.State(s.db.outbox, s.sends), batch, cfg)
  }

  ghost function Dispatched(s: Sys, batch: Outbox.Action<CompletedEvent>,
                            cfg: Outbox.Config): Outbox.State<CompletedEvent>
    requires CanDispatch(s, batch, cfg)
  {
    Outbox.Next(Outbox.State(s.db.outbox, s.sends), batch, cfg)
  }

  ghost predicate Enabled(s: Sys, a: Action) {
    match a
    case SetMerchant(_, _) => true
    case CreateIntent(i, m, amountIdr, q, quote) =>
      && i !in s.db.intents && q !in s.db.quotes && m in s.db.merchants
      && 0 < amountIdr < TWO_63 && quote.rateScale <= 18 && s.pricer.quote(amountIdr, quote).Some?
      && 0 < s.pricer.quote(amountIdr, quote).value < TWO_63
    case Observe(_, amount, _, link) =>
      && 0 < amount < TWO_63
      && (link.Some? ==> link.value in s.db.intents)
    case Elapse(_) => true
    case Take(w, i, _) => w !in s.inflight && i in s.db.sagas && Due(s.db.sagas[i], s.now)
    case Run(w, env, _) =>
      && w in s.inflight && s.inflight[w].phase == Claimed
      && env.now == s.now && env.pricer == s.pricer && FreshPayoutId(s, env.payoutId)
      && (env.reply == RailSuccess ==> env.landed)
    case Record(w, _) => w in s.inflight && s.inflight[w].phase.Erred? && s.inflight[w].intent in s.db.sagas
    case Crash(w) => w in s.inflight
    case Dispatch(batch, cfg) => CanDispatch(s, batch, cfg)
  }

  /** failRun or scheduleRetry, as Tick chooses between them. */
  function RecordError(db: DB, c: Claim, maxAttempts: int, nextRunAt: Time): DB
    requires c.phase.Erred? && c.intent in db.sagas
  {
    if c.phase.terminal || c.attempts + 1 >= maxAttempts then FailSaga(db, c.intent)
    else RetrySaga(db, c.intent, nextRunAt)
  }

  /** A worker has executed its step. tx.Commit can land and still return an error; the worker then
      takes the error path. */
  function AfterStep(s: Sys, w: nat, run: StepRun, reported: bool): Sys
    requires w in s.inflight
  {
    var c := s.inflight[w];
    var s1 := if run.call.Some? then s.(rail := s.rail + [RailCall(run.call.value, run.outcome.Commit?)]) else s;
    match run.outcome
    case Commit(db, _) =>
      if reported then s1.(db := db, inflight := s.inflight - {w})
      else s1.(db := db, inflight := s.inflight[w := c.(phase := Erred(false))])
    case Abort(terminal) => s1.(inflight := s.inflight[w := c.(phase := Erred(terminal))])
  }

  ghost function Next(s: Sys, a: Action): Sys
    requires Enabled(s, a)
  {
    match a
    case SetMerchant(m, merchant) => s.(db := s.db.(merchants := s.db.merchants[m := merchant]))
    case CreateIntent(i, m, amountIdr, q, quote) =>
      var usdc := s.pricer.quote(amountIdr, quote).value;
      s.(db := s.db.(quotes := s.db.quotes[q := quote],
                     intents := s.db.intents[i := Intent(m, amountIdr, usdc, q, Pending)]))
    case Observe(signature, amount, commitment, link) =>
      s.(db := ObserveDeposit(s.db, Deposit(signature, amount, commitment, link), s.now))
    case Elapse(d) => s.(now := s.now + d)
    case Take(w, i, lease) =>
      var saga, until := s.db.sagas[i], s.now + lease;
      s.(db := ClaimSaga(s.db, i, until),
         inflight := s.inflight[w := Claim(i, saga.step, saga.attempts, until, Claimed)])
    case Run(w, env, reported) =>
      AfterStep(s, w, RunStep(s.db, s.inflight[w].intent, s.inflight[w].step, env), reported)
    case Record(w, delay) =>
      s.(db := RecordError(s.db, s.inflight[w], s.maxAttempts, s.now + delay), inflight := s.inflight - {w})
    case Crash(w) => s.(inflight := s.inflight - {w})
    case Dispatch(batch, cfg) =>
      var outbox := Dispatched(s, batch, cfg);
      s.(db := s.db.(outbox := outbox.rows), sends := outbox.log)
  }

  /** The n-th action takes the n-th state to the next. */
  ghost predicate ActsAt(states: seq<Sys>, acts: seq<Action>, n: nat)
    requires |states| == |acts| + 1 && n < |acts|
  {
    Enabled(states[n], acts[n]) && states[n + 1] == Next(states[n], acts[n])
  }

  ghost predicate IsStretch(states: seq<Sys>, acts: seq<Action>) {
    && |states| == |acts| + 1
    && forall n {:trigger ActsAt(states, acts, n)} :: 0 <= n < |acts| ==> ActsAt(states, acts, n)
  }

  /** Every interleaving, lease expiry and misreported commit included. */
  ghost predicate IsRun(states: seq<Sys>, acts: seq<Action>) {
    IsStretch(states, acts) && Init(states[0])
  }

  // ---- Stretches of a run, built action by action ----

  lemma StretchSnoc(states: seq<Sys>, acts: seq<Action>, a: Action)
    requires IsStretch(states, acts) && Enabled(states[|acts|], a)
    ensures IsStretch(states + [Next(states[|acts|], a)], acts + [a])
  {
    var states', acts' := states + [Next(states[|acts|], a)], acts + [a];
    forall n | 0 <= n < |acts'| ensures ActsAt(states', acts', n) {
      if n < |acts| { assert ActsAt(states, acts, n); }
    }
  }
}
