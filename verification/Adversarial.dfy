/** The safety invariant over every run of the adversarial regime, and what it implies. */
module Adversarial {
  import opened Options
  import opened MachineInts
  import opened Schema
  import opened Steps
  import opened Protocol
  import opened Safety
  import Outbox

  // ---- The saga row ----

  lemma StepKeeps(db: DB, i: Id, step: Step, env: Env)
    requires CoreOk(db) && Reached(db, i, step) && Execute(db, i, step, env).outcome.Commit?
    ensures var out := Execute(db, i, step, env).outcome;
            && CoreOk(out.db) && Grows(db, out.db) && out.db.sagas == db.sagas
            && (out.next.Some? ==> Reached(out.db, i, out.next.value))
            && (out.next.None? ==> Reached(out.db, i, step) && Done(out.db, i))
  {
    match step
    case StepCreditDeposit => CreditKeeps(db, i, env);
    case StepTriggerPayout => TriggerKeeps(db, i, env);
    case StepApplyPayoutResult => ApplyKeeps(db, i, env);
    case StepEmitCompleted => EmitKeeps(db, i, env);
  }

  /** Overwriting one saga row, by whichever worker. */
  lemma SagaWriteKeeps(db: DB, i: Id, saga: Saga)
    requires CoreOk(db) && SagasOk(db) && i in db.sagas
    requires Reached(db, i, saga.step) && (saga.state == SagaCompleted ==> Done(db, i))
    ensures var db' := db.(sagas := db.sagas[i := saga]); CoreOk(db') && Grows(db, db') && SagasOk(db')
  {
    var db' := db.(sagas := db.sagas[i := saga]);
    assert db'.sagas.Keys == db.sagas.Keys;
    assert IntentsOk(db') by { forall j | j in db'.intents ensures IntentOk(db', j) { assert IntentOk(db, j); } }
    CoreFrame(db, db');
    forall j | j in db'.sagas ensures SagaOk(db', j) {
      if j == i { SagaFrame(db, db', i, saga.step, saga.state); }
      else { assert SagaOk(db, j); SagaFrame(db, db', j, db.sagas[j].step, db.sagas[j].state); }
    }
  }

  lemma SagaFrame(db: DB, db': DB, j: Id, step: Step, state: SagaState)
    requires Grows(db, db') && Reached(db, j, step) && (state == SagaCompleted ==> Done(db, j))
    ensures Reached(db', j, step) && (state == SagaCompleted ==> Done(db', j))
  {
    ReachedGrows(db, db', j, step);
    if state == SagaCompleted { DoneGrows(db, db', j); }
  }

  lemma SagasGrow(db: DB, db': DB)
    requires Grows(db, db') && SagasOk(db) && db'.sagas == db.sagas
    ensures SagasOk(db')
  {
    forall j | j in db'.sagas ensures SagaOk(db', j) {
      assert SagaOk(db, j);
      SagaFrame(db, db', j, db.sagas[j].step, db.sagas[j].state);
    }
  }

  lemma ClaimsGrow(s: Sys, s': Sys)
    requires ClaimsOk(s) && Grows(s.db, s'.db)
    requires forall w :: w in s'.inflight ==>
               w in s.inflight && s'.inflight[w].intent == s.inflight[w].intent
                 && s'.inflight[w].step == s.inflight[w].step
    ensures ClaimsOk(s')
  {
    forall w | w in s'.inflight
      ensures s'.inflight[w].intent in s'.db.sagas && Reached(s'.db, s'.inflight[w].intent, s'.inflight[w].step)
    {
      ReachedGrows(s.db, s'.db, s.inflight[w].intent, s.inflight[w].step);
    }
  }

  /** A committed step, whoever runs it and whatever the saga row says by now. */
  lemma RunStepKeeps(db: DB, i: Id, step: Step, env: Env)
    requires CoreOk(db) && SagasOk(db) && i in db.sagas && Reached(db, i, step)
    requires RunStep(db, i, step, env).outcome.Commit?
    ensures var db' := RunStep(db, i, step, env).outcome.db; CoreOk(db') && Grows(db, db') && SagasOk(db')
  {
    var out := Execute(db, i, step, env).outcome;
    StepKeeps(db, i, step, env);
    SagasGrow(db, out.db);
    assert SagaOk(out.db, i);
    var saga := if out.next.None? then out.db.sagas[i].(state := SagaCompleted, leaseUntil := None)
                else Saga(out.next.value, SagaPending, 0, env.now, None);
    SagaWriteKeeps(out.db, i, saga);
    var db' := out.db.(sagas := out.db.sagas[i := saga]);
    GrowsTransitive(db, out.db, db');
    assert RunStep(db, i, step, env).outcome.db == db';
  }

  // ---- The watcher ----

  lemma UpsertGrows(o: seq<Deposit>, d: Deposit)
    ensures DepositsGrow(o, UpsertDeposit(o, d))
  {
  }

  lemma UpsertFinalized(o: seq<Deposit>, d: Deposit, j: Id)
    ensures HasFinalized(UpsertDeposit(o, d), j) <==> HasFinalized(o, j) || FinalizedFor(UpsertedRow(o, d), j)
  {
    var o' := UpsertDeposit(o, d);
    var at := FindDeposit(o, d.signature);
    var k := if at.None? then |o| else at.value;
    assert o'[k] == UpsertedRow(o, d);
    if HasFinalized(o, j) {
      var m :| 0 <= m < |o| && FinalizedFor(o[m], j);
      assert FinalizedFor(o'[m], j);
    }
    if HasFinalized(o', j) {
      var m :| 0 <= m < |o'| && FinalizedFor(o'[m], j);
      if m != k { assert o[m] == o'[m]; }
    }
  }

  lemma ObserveGrows(db: DB, d: Deposit, now: Time)
    requires CoreOk(db) && 0 < d.amount < TWO_63 && (d.intent.Some? ==> d.intent.value in db.intents)
    ensures var db' := ObserveDeposit(db, d, now); Grows(db, db') && CoreOk(db')
  {
    var db' := ObserveDeposit(db, d, now);
    assert db' == db.(onchain := UpsertDeposit(db.onchain, d), sagas := db'.sagas);
    ObserveEnqueues(db, d, now);
    DepositWriteKeeps(db, d, db'.sagas);
  }

  /** The upsert and the enqueue keep "a saga exists iff a finalized deposit is linked" together. */
  lemma ObserveEnqueues(db: DB, d: Deposit, now: Time)
    requires EnqueuedOk(db)
    ensures EnqueuedOk(ObserveDeposit(db, d, now)) && db.sagas.Keys <= ObserveDeposit(db, d, now).sagas.Keys
  {
    forall j
      ensures HasFinalized(UpsertDeposit(db.onchain, d), j) <==>
              HasFinalized(db.onchain, j) || FinalizedFor(UpsertedRow(db.onchain, d), j)
    {
      UpsertFinalized(db.onchain, d, j);
    }
    EnqueuedSnoc(db, ObserveDeposit(db, d, now), UpsertedRow(db.onchain, d));
  }

  lemma EnqueuedSnoc(db: DB, db': DB, row: Deposit)
    requires EnqueuedOk(db)
    requires forall j :: HasFinalized(db'.onchain, j) <==> HasFinalized(db.onchain, j) || FinalizedFor(row, j)
    requires forall j :: j in db'.sagas <==> j in db.sagas || FinalizedFor(row, j)
    ensures EnqueuedOk(db') && db.sagas.Keys <= db'.sagas.Keys
  {
  }

  lemma DepositWriteKeeps(db: DB, d: Deposit, sagas: map<Id, Saga>)
    requires CoreOk(db) && 0 < d.amount < TWO_63 && (d.intent.Some? ==> d.intent.value in db.intents)
    requires db.sagas.Keys <= sagas.Keys
    requires EnqueuedOk(db.(onchain := UpsertDeposit(db.onchain, d), sagas := sagas))
    ensures var db' := db.(onchain := UpsertDeposit(db.onchain, d), sagas := sagas); Grows(db, db') && CoreOk(db')
  {
    var db' := db.(onchain := UpsertDeposit(db.onchain, d), sagas := sagas);
    UpsertGrows(db.onchain, d);
    assert Grows(db, db');
    assert IntentsOk(db') by { forall j | j in db'.intents ensures IntentOk(db', j) { assert IntentOk(db, j); } }
    JournalGrows(db, db');
    UpsertDepositsOk(db, d);
    DepositsFrame(db.(onchain := db'.onchain), db');
  }

  lemma ObserveKeeps(db: DB, d: Deposit, now: Time)
    requires CoreOk(db) && SagasOk(db)
    requires 0 < d.amount < TWO_63 && (d.intent.Some? ==> d.intent.value in db.intents)
    ensures var db' := ObserveDeposit(db, d, now); CoreOk(db') && Grows(db, db') && SagasOk(db')
  {
    var db' := ObserveDeposit(db, d, now);
    ObserveGrows(db, d, now);
    UpsertDepositsOk(db, d);
    forall j | j in db'.sagas ensures SagaOk(db', j) {
      if j in db.sagas {
        assert SagaOk(db, j);
        SagaFrame(db, db', j, db.sagas[j].step, db.sagas[j].state);
      }
    }
  }

  lemma UpsertDepositsOk(db: DB, d: Deposit)
    requires DepositsOk(db) && 0 < d.amount < TWO_63 && (d.intent.Some? ==> d.intent.value in db.intents)
    ensures DepositsOk(db.(onchain := UpsertDeposit(db.onchain, d)))
    ensures UpsertedRow(db.onchain, d).intent.Some? ==> UpsertedRow(db.onchain, d).intent.value in db.intents
  {
    var db' := db.(onchain := UpsertDeposit(db.onchain, d));
    var at := FindDeposit(db.onchain, d.signature);
    if at.Some? { assert DepositOk(db, at.value); }
    forall k | 0 <= k < |db'.onchain| ensures DepositOk(db', k) {
      if k < |db.onchain| { assert DepositOk(db, k); }
    }
  }

  // ---- Intents ----

  lemma CreateKeeps(db: DB, i: Id, intent: Intent, q: Id, quote: Quote)
    requires CoreOk(db) && SagasOk(db) && i !in db.intents && q !in db.quotes
    requires intent.state == Pending && intent.quote == q
    requires 0 < intent.amountIdr < TWO_63 && 0 < intent.quotedUsdc < TWO_63
    ensures var db' := db.(quotes := db.quotes[q := quote], intents := db.intents[i := intent]);
            CoreOk(db') && Grows(db, db') && SagasOk(db')
  {
    var db' := db.(quotes := db.quotes[q := quote], intents := db.intents[i := intent]);
    assert IntentsOk(db') by {
      forall j | j in db'.intents ensures IntentOk(db', j) { if j != i { assert IntentOk(db, j); } }
    }
    CoreFrame(db, db');
    SagasGrow(db, db');
  }

  lemma MerchantKeeps(db: DB, m: Id, merchant: Merchant)
    requires CoreOk(db) && SagasOk(db)
    ensures var db' := db.(merchants := db.merchants[m := merchant]); CoreOk(db') && Grows(db, db') && SagasOk(db')
  {
    var db' := db.(merchants := db.merchants[m := merchant]);
    assert IntentsOk(db') by { forall j | j in db'.intents ensures IntentOk(db', j) { assert IntentOk(db, j); } }
    CoreFrame(db, db');
    SagasGrow(db, db');
  }

  // ---- Every action ----

  /** A database change that keeps the claims' snapshots. */
  lemma InvFrame(s: Sys, s': Sys)
    requires Inv(s) && CoreOk(s'.db) && SagasOk(s'.db) && Grows(s.db, s'.db)
    requires forall w :: w in s'.inflight ==>
               w in s.inflight && s'.inflight[w].intent == s.inflight[w].intent
                 && s'.inflight[w].step == s.inflight[w].step
    ensures Inv(s')
  {
    ClaimsGrow(s, s');
  }

  lemma AfterStepKeeps(s: Sys, w: nat, run: StepRun, reported: bool)
    requires Inv(s) && w in s.inflight
    requires run.outcome.Commit? ==> CoreOk(run.outcome.db) && SagasOk(run.outcome.db) && Grows(s.db, run.outcome.db)
    ensures Inv(AfterStep(s, w, run, reported)) && Grows(s.db, AfterStep(s, w, run, reported).db)
  {
    var s' := AfterStep(s, w, run, reported);
    SameClaims(s, w, run, reported);
    if run.outcome.Abort? {
      assert s'.db == s.db;
      ClaimsKeep(s, s');
    } else {
      assert s'.db == run.outcome.db;
      InvFrame(s, s');
    }
  }

  lemma SameClaims(s: Sys, w: nat, run: StepRun, reported: bool)
    requires w in s.inflight
    ensures var s' := AfterStep(s, w, run, reported);
            forall v :: v in s'.inflight ==>
              v in s.inflight && s'.inflight[v].intent == s.inflight[v].intent
                && s'.inflight[v].step == s.inflight[v].step
  {
  }

  lemma ClaimsKeep(s: Sys, s': Sys)
    requires ClaimsOk(s) && s'.db == s.db
    requires forall w :: w in s'.inflight ==>
               w in s.inflight && s'.inflight[w].intent == s.inflight[w].intent
                 && s'.inflight[w].step == s.inflight[w].step
    ensures ClaimsOk(s')
  {
  }

  lemma TakeKeeps(s: Sys, w: nat, i: Id, lease: nat)
    requires Inv(s) && Enabled(s, Take(w, i, lease))
    ensures Inv(Next(s, Take(w, i, lease))) && Grows(s.db, Next(s, Take(w, i, lease)).db)
  {
    var s' := Next(s, Take(w, i, lease));
    assert SagaOk(s.db, i);
    SagaWriteKeeps(s.db, i, s'.db.sagas[i]);
    ReachedGrows(s.db, s'.db, i, s.db.sagas[i].step);
    ClaimsGrow(s, s.(db := s'.db));
  }

  lemma RecordWrites(db: DB, c: Claim, maxAttempts: int, nextRunAt: Time)
    requires c.phase.Erred? && c.intent in db.sagas
    ensures var db' := RecordError(db, c, maxAttempts, nextRunAt);
            && db' == db.(sagas := db.sagas[c.intent := db'.sagas[c.intent]])
            && db'.sagas[c.intent].step == db.sagas[c.intent].step
            && db'.sagas[c.intent].state in {SagaPending, SagaFailed}
  {
  }

  lemma RecordKeeps(s: Sys, w: nat, delay: nat)
    requires Inv(s) && Enabled(s, Record(w, delay))
    ensures Inv(Next(s, Record(w, delay))) && Grows(s.db, Next(s, Record(w, delay)).db)
  {
    RecordWrites(s.db, s.inflight[w], s.maxAttempts, s.now + delay);
    RecordFrame(s, Next(s, Record(w, delay)), s.inflight[w].intent);
  }

  lemma RecordFrame(s: Sys, s': Sys, i: Id)
    requires Inv(s) && i in s.db.sagas && i in s'.db.sagas && s'.db == s.db.(sagas := s.db.sagas[i := s'.db.sagas[i]])
    requires s'.db.sagas[i].step == s.db.sagas[i].step && s'.db.sagas[i].state != SagaCompleted
    requires forall w :: w in s'.inflight ==> w in s.inflight && s'.inflight[w] == s.inflight[w]
    ensures Inv(s') && Grows(s.db, s'.db)
  {
    assert SagaOk(s.db, i);
    SagaWriteKeeps(s.db, i, s'.db.sagas[i]);
    InvFrame(s, s');
  }

  /** Draining the outbox changes delivery columns only. */
  lemma DispatchContent(s: Sys, batch: Outbox.Action<CompletedEvent>, cfg: Outbox.Config)
    requires CanDispatch(s, batch, cfg)
    ensures var rows := Dispatched(s, batch, cfg).rows; |rows| == |s.db.outbox| && OutboxGrows(s.db.outbox, rows)
  {
    Outbox.StepCarries(Outbox.State(s.db.outbox, s.sends), batch, cfg);
  }

  lemma DispatchKeeps(s: Sys, batch: Outbox.Action<CompletedEvent>, cfg: Outbox.Config)
    requires Inv(s) && CanDispatch(s, batch, cfg)
    ensures var s' := Next(s, Dispatch(batch, cfg)); Inv(s') && Grows(s.db, s'.db)
  {
    DispatchContent(s, batch, cfg);
    OutboxWriteKeeps(s, Next(s, Dispatch(batch, cfg)));
  }

  lemma OutboxWriteKeeps(s: Sys, s': Sys)
    requires Inv(s) && s'.db == s.db.(outbox := s'.db.outbox) && s'.inflight == s.inflight
    requires OutboxGrows(s.db.outbox, s'.db.outbox)
    ensures Inv(s') && Grows(s.db, s'.db)
  {
    OutboxKeeps(s.db, s'.db.outbox);
    forall j | j in s'.db.sagas ensures SagaOk(s'.db, j) {
      assert SagaOk(s.db, j);
      SagaFrame(s.db, s'.db, j, s.db.sagas[j].step, s.db.sagas[j].state);
    }
    InvFrame(s, s');
  }

  lemma InvStep(s: Sys, a: Action)
    requires Inv(s) && Enabled(s, a)
    ensures Inv(Next(s, a)) && Grows(s.db, Next(s, a).db)
  {
    match a
    case SetMerchant(m, merchant) =>
      MerchantKeeps(s.db, m, merchant);
      InvFrame(s, Next(s, a));
    case CreateIntent(i, m, amountIdr, q, quote) =>
      CreateKeeps(s.db, i, Next(s, a).db.intents[i], q, quote);
      InvFrame(s, Next(s, a));
    case Observe(signature, amount, commitment, link) =>
      ObserveKeeps(s.db, Deposit(signature, amount, commitment, link), s.now);
      InvFrame(s, Next(s, a));
    case Elapse(_) =>
    case Take(w, i, lease) => TakeKeeps(s, w, i, lease);
    case Run(w, env, reported) =>
      var c := s.inflight[w];
      var run := RunStep(s.db, c.intent, c.step, env);
      if run.outcome.Commit? { RunStepKeeps(s.db, c.intent, c.step, env); }
      AfterStepKeeps(s, w, run, reported);
    case Record(w, delay) => RecordKeeps(s, w, delay);
    case Crash(_) => InvFrame(s, Next(s, a));
    case Dispatch(batch, cfg) => DispatchKeeps(s, batch, cfg);
  }

  lemma InitInv(s: Sys)
    requires Init(s)
    ensures Inv(s)
  {
  }

  /** The invariant holds in every state of every run. */
  lemma {:induction false} Safe(states: seq<Sys>, acts: seq<Action>, n: nat)
    requires IsRun(states, acts) && n < |states|
    ensures Inv(states[n])
  {
    if n == 0 {
      InitInv(states[0]);
    } else {
      Safe(states, acts, n - 1);
      assert ActsAt(states, acts, n - 1);
      InvStep(states[n - 1], acts[n - 1]);
    }
  }

  lemma GrowsAt(states: seq<Sys>, acts: seq<Action>, n: nat)
    requires IsRun(states, acts) && n < |acts|
    ensures Grows(states[n].db, states[n + 1].db)
  {
    Safe(states, acts, n);
    assert ActsAt(states, acts, n);
    InvStep(states[n], acts[n]);
  }

  /** ... and across a run the durable record only grows: no intent regresses, no payout, journal
      entry or deposit is lost or changed. */
  lemma {:induction false} NeverRegresses(states: seq<Sys>, acts: seq<Action>, m: nat, n: nat)
    requires IsRun(states, acts) && m <= n < |states|
    ensures Grows(states[m].db, states[n].db)
    decreases n
  {
    if m < n {
      NeverRegresses(states, acts, m, n - 1);
      GrowsAt(states, acts, n - 1);
      GrowsTransitive(states[m].db, states[n - 1].db, states[n].db);
    }
  }

  /** All-or-nothing: whatever the rail answers and wherever a transaction dies, no committed
      payout is anything but succeeded and no intent is ever failed or expired. */
  lemma NoFailureIsEverCommitted(states: seq<Sys>, acts: seq<Action>, n: nat, i: Id)
    requires IsRun(states, acts) && n < |states|
    ensures i in states[n].db.payouts ==> states[n].db.payouts[i].state == PayoutSucceeded
    ensures i in states[n].db.intents ==> states[n].db.intents[i].state !in {IntentFailed, Expired}
  {
    Safe(states, acts, n);
    if i in states[n].db.intents { assert IntentOk(states[n].db, i); }
  }

  /** The integration test that expects a permanent rejection to leave failed marks cannot be met:
      after such an answer the database is the one before the step. */
  lemma PermanentRejectionLeavesNoMark(s: Sys, w: nat, env: Env, reported: bool)
    requires Enabled(s, Run(w, env, reported)) && s.inflight[w].step == StepTriggerPayout
    requires env.reply == RailPermanent && s.inflight[w].intent !in s.db.payouts
    ensures Next(s, Run(w, env, reported)).db == s.db
  {
  }
}
