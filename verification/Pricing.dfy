/** The protocol with the FX arithmetic the code ships: when apply_payout_result rejects a payout
    that has already been made, and when it cannot. */
module Pricing {
  import opened Options
  import opened MachineInts
  import opened Schema
  import opened Steps
  import opened Protocol
  import opened Safety
  import Adversarial
  import ExactlyOnce
  import Progress
  import Fx

  function QuoteFor(amountIdr: int, q: Quote): Option<int> {
    match Fx.QuotedUsdc(amountIdr, Fx.Rate(q.rateNum, q.rateScale), q.spreadBps)
    case Ok(usdc) => Some(usdc)
    case Err(_) => None
  }

  function MidFor(usdc: int, q: Quote): int {
    Fx.MidIdr(usdc, q.rateNum, q.rateScale)
  }

  /** `pricer` computes what quoter.QuoteAmount and computeMidIDR compute. */
  ghost predicate IsCode(pricer: Pricer) {
    && (forall a, q {:trigger pricer.quote(a, q)} :: pricer.quote(a, q) == QuoteFor(a, q))
    && (forall u, q {:trigger pricer.mid(u, q)} :: pricer.mid(u, q) == MidFor(u, q))
  }

  // ---- An intent carries the quote it was created with ----

  ghost predicate QuoteKept(pricer: Pricer, db: DB, i: Id)
    requires i in db.intents
  {
    db.intents[i].quote in db.quotes && db.quotes[db.intents[i].quote].rateScale <= 18
    && pricer.quote(db.intents[i].amountIdr, db.quotes[db.intents[i].quote]) == Some(db.intents[i].quotedUsdc)
  }

  /** ... and is past settling only once its disbursement is booked. */
  ghost predicate BookedOk(db: DB, i: Id)
    requires i in db.intents
  {
    3 <= Rank(db.intents[i].state) ==> HasEntry(db.journal, PayoutDisbursedRef(i))
  }

  ghost predicate IntentTrail(pricer: Pricer, db: DB) {
    && (forall i {:trigger QuoteKept(pricer, db, i)} :: i in db.intents ==> QuoteKept(pricer, db, i))
    && (forall i {:trigger BookedOk(db, i)} :: i in db.intents ==> BookedOk(db, i))
  }

  lemma TrailGrows(pricer: Pricer, db: DB, db': DB)
    requires IntentTrail(pricer, db) && Grows(db, db')
    requires forall i :: i in db'.intents && i !in db.intents ==>
               QuoteKept(pricer, db', i) && db'.intents[i].state == Pending
    requires forall i :: i in db.intents && Rank(db'.intents[i].state) != Rank(db.intents[i].state) ==> BookedOk(db', i)
    ensures IntentTrail(pricer, db')
  {
    forall i | i in db'.intents ensures QuoteKept(pricer, db', i) && BookedOk(db', i) {
      if i in db.intents {
        assert QuoteKept(pricer, db, i) && BookedOk(db, i);
        if HasEntry(db.journal, PayoutDisbursedRef(i)) {
          HasEntryGrows(db.journal, db'.journal, PayoutDisbursedRef(i));
        }
      }
    }
  }

  /** A step moves at most its own intent, and to paid_out only with the disbursement booked. */
  ghost predicate MovesOnly(db: DB, db': DB, i: Id) {
    && db'.intents.Keys == db.intents.Keys && i in db.intents
    && (forall x :: x in db.intents && x != i ==> db'.intents[x] == db.intents[x])
    && (|| db'.intents[i].state == db.intents[i].state || Rank(db'.intents[i].state) <= 2
        || HasEntry(db'.journal, PayoutDisbursedRef(i)))
  }

  lemma PostedIntents(db: DB, e: JournalEntry, i: Id, from: IntentState, to: IntentState)
    requires i in db.intents && Rank(to) <= 2
    ensures MovesOnly(db, AdvanceIntent(Posted(db, e), i, from, to), i)
  {
  }

  lemma PayoutIntents(db: DB, i: Id, id: Id)
    requires i in db.intents
    ensures MovesOnly(db, AdvanceIntent(WithPayout(db, i, id), i, Funded, Settling), i)
  {
  }

  lemma SettlementIntents(db: DB, i: Id, mid: int)
    requires i in db.intents
    ensures MovesOnly(db, AdvanceIntent(WithSettlement(db, i, mid), i, Settling, PaidOut), i)
  {
    ExactlyOnce.SettlementHas(db, i, mid, i);
  }

  lemma ExecuteIntents(db: DB, i: Id, step: Step, env: Env)
    requires PayoutsOk(db) && Reached(db, i, step) && Execute(db, i, step, env).outcome.Commit?
    ensures MovesOnly(db, Execute(db, i, step, env).outcome.db, i)
  {
    match step
    case StepCreditDeposit =>
      CreditShape(db, i, env);
      PostedIntents(db, CreditEntry(i, FinalizedDeposit(db.onchain, i).value), i, Pending, Funded);
    case StepTriggerPayout =>
      TriggerShape(db, i, env);
      PayoutIntents(db, i, env.payoutId);
    case StepApplyPayoutResult =>
      ApplyShape(db, i, env);
      SettlementIntents(db, i, QuotedMid(env.pricer, db, i));
    case StepEmitCompleted => EmitShape(db, i, env);
  }

  lemma StepIntents(db: DB, i: Id, step: Step, env: Env)
    requires PayoutsOk(db) && Reached(db, i, step) && RunStep(db, i, step, env).outcome.Commit?
    ensures MovesOnly(db, RunStep(db, i, step, env).outcome.db, i)
  {
    ExecuteIntents(db, i, step, env);
    var db1, db' := Execute(db, i, step, env).outcome.db, RunStep(db, i, step, env).outcome.db;
    assert db' == db1.(sagas := db'.sagas);
  }

  /** The intents a worker's step moves. */
  lemma RunIntents(s: Sys, w: nat, env: Env, reported: bool)
    requires Inv(s) && Enabled(s, Run(w, env, reported))
    ensures Next(s, Run(w, env, reported)).pricer == s.pricer
    ensures var db' := Next(s, Run(w, env, reported)).db; db' == s.db || MovesOnly(s.db, db', s.inflight[w].intent)
  {
    var c := s.inflight[w];
    var run := RunStep(s.db, c.intent, c.step, env);
    if run.outcome.Commit? { StepIntents(s.db, c.intent, c.step, env); }
    AfterStepDb(s, w, run, reported);
  }

  lemma AfterStepDb(s: Sys, w: nat, run: StepRun, reported: bool)
    requires w in s.inflight
    ensures AfterStep(s, w, run, reported).db == if run.outcome.Commit? then run.outcome.db else s.db
    ensures AfterStep(s, w, run, reported).pricer == s.pricer
  {
  }

  lemma RunTrail(s: Sys, w: nat, db': DB)
    requires Inv(s) && IntentTrail(s.pricer, s.db) && Grows(s.db, db') && w in s.inflight
    requires db' == s.db || MovesOnly(s.db, db', s.inflight[w].intent)
    ensures IntentTrail(s.pricer, db')
  {
    TrailGrows(s.pricer, s.db, db');
  }

  lemma CreateTrail(s: Sys, a: Action)
    requires IntentTrail(s.pricer, s.db) && a.CreateIntent? && Enabled(s, a) && Grows(s.db, Next(s, a).db)
    ensures IntentTrail(s.pricer, Next(s, a).db)
  {
    var db' := Next(s, a).db;
    forall i | i in db'.intents && i !in s.db.intents
      ensures QuoteKept(s.pricer, db', i) && db'.intents[i].state == Pending
    {
      assert i == a.intentId;
    }
    TrailGrows(s.pricer, s.db, db');
  }

  lemma QuietIntents(s: Sys, a: Action)
    requires Enabled(s, a) && !a.Run?
    ensures Next(s, a).pricer == s.pricer && (a.CreateIntent? || Next(s, a).db.intents == s.db.intents)
  {
    match a case Observe(_, _, _, _) => case Record(_, _) => case _ =>
  }

  lemma TrailStep(s: Sys, a: Action)
    requires Inv(s) && IntentTrail(s.pricer, s.db) && Enabled(s, a)
    ensures Next(s, a).pricer == s.pricer && IntentTrail(s.pricer, Next(s, a).db)
  {
    Adversarial.InvStep(s, a);
    if a.Run? {
      RunIntents(s, a.worker, a.env, a.reported);
      RunTrail(s, a.worker, Next(s, a).db);
    } else {
      QuietIntents(s, a);
      if a.CreateIntent? { CreateTrail(s, a); } else { TrailGrows(s.pricer, s.db, Next(s, a).db); }
    }
  }

  lemma {:induction false} TrailAlways(states: seq<Sys>, acts: seq<Action>, n: nat)
    requires IsRun(states, acts) && n < |states|
    ensures states[n].pricer == states[0].pricer && IntentTrail(states[n].pricer, states[n].db)
  {
    if n > 0 {
      TrailAlways(states, acts, n - 1);
      Adversarial.Safe(states, acts, n - 1);
      assert ActsAt(states, acts, n - 1);
      TrailStep(states[n - 1], acts[n - 1]);
    }
  }

  lemma QuoteOf(states: seq<Sys>, acts: seq<Action>, n: nat, i: Id)
    requires IsRun(states, acts) && n < |states| && IsCode(states[0].pricer) && i in states[n].db.intents
    ensures var db := states[n].db;
            && db.intents[i].quote in db.quotes && db.quotes[db.intents[i].quote].rateScale <= 18
            && QuoteFor(db.intents[i].amountIdr, db.quotes[db.intents[i].quote]) == Some(db.intents[i].quotedUsdc)
            && QuotedMid(states[n].pricer, db, i) == MidFor(db.intents[i].quotedUsdc, db.quotes[db.intents[i].quote])
  {
    TrailAlways(states, acts, n);
    assert QuoteKept(states[n].pricer, states[n].db, i);
  }

  // ---- The negative-spread guard ----

  /** When a fault-free apply_payout_result rejects: exactly when the mid value is below the amount paid. */
  lemma ApplyRejects(db: DB, i: Id, env: Env)
    requires CoreOk(db) && Reached(db, i, StepApplyPayoutResult) && Progress.Faultless(env)
    requires db.intents[i].quote in db.quotes
    ensures QuotedMid(env.pricer, db, i) < db.intents[i].amountIdr <==> ApplyPayoutResult(db, i, env) == Abort(true)
  {
    if db.intents[i].amountIdr <= QuotedMid(env.pricer, db, i) { Progress.ApplyCommits(db, i, env); }
  }

  function RateOf(q: Quote): Fx.Rate { Fx.Rate(q.rateNum, q.rateScale) }

  /** The guard's condition on the quote of intent `i`. */
  ghost predicate GuardFires(db: DB, i: Id)
    requires i in db.intents && db.intents[i].quote in db.quotes
    requires var q := db.quotes[db.intents[i].quote]; 0 < Fx.Divisor(RateOf(q), q.spreadBps)
  {
    var t, q := db.intents[i], db.quotes[db.intents[i].quote];
    Fx.GuardFires(t.amountIdr, RateOf(q), q.spreadBps, t.quotedUsdc)
  }

  /** In every reachable state, for every intent: its mid value is below its amount exactly when the
      guard's condition on its quote holds. */
  lemma ShortExactly(states: seq<Sys>, acts: seq<Action>, n: nat, i: Id)
    requires IsRun(states, acts) && n < |states| && IsCode(states[0].pricer) && i in states[n].db.intents
    ensures var db := states[n].db;
            && db.intents[i].quote in db.quotes
            && var q := db.quotes[db.intents[i].quote];
               && 0 < Fx.Divisor(RateOf(q), q.spreadBps)
               && (QuotedMid(states[n].pricer, db, i) < db.intents[i].amountIdr <==> GuardFires(db, i))
  {
    QuoteOf(states, acts, n, i);
    var db := states[n].db;
    var t, q := db.intents[i], db.quotes[db.intents[i].quote];
    Fx.NegativeSpreadExactly(t.amountIdr, RateOf(q), q.spreadBps, t.quotedUsdc);
  }

  /** In every reachable state, for every intent at every scale: a payout that has been made is
      rejected by the books exactly when the guard's condition on its quote holds. */
  lemma GuardFiresExactly(states: seq<Sys>, acts: seq<Action>, n: nat, i: Id, env: Env)
    requires IsRun(states, acts) && n < |states| && IsCode(states[0].pricer) && env.pricer == states[n].pricer
    requires Reached(states[n].db, i, StepApplyPayoutResult) && Progress.Faultless(env)
    ensures var db := states[n].db;
            && db.intents[i].quote in db.quotes
            && var q := db.quotes[db.intents[i].quote];
               && 0 < Fx.Divisor(RateOf(q), q.spreadBps)
               && (ApplyPayoutResult(db, i, env) == Abort(true) <==> GuardFires(db, i))
  {
    ShortExactly(states, acts, n, i);
    Adversarial.Safe(states, acts, n);
    ApplyRejects(states[n].db, i, env);
  }

  /** An intent whose quote meets the condition is never paid out on the books, in any run, though
      its payout may have been made. */
  lemma RejectedIntentNeverSettles(states: seq<Sys>, acts: seq<Action>, n: nat, i: Id)
    requires IsRun(states, acts) && n < |states| && IsCode(states[0].pricer) && i in states[n].db.intents
    requires var db := states[n].db;
             && db.intents[i].quote in db.quotes
             && var q := db.quotes[db.intents[i].quote];
                0 < Fx.Divisor(RateOf(q), q.spreadBps) && GuardFires(db, i)
    ensures Rank(states[n].db.intents[i].state) <= 2
    ensures !HasEntry(states[n].db.journal, PayoutDisbursedRef(i))
  {
    ShortExactly(states, acts, n, i);
    NeverDisbursed(states, acts, n, i);
    TrailAlways(states, acts, n);
    assert BookedOk(states[n].db, i);
  }

  /** At a positive rate scale the quote and the mid value divide twice by 10^scale: unless the spread
      takes almost everything, no such intent is ever paid out on the books. */
  lemma ScaledIntentNeverSettles(states: seq<Sys>, acts: seq<Action>, n: nat, i: Id)
    requires IsRun(states, acts) && n < |states| && IsCode(states[0].pricer) && i in states[n].db.intents
    requires var db := states[n].db;
             && db.intents[i].quote in db.quotes
             && var q := db.quotes[db.intents[i].quote];
                Fx.BPS < (Fx.BPS - q.spreadBps) * Pow(10, q.rateScale) * Pow(10, q.rateScale)
    ensures Rank(states[n].db.intents[i].state) <= 2
    ensures !HasEntry(states[n].db.journal, PayoutDisbursedRef(i))
  {
    var db := states[n].db;
    var t, q := db.intents[i], db.quotes[db.intents[i].quote];
    QuoteOf(states, acts, n, i);
    Fx.ScaledRateAlwaysRejects(t.amountIdr, RateOf(q), q.spreadBps, t.quotedUsdc);
    ShortExactly(states, acts, n, i);
    RejectedIntentNeverSettles(states, acts, n, i);
  }

  lemma NeverDisbursed(states: seq<Sys>, acts: seq<Action>, n: nat, i: Id)
    requires IsRun(states, acts) && n < |states| && i in states[n].db.intents
    requires states[n].db.intents[i].quote in states[n].db.quotes
    requires QuotedMid(states[n].pricer, states[n].db, i) < states[n].db.intents[i].amountIdr
    ensures !HasEntry(states[n].db.journal, PayoutDisbursedRef(i))
  {
    ExactlyOnce.EffectsHold(states, acts, n);
    var db := states[n].db;
    forall k | 0 <= k < |db.journal| ensures db.journal[k].ref != PayoutDisbursedRef(i) {
      if db.journal[k].ref.PayoutDisbursedRef? { BookedAboveAmount(states[n], k); }
    }
  }

  lemma BookedAboveAmount(s: Sys, k: nat)
    requires ExactlyOnce.EffectInv(s) && k < |s.db.journal| && s.db.journal[k].ref.PayoutDisbursedRef?
    ensures var i := s.db.journal[k].ref.intent;
            && i in s.db.intents && s.db.intents[i].quote in s.db.quotes
            && s.db.intents[i].amountIdr <= QuotedMid(s.pricer, s.db, i)
  {
    var i := s.db.journal[k].ref.intent;
    assert EntryOk(s.db, s.db.journal[k]);
    assert IntentOk(s.db, i);
    assert ExactlyOnce.PricedAt(s.pricer, s.db, k);
  }
}
