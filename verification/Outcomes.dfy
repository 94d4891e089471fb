/** How every step ends, exactly: it commits, fails for good, or fails to be retried, and what the saga
    row then records. */
module Outcomes {
  import opened Options
  import opened Schema
  import opened Steps
  import opened Protocol
  import opened Safety
  import Adversarial
  import Ledger
  import Progress
  import StaleWrites

  /** Bank code, account number and account name are all given. */
  ghost predicate CanBePaid(m: Merchant) {
    exists code, number, name ::
      code != "" && number != "" && name != "" && m == Merchant(Some(code), Some(number), Some(name))
  }

  lemma BankDetailsExactly(m: Merchant)
    ensures HasBankDetails(m) <==> CanBePaid(m)
  {
    if HasBankDetails(m) {
      assert m == Merchant(Some(m.bankCode.value), Some(m.accountNumber.value), Some(m.accountName.value));
    }
  }

  /** A reached step fails for good: an account lookup failed, or bank details are missing, or the rail
      is unknown, rejected the payout or answered nonsense, or the mid value is short. */
  ghost predicate FailsForGood(db: DB, i: Id, step: Step, env: Env)
    requires i in db.intents
  {
    && env.early != QueryFails
    && match step
       case StepCreditDeposit => env.early == AccountLookupFails
       case StepTriggerPayout =>
         && db.intents[i].merchant in db.merchants
         && (|| !CanBePaid(db.merchants[db.intents[i].merchant])
             || (&& i !in db.payouts
                 && (!env.railKnown || env.reply == RailUnknown || (env.reply == RailPermanent && !env.late))))
       case StepApplyPayoutResult =>
         env.early == AccountLookupFails
         || (db.intents[i].quote in db.quotes && QuotedMid(env.pricer, db, i) < db.intents[i].amountIdr)
       case _ => false
  }

  /** ... and commits: no fault on the way, and at trigger_payout the bank paid now or before. */
  ghost predicate Succeeds(db: DB, i: Id, step: Step, env: Env)
    requires i in db.intents
  {
    && env.early != QueryFails && !env.late
    && match step
       case StepCreditDeposit => env.early == NoFault
       case StepTriggerPayout =>
         && db.intents[i].merchant in db.merchants && CanBePaid(db.merchants[db.intents[i].merchant])
         && (i !in db.payouts ==> env.railKnown && env.reply == RailSuccess)
       case StepApplyPayoutResult =>
         && env.early == NoFault
         && db.intents[i].quote in db.quotes && db.intents[i].amountIdr <= QuotedMid(env.pricer, db, i)
       case _ => true
  }

  lemma CreditEnds(db: DB, i: Id, env: Env)
    requires CoreOk(db) && i in db.sagas && i in db.intents
    ensures CreditDeposit(db, i, env) == Abort(true) <==> FailsForGood(db, i, StepCreditDeposit, env)
    ensures CreditDeposit(db, i, env).Commit? <==> env.early == NoFault
  {
    assert HasFinalized(db.onchain, i);
    if env.early == NoFault { Progress.CreditCommits(db, i, env); }
  }

  lemma TriggerEnds(db: DB, i: Id, env: Env)
    requires PayoutsOk(db) && i in db.intents
    ensures TriggerPayout(db, i, env).outcome == Abort(true) <==> FailsForGood(db, i, StepTriggerPayout, env)
    ensures TriggerPayout(db, i, env).outcome.Commit? && !env.late <==> Succeeds(db, i, StepTriggerPayout, env)
  {
    if db.intents[i].merchant in db.merchants { BankDetailsExactly(db.merchants[db.intents[i].merchant]); }
  }

  lemma ApplyEnds(db: DB, i: Id, env: Env)
    requires CoreOk(db) && Reached(db, i, StepApplyPayoutResult)
    ensures ApplyPayoutResult(db, i, env) == Abort(true) <==> FailsForGood(db, i, StepApplyPayoutResult, env)
    ensures ApplyPayoutResult(db, i, env).Commit? && !env.late <==> Succeeds(db, i, StepApplyPayoutResult, env)
  {
    assert IntentOk(db, i);
    if env.early == NoFault && db.intents[i].amountIdr <= QuotedMid(env.pricer, db, i) {
      Progress.ApplyCommits(db, i, env);
    }
  }

  lemma ExecuteEnds(db: DB, i: Id, step: Step, env: Env)
    requires CoreOk(db) && i in db.sagas && Reached(db, i, step)
    ensures Execute(db, i, step, env).outcome == Abort(true) <==> FailsForGood(db, i, step, env)
    ensures Execute(db, i, step, env).outcome.Commit? && !env.late <==> Succeeds(db, i, step, env)
  {
    match step
    case StepCreditDeposit => CreditEnds(db, i, env);
    case StepTriggerPayout => TriggerEnds(db, i, env);
    case StepApplyPayoutResult => ApplyEnds(db, i, env);
    case StepEmitCompleted =>
  }

  /** Every reached step, under every fault and every answer of the rail, ends in one of three ways: it
      fails for good, it commits, or it fails to be retried. */
  lemma EndsExactly(db: DB, i: Id, step: Step, env: Env)
    requires CoreOk(db) && i in db.sagas && Reached(db, i, step)
    ensures RunStep(db, i, step, env).outcome == Abort(true) <==> FailsForGood(db, i, step, env)
    ensures RunStep(db, i, step, env).outcome.Commit? <==> Succeeds(db, i, step, env)
    ensures RunStep(db, i, step, env).outcome == Abort(false) <==>
            !FailsForGood(db, i, step, env) && !Succeeds(db, i, step, env)
  {
    ExecuteEnds(db, i, step, env);
    if Execute(db, i, step, env).outcome.Commit? {
      Adversarial.StepKeeps(db, i, step, env);
      Progress.NewEntriesBalanced(db, Execute(db, i, step, env).outcome.db);
    }
  }

  /** trigger_payout asking the bank: what each answer comes to. */
  lemma AnswerDecides(db: DB, i: Id, env: Env)
    requires CoreOk(db) && i in db.sagas && Reached(db, i, StepTriggerPayout) && i !in db.payouts
    requires db.intents[i].merchant in db.merchants && CanBePaid(db.merchants[db.intents[i].merchant])
    requires env.railKnown && env.early != QueryFails
    ensures var run := RunStep(db, i, StepTriggerPayout, env);
            && run.call == Some(Submission(env.payoutId, i, db.intents[i].amountIdr, env.landed))
            && (run.outcome == Abort(true) <==> env.reply == RailUnknown || (env.reply == RailPermanent && !env.late))
            && (run.outcome.Commit? <==> env.reply == RailSuccess && !env.late)
            && (env.reply in {RailError, RailRetry} ==> run.outcome == Abort(false))
  {
    EndsExactly(db, i, StepTriggerPayout, env);
    BankDetailsExactly(db.merchants[db.intents[i].merchant]);
  }

  /** A failed query is always retried, whatever the database holds; a row that is missing is retried,
      except a missing intent at the first two steps and a missing payout, which are final. */
  lemma MissingRows(db: DB, i: Id, step: Step, env: Env)
    requires !step.StepUnknown?
    ensures env.early == QueryFails ==> RunStep(db, i, step, env) == StepRun(Abort(false), None)
    ensures env.early != QueryFails && i !in db.intents ==>
              RunStep(db, i, step, env) == StepRun(Abort(step in {StepCreditDeposit, StepTriggerPayout}), None)
    ensures env.early != QueryFails && i in db.intents && !HasFinalized(db.onchain, i) ==>
              RunStep(db, i, StepCreditDeposit, env) == StepRun(Abort(false), None)
    ensures env.early != QueryFails && i in db.intents && db.intents[i].merchant !in db.merchants ==>
              RunStep(db, i, StepTriggerPayout, env) == StepRun(Abort(false), None)
    ensures env.early != QueryFails && i in db.intents && i !in db.payouts ==>
              RunStep(db, i, StepApplyPayoutResult, env) == StepRun(Abort(true), None)
    ensures env.early != QueryFails && i in db.intents && i in db.payouts && db.payouts[i].state != PayoutSucceeded ==>
              RunStep(db, i, StepApplyPayoutResult, env) == StepRun(Abort(true), None)
  {
    if !HasFinalized(db.onchain, i) {
      forall d | d in db.onchain ensures !FinalizedFor(d, i) {
        var k :| 0 <= k < |db.onchain| && db.onchain[k] == d;
      }
    }
  }

  /** Nothing unbalanced commits, whatever the database and the step: the deferred trigger sees every
      entry the transaction added. */
  lemma CommitIsBalanced(db: DB, i: Id, step: Step, env: Env, k: nat)
    requires RunStep(db, i, step, env).outcome.Commit?
    requires |db.journal| <= k < |RunStep(db, i, step, env).outcome.db.journal|
    ensures Ledger.Balanced(RunStep(db, i, step, env).outcome.db.journal[k].lines)
  {
  }

  lemma UnknownStepIsFinal(db: DB, i: Id, name: string, env: Env)
    ensures RunStep(db, i, StepUnknown(name), env) == StepRun(Abort(true), None)
  {
  }

  // ---- What is recorded ----

  /** The action is one of worker `w`. */
  predicate ActsFor(a: Action, w: nat) {
    (a.Take? || a.Run? || a.Record? || a.Crash?) && a.worker == w
  }

  lemma OthersKeepClaim(s: Sys, a: Action, w: nat)
    requires Enabled(s, a) && !ActsFor(a, w)
    ensures w in Next(s, a).inflight <==> w in s.inflight
    ensures w in s.inflight ==> Next(s, a).inflight[w] == s.inflight[w]
    ensures Next(s, a).maxAttempts == s.maxAttempts
  {
    match a case Run(_, _, _) => case Record(_, _) => case _ =>
  }

  lemma {:induction false} ClaimWaits(states: seq<Sys>, acts: seq<Action>, n: nat, m: nat, w: nat)
    requires IsRun(states, acts) && n <= m < |states|
    requires forall k :: n <= k < m ==> !ActsFor(acts[k], w)
    ensures w in states[m].inflight <==> w in states[n].inflight
    ensures w in states[n].inflight ==> states[m].inflight[w] == states[n].inflight[w]
    ensures states[m].maxAttempts == states[n].maxAttempts
    decreases m
  {
    if n < m {
      ClaimWaits(states, acts, n, m - 1, w);
      assert ActsAt(states, acts, m - 1);
      OthersKeepClaim(states[m - 1], acts[m - 1], w);
    }
  }

  /** In any run: when a worker records the error of a step it ran, the saga fails exactly when the step
      failed for good or spent the last attempt, and is otherwise pending again at the retry time. */
  lemma RecordedExactly(states: seq<Sys>, acts: seq<Action>, n: nat, m: nat, w: nat)
    requires IsRun(states, acts) && n < m < |acts| && acts[n].Run? && acts[n].worker == w
    requires acts[m].Record? && acts[m].worker == w && forall k :: n < k < m ==> !ActsFor(acts[k], w)
    ensures w in states[n].inflight && states[n].inflight[w].intent in states[n].db.intents
    ensures var c, env := states[n].inflight[w], acts[n].env;
            var i, now := c.intent, states[m].now;
            var failed := FailsForGood(states[n].db, i, c.step, env) || c.attempts + 1 >= states[n].maxAttempts;
            && i in states[m].db.sagas && i in states[m + 1].db.sagas
            && var g, g' := states[m].db.sagas[i], states[m + 1].db.sagas[i];
               g' == if failed then g.(state := SagaFailed, leaseUntil := None)
                     else Saga(g.step, SagaPending, g.attempts + 1, now + acts[m].delay, None)
  {
    ErredAs(states, acts, n, m, w);
    assert ActsAt(states, acts, m);
    StaleWrites.RowAfterRecord(states[m], acts[m], states[n].inflight[w].intent);
  }

  /** A worker about to record has erred as its step ended. */
  lemma ErredAs(states: seq<Sys>, acts: seq<Action>, n: nat, m: nat, w: nat)
    requires IsRun(states, acts) && n < m < |acts| && acts[n].Run? && acts[n].worker == w
    requires acts[m].Record? && acts[m].worker == w && forall k :: n < k < m ==> !ActsFor(acts[k], w)
    ensures w in states[n].inflight && states[n].inflight[w].intent in states[n].db.intents
    ensures var c := states[n].inflight[w];
            && w in states[m].inflight && states[m].maxAttempts == states[n].maxAttempts
            && states[m].inflight[w] == c.(phase := Erred(FailsForGood(states[n].db, c.intent, c.step, acts[n].env)))
  {
    RanAt(states, acts, n, w);
    ClaimWaits(states, acts, n + 1, m, w);
    RecordNeedsClaim(states, acts, m, w);
  }

  lemma RecordNeedsClaim(states: seq<Sys>, acts: seq<Action>, m: nat, w: nat)
    requires IsRun(states, acts) && m < |acts| && acts[m].Record? && acts[m].worker == w
    ensures w in states[m].inflight
  {
    assert ActsAt(states, acts, m);
  }

  lemma RanAt(states: seq<Sys>, acts: seq<Action>, n: nat, w: nat)
    requires IsRun(states, acts) && n < |acts| && acts[n].Run? && acts[n].worker == w
    ensures w in states[n].inflight && states[n].inflight[w].intent in states[n].db.intents
    ensures var s, s', c := states[n], states[n + 1], states[n].inflight[w];
            && s'.maxAttempts == s.maxAttempts
            && (w in s'.inflight ==>
                  s'.inflight[w] == c.(phase := Erred(FailsForGood(s.db, c.intent, c.step, acts[n].env))))
  {
    Adversarial.Safe(states, acts, n);
    assert ActsAt(states, acts, n);
    RunEndsAs(states[n], w, acts[n].env, acts[n].reported);
  }

  lemma RunEndsAs(s: Sys, w: nat, env: Env, reported: bool)
    requires Inv(s) && Enabled(s, Run(w, env, reported))
    ensures s.inflight[w].intent in s.db.intents
    ensures var s', c := Next(s, Run(w, env, reported)), s.inflight[w];
            && s'.maxAttempts == s.maxAttempts
            && (w in s'.inflight ==> s'.inflight[w] == c.(phase := Erred(FailsForGood(s.db, c.intent, c.step, env))))
  {
    EndsExactly(s.db, s.inflight[w].intent, s.inflight[w].step, env);
    RunLeaves(s, w, env, reported);
  }

  lemma RunLeaves(s: Sys, w: nat, env: Env, reported: bool)
    requires Enabled(s, Run(w, env, reported))
    ensures var s', c := Next(s, Run(w, env, reported)), s.inflight[w];
            var out := RunStep(s.db, c.intent, c.step, env).outcome;
            && s'.maxAttempts == s.maxAttempts
            && (w in s'.inflight ==> s'.inflight[w] == c.(phase := Erred(out == Abort(true))))
            && (w !in s'.inflight <==> out.Commit? && reported)
  {
  }
}
