/** The saga runner over mutable tables: claim, execute a step in a transaction, record the error.
    A Tick is proved to be a stretch of a protocol run, so every safety result covers it. */
module Worker {
  import opened MachineInts
  import opened Options
  import opened Schema
  import opened Steps
  import opened Protocol
  import opened Tables
  import Backoff

  datatype StepResult = Advance(next: Step) | Finished | StepError(terminal: bool)

  /** The result and the tables agree with the step as a transaction. After an error the tables may
      be half written. */
  ghost predicate Matches(out: Outcome, r: StepResult, after: DB) {
    match out
    case Commit(db, next) => after == db && r == if next.Some? then Advance(next.value) else Finished
    case Abort(terminal) => r == StepError(terminal)
  }

  class Runner {
    const db: Database
    const maxAttempts: int
    const lease: nat
    const backoff: Backoff.Policy
    var rail: seq<RailCall>

    constructor (db: Database, maxAttempts: int, lease: nat, backoff: Backoff.Policy)
      ensures this.db == db && this.maxAttempts == maxAttempts && this.lease == lease && this.backoff == backoff
      ensures rail == []
    {
      this.db, this.maxAttempts, this.lease, this.backoff, rail := db, maxAttempts, lease, backoff, [];
    }

    method CreditDeposit(i: Id, env: Env) returns (r: StepResult)
      modifies db
      ensures Matches(Steps.CreditDeposit(old(db.View()), i, env), r, db.View())
      ensures old(db.journal) <= db.journal
    {
      if env.early == QueryFails { return StepError(false); }
      if i !in db.intents { return StepError(true); }
      var deposit := db.GetFinalizedDeposit(i);
      if deposit.None? { return StepError(false); }
      if env.early == AccountLookupFails || HOT_WALLET !in db.accounts || USER_FUNDS !in db.accounts {
        return StepError(true);
      }
      var ok := db.Post(CreditEntry(i, deposit.value));
      if !ok { return StepError(false); }
      if db.intents[i].state == Pending { db.UpdatePaymentIntentState(i, Funded); }
      return Advance(StepTriggerPayout);
    }

    method AdvanceIntentToSettling(i: Id) returns (r: StepResult)
      requires i in db.intents
      modifies db
      ensures Matches(AdvanceToSettling(old(db.View()), i), r, db.View())
      ensures old(db.journal) <= db.journal
    {
      if db.intents[i].state == Funded { db.UpdatePaymentIntentState(i, Settling); }
      return Advance(StepApplyPayoutResult);
    }

    /** The rail is called from inside the transaction; the call itself cannot be rolled back. */
    method TriggerPayout(i: Id, env: Env) returns (r: StepResult, call: Option<Submission>)
      modifies db
      ensures Matches(Steps.TriggerPayout(old(db.View()), i, env).outcome, r, db.View())
      ensures old(db.journal) <= db.journal
      ensures call == Steps.TriggerPayout(old(db.View()), i, env).call
    {
      call := None;
      if env.early == QueryFails { return StepError(false), None; }
      if i !in db.intents { return StepError(true), None; }
      var intent := db.intents[i];
      if intent.merchant !in db.merchants { return StepError(false), None; }
      if !HasBankDetails(db.merchants[intent.merchant]) { return StepError(true), None; }
      var po := db.UpsertPayoutRow(i, env.payoutId, intent.amountIdr);
      if po.state == PayoutSucceeded {
        r := AdvanceIntentToSettling(i);
        return;
      }
      if po.state == PayoutFailed || !env.railKnown { return StepError(true), None; }
      db.MarkPayoutSubmitting(i);
      call := Some(Submission(po.id, i, po.amountIdr, env.landed));
      match env.reply {
        case RailError => r := StepError(false);
        case RailSuccess =>
          db.MarkPayout(i, PayoutSucceeded);
          r := AdvanceIntentToSettling(i);
        case RailRetry =>
          db.MarkPayout(i, PayoutPending);
          r := StepError(false);
        case RailPermanent =>
          if env.late { return StepError(false), call; }
          db.MarkPayout(i, PayoutFailed);
          db.UpdatePaymentIntentState(i, IntentFailed);
          r := StepError(true);
        case RailUnknown => r := StepError(true);
      }
    }

    method ApplyPayoutResult(i: Id, env: Env) returns (r: StepResult)
      modifies db
      ensures Matches(Steps.ApplyPayoutResult(old(db.View()), i, env), r, db.View())
      ensures old(db.journal) <= db.journal
    {
      if env.early == QueryFails || i !in db.intents { return StepError(false); }
      if i !in db.payouts || db.payouts[i].state != PayoutSucceeded { return StepError(true); }
      var intent, paid := db.intents[i], db.payouts[i].amountIdr;
      if intent.quote !in db.quotes { return StepError(false); }
      var mid := env.pricer.mid(intent.quotedUsdc, db.quotes[intent.quote]);
      if mid - paid < 0 { return StepError(true); }
      if env.early == AccountLookupFails || FX_SETTLEMENT !in db.accounts || USER_FUNDS !in db.accounts {
        return StepError(true);
      }
      var ok := db.Post(FxSwapEntry(i, intent.quotedUsdc));
      if !ok { return StepError(false); }
      if FX_EXPENSE !in db.accounts || CASH_OUT !in db.accounts || FX_REVENUE !in db.accounts {
        return StepError(true);
      }
      ok := db.Post(DisbursedEntry(i, mid, paid));
      if !ok { return StepError(false); }
      if db.intents[i].state == Settling { db.UpdatePaymentIntentState(i, PaidOut); }
      return Advance(StepEmitCompleted);
    }

    method EmitCompleted(i: Id, env: Env) returns (r: StepResult)
      modifies db
      ensures Matches(Steps.EmitCompleted(old(db.View()), i, env), r, db.View())
      ensures old(db.journal) <= db.journal
    {
      if env.early == QueryFails || i !in db.intents { return StepError(false); }
      if db.intents[i].state == PaidOut { db.UpdatePaymentIntentState(i, Completed); }
      var updated := db.intents[i];
      var event := CompletedEvent(i, updated.merchant, updated.state, updated.amountIdr, updated.quotedUsdc);
      var ok := db.PublishOutbox(COMPLETED_TOPIC, Some(i), event, env.now);
      return if ok then Finished else StepError(false);
    }

    method Dispatch(i: Id, step: Step, env: Env) returns (r: StepResult, call: Option<Submission>)
      modifies db
      ensures Matches(Execute(old(db.View()), i, step, env).outcome, r, db.View())
      ensures old(db.journal) <= db.journal
      ensures call == Execute(old(db.View()), i, step, env).call
    {
      call := None;
      match step {
        case StepCreditDeposit => r := CreditDeposit(i, env);
        case StepTriggerPayout => r, call := TriggerPayout(i, env);
        case StepApplyPayoutResult => r := ApplyPayoutResult(i, env);
        case StepEmitCompleted => r := EmitCompleted(i, env);
        case StepUnknown(_) => r := StepError(true);
      }
    }

    /** The step's writes, then the saga row's, then the deferred trigger. */
    method WriteAndCheck(i: Id, step: Step, env: Env) returns (r: StepResult, call: Option<Submission>)
      modifies db
      ensures Matches(RunStep(old(db.View()), i, step, env).outcome, r, db.View())
      ensures call == RunStep(old(db.View()), i, step, env).call
    {
      var entries := |db.journal|;
      ghost var before, run := db.View(), Execute(db.View(), i, step, env);
      r, call := Dispatch(i, step, env);
      r := Close(i, r, entries, env, before, run);
    }

    /** The saga row's write and the deferred trigger. */
    method Close(i: Id, result: StepResult, entries: nat, env: Env, ghost before: DB, ghost run: StepRun)
      returns (r: StepResult)
      requires Matches(run.outcome, result, db.View()) && entries == |before.journal| <= |db.journal|
      modifies db
      ensures Matches(Closed(before, run, i, env).outcome, r, db.View())
    {
      r := result;
      if r.StepError? { return; }
      if i !in db.sagas || env.late { return StepError(false); }
      if r.Finished? { db.CompleteSagaRun(i); } else { db.AdvanceSagaStep(i, r.next, env.now); }
      var balanced := db.CheckDeferred(entries);
      if !balanced { return StepError(false); }
    }

    /** One transaction: whatever error occurs, the tables are as they were. */
    method ExecuteStep(i: Id, step: Step, env: Env) returns (r: StepResult)
      modifies db, this`rail
      ensures var run := RunStep(old(db.View()), i, step, env);
              && Matches(run.outcome, r, db.View())
              && (run.outcome.Abort? ==> db.View() == old(db.View()))
              && rail == old(rail) + if run.call.Some? then [RailCall(run.call.value, run.outcome.Commit?)] else []
    {
      var snapshot := db.View();
      ghost var run := RunStep(snapshot, i, step, env);
      var call;
      r, call := WriteAndCheck(i, step, env);
      assert Matches(run.outcome, r, db.View()) && call == run.call;
      if r.StepError? { db.Rollback(snapshot); }
      if call.Some? { rail := rail + [RailCall(call.value, !r.StepError?)]; }
    }

    /** failRun or scheduleRetry; either update may fail and is then only logged. */
    method RecordFailure(i: Id, attempts: int, terminal: bool, fails: bool, at: Time, random: nat)
      requires i in db.sagas
      modifies db`sagas
      ensures var c := Claim(i, StepCreditDeposit, attempts, 0, Erred(terminal));
              db.View() == Recorded(old(db.View()), c, RecordAt(backoff, attempts, fails, at, random), maxAttempts)
      ensures !fails && (terminal || attempts + 1 >= maxAttempts) ==> db.sagas[i].state == SagaFailed
      ensures !fails && !terminal && attempts + 1 < maxAttempts ==>
                && db.sagas[i].state == SagaPending && db.sagas[i].attempts == old(db.sagas)[i].attempts + 1
                && (Backoff.Sound(backoff) && 0 <= attempts ==>
                      && var window := Backoff.Min(backoff.base * Pow(2, attempts + 1), backoff.max);
                         0 < window && db.sagas[i].nextRunAt == at + random % window)
    {
      if Backoff.Sound(backoff) && 0 <= attempts { Backoff.DrawInWindow(backoff, attempts + 1, random); }
      if fails { return; }
      if terminal || attempts + 1 >= maxAttempts {
        db.FailSagaRun(i);
      } else {
        var delay := Backoff.Delay(backoff, attempts + 1, random);
        db.ScheduleSagaRetry(i, at + delay);
      }
    }

    /** At most one step of one saga. `now` is the claim's clock, `env.now` the step's, `at` the
        retry's; `reported` is whether a commit that landed is reported as such. A claim that fails
        is the only error a Tick returns. */
    method Tick(now: Time, env: Env, claimFails: bool, reported: bool, recordFails: bool, at: Time, random: nat)
      returns (worked: Option<Id>, failed: bool)
      modifies db, this`rail
      ensures failed <==> claimFails
      ensures worked.None? ==> db.View() == old(db.View()) && rail == old(rail)
      ensures worked.None? <==> claimFails || forall i :: i in old(db.sagas) ==> !Due(old(db.sagas)[i], now)
      ensures worked.Some? ==>
                && worked.value in old(db.sagas) && Due(old(db.sagas)[worked.value], now)
                && var record := RecordAt(backoff, old(db.sagas)[worked.value].attempts, recordFails, at, random);
                   var t := Ticked(old(db.View()), worked.value, now + lease, env, reported, record, maxAttempts);
                   db.View() == t.db && rail == old(rail) + t.calls
    {
      ghost var before := db.View();
      if claimFails { return None, true; }
      failed := false;
      worked := db.ClaimDueSagaRun(now, lease);
      if worked.None? { return; }
      var i := worked.value;
      assert db.View() == ClaimSaga(before, i, now + lease);
      var step, attempts := db.sagas[i].step, db.sagas[i].attempts;
      assert step == before.sagas[i].step && attempts == before.sagas[i].attempts;
      RunClaimed(i, step, attempts, now + lease, env, reported, recordFails, at, random);
    }

    /** The rest of a Tick, from the saga row as it was claimed. */
    method RunClaimed(i: Id, step: Step, attempts: int, ghost leaseUntil: Time, env: Env, reported: bool,
                      recordFails: bool, at: Time, random: nat)
      requires i in db.sagas
      modifies db, this`rail
      ensures var c, run := Claim(i, step, attempts, leaseUntil, Claimed), RunStep(old(db.View()), i, step, env);
              var record := RecordAt(backoff, attempts, recordFails, at, random);
              var t := Concluded(old(db.View()), c, run, reported, record, maxAttempts);
              db.View() == t.db && rail == old(rail) + t.calls
    {
      if step.StepUnknown? {
        RecordFailure(i, attempts, true, recordFails, at, random);
        return;
      }
      ghost var before, run := db.View(), RunStep(db.View(), i, step, env);
      SagaKept(before, i, step, env);
      var r := ExecuteStep(i, step, env);
      ghost var c := Claim(i, step, attempts, leaseUntil, Claimed);
      Settle(i, attempts, r, reported, recordFails, at, random, before, c, run);
    }

    /** After the step: nothing on a reported success, else the record of its error. */
    method Settle(i: Id, attempts: int, r: StepResult, reported: bool, recordFails: bool, at: Time, random: nat,
                  ghost before: DB, ghost c: Claim, ghost run: StepRun)
      requires i in db.sagas && c.intent == i && c.attempts == attempts
      requires Matches(run.outcome, r, db.View()) && (run.outcome.Abort? ==> db.View() == before)
      modifies db`sagas
      ensures var record := RecordAt(backoff, attempts, recordFails, at, random);
              db.View() == Concluded(before, c, run, reported, record, maxAttempts).db
    {
      if !r.StepError? && reported { return; }
      RecordFailure(i, attempts, r.StepError? && r.terminal, recordFails, at, random);
    }
  }

  /** When a retry is scheduled for; None when the update fails. */
  function RecordAt(p: Backoff.Policy, attempts: int, fails: bool, at: Time, random: nat): Option<Time> {
    if fails then None else Some(RetryAt(p, attempts, at, random))
  }

  function RetryAt(p: Backoff.Policy, attempts: int, at: Time, random: nat): Time {
    at + if Backoff.Window(p, attempts + 1) == 0 then 0 else Backoff.Draw(random, Backoff.Window(p, attempts + 1))
  }

  lemma SagaKept(db: DB, i: Id, step: Step, env: Env)
    requires i in db.sagas
    ensures RunStep(db, i, step, env).outcome.Commit? ==> i in RunStep(db, i, step, env).outcome.db.sagas
  {
  }

  // ---- A Tick is a stretch of a protocol run ----

  datatype TickEffect = TickEffect(db: DB, calls: seq<RailCall>)

  ghost function Recorded(db: DB, c: Claim, record: Option<Time>, maxAttempts: int): DB
    requires c.phase.Erred?
  {
    if record.None? || c.intent !in db.sagas then db else RecordError(db, c, maxAttempts, record.value)
  }

  /** What follows a claim `c` and the run of its step; `record` is the retry time, None when that
      update fails. */
  ghost function Concluded(db: DB, c: Claim, run: StepRun, reported: bool, record: Option<Time>,
                           maxAttempts: int): TickEffect {
    var calls := if run.call.Some? then [RailCall(run.call.value, run.outcome.Commit?)] else [];
    match run.outcome
    case Commit(db2, _) =>
      TickEffect(if reported then db2 else Recorded(db2, c.(phase := Erred(false)), record, maxAttempts), calls)
    case Abort(terminal) => TickEffect(Recorded(db, c.(phase := Erred(terminal)), record, maxAttempts), calls)
  }

  ghost function Ticked(db: DB, i: Id, leaseUntil: Time, env: Env, reported: bool, record: Option<Time>,
                        maxAttempts: int): TickEffect
    requires i in db.sagas
  {
    var db1, c := ClaimSaga(db, i, leaseUntil), Claim(i, db.sagas[i].step, db.sagas[i].attempts, leaseUntil, Claimed);
    Concluded(db1, c, RunStep(db1, i, c.step, env), reported, record, maxAttempts)
  }

  /** What a Tick does to the tables and the rail is what the protocol's actions do: the claim, the
      passing of time, the step, and the record of its error or, if that is lost, a crash. */
  lemma TickIsStretch(s: Sys, w: nat, i: Id, lease: nat, wait: nat, env: Env, reported: bool, pause: nat,
                      delay: Option<nat>)
    returns (states: seq<Sys>, acts: seq<Action>)
    requires Enabled(s, Take(w, i, lease))
    requires env.now == s.now + wait && env.pricer == s.pricer && FreshPayoutId(s, env.payoutId)
    requires env.reply == RailSuccess ==> env.landed
    ensures IsStretch(states, acts) && states[0] == s
    ensures var record := if delay.None? then None else Some(s.now + wait + pause + delay.value);
            var t, last := Ticked(s.db, i, s.now + lease, env, reported, record, s.maxAttempts), states[|acts|];
            last.db == t.db && last.rail == s.rail + t.calls && last.inflight == s.inflight
  {
    var s2 := Took(s, w, i, lease, wait);
    var c := s2.inflight[w];
    assert s2.db == ClaimSaga(s.db, i, s.now + lease)
      && c == Claim(i, s.db.sagas[i].step, s.db.sagas[i].attempts, s.now + lease, Claimed);
    var run := RunStep(s2.db, i, c.step, env);
    states, acts := ThreeActions(s, w, i, lease, wait, env, reported);
    assert s2.inflight - {w} == s.inflight;
    states, acts := Conclude(states, acts, s, s2, w, run, reported, pause, delay);
    var record := if delay.None? then None else Some(s.now + wait + pause + delay.value);
    assert Ticked(s.db, i, s.now + lease, env, reported, record, s.maxAttempts)
      == Concluded(s2.db, c, run, reported, record, s2.maxAttempts);
  }

  /** The system when the step begins. */
  ghost function Took(s: Sys, w: nat, i: Id, lease: nat, wait: nat): Sys
    requires i in s.db.sagas
  {
    s.(db := ClaimSaga(s.db, i, s.now + lease), now := s.now + wait,
       inflight := s.inflight[w := Claim(i, s.db.sagas[i].step, s.db.sagas[i].attempts, s.now + lease, Claimed)])
  }

  lemma ThreeActions(s: Sys, w: nat, i: Id, lease: nat, wait: nat, env: Env, reported: bool)
    returns (states: seq<Sys>, acts: seq<Action>)
    requires Enabled(s, Take(w, i, lease))
    requires env.now == s.now + wait && env.pricer == s.pricer && FreshPayoutId(s, env.payoutId)
    requires env.reply == RailSuccess ==> env.landed
    ensures IsStretch(states, acts) && states[0] == s
    ensures var s2 := Took(s, w, i, lease, wait);
            states[|acts|] == AfterStep(s2, w, RunStep(s2.db, i, s2.inflight[w].step, env), reported)
  {
    var s1 := Next(s, Take(w, i, lease));
    var s2 := Next(s1, Elapse(wait));
    assert s2 == Took(s, w, i, lease, wait) && Enabled(s2, Run(w, env, reported));
    StretchSnoc([s], [], Take(w, i, lease));
    StretchSnoc([s] + [s1], [] + [Take(w, i, lease)], Elapse(wait));
    states, acts := [s] + [s1] + [s2], [] + [Take(w, i, lease)] + [Elapse(wait)];
    StretchSnoc(states, acts, Run(w, env, reported));
    states, acts := states + [Next(s2, Run(w, env, reported))], acts + [Run(w, env, reported)];
  }

  lemma Conclude(states: seq<Sys>, acts: seq<Action>, s: Sys, s2: Sys, w: nat, run: StepRun, reported: bool,
                 pause: nat, delay: Option<nat>)
    returns (states': seq<Sys>, acts': seq<Action>)
    requires IsStretch(states, acts) && states[0] == s && w in s2.inflight
    requires states[|acts|] == AfterStep(s2, w, run, reported) && s2.inflight - {w} == s.inflight && s2.rail == s.rail
    ensures IsStretch(states', acts') && states'[0] == s
    ensures var record := if delay.None? then None else Some(s2.now + pause + delay.value);
            var t, end := Concluded(s2.db, s2.inflight[w], run, reported, record, s2.maxAttempts), states'[|acts'|];
            end.db == t.db && end.rail == s.rail + t.calls && end.inflight == s.inflight
  {
    states', acts' := states, acts;
    if run.outcome.Abort? || !reported {
      assert states[|acts|].inflight - {w} == s2.inflight - {w};
      states', acts' := EndStretch(states, acts, s, w, pause, delay);
    }
  }

  lemma EndStretch(states: seq<Sys>, acts: seq<Action>, s: Sys, w: nat, pause: nat, delay: Option<nat>)
    returns (states': seq<Sys>, acts': seq<Action>)
    requires IsStretch(states, acts) && states[0] == s
    requires var last := states[|acts|];
             w in last.inflight && last.inflight[w].phase.Erred? && last.inflight - {w} == s.inflight
    ensures IsStretch(states', acts') && states'[0] == s
    ensures var last, end := states[|acts|], states'[|acts'|];
            var record := if delay.None? then None else Some(last.now + pause + delay.value);
            && end.rail == last.rail && end.inflight == s.inflight
            && end.db == Recorded(last.db, last.inflight[w], record, last.maxAttempts)
  {
    var last := states[|acts|];
    StretchSnoc(states, acts, Elapse(pause));
    states', acts' := states + [Next(last, Elapse(pause))], acts + [Elapse(pause)];
    var s4 := states'[|acts'|];
    var a := if delay.Some? && s4.inflight[w].intent in s4.db.sagas then Record(w, delay.value) else Crash(w);
    StretchSnoc(states', acts', a);
    states', acts' := states' + [Next(s4, a)], acts' + [a];
  }
}
