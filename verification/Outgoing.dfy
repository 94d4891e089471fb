/** What leaves the system is true: every call to the bank is for an intent whose deposit is on the
    books and for the amount its merchant asked for, and every announcement describes a completed
    intent as it stands. */
module Outgoing {
  import opened Options
  import opened Schema
  import opened Steps
  import opened Protocol
  import opened Safety
  import Adversarial
  import Backoff
  import Outbox
  import Outcomes
  import StaleWrites
  import Timely

  ghost predicate SubmissionOk(db: DB, s: Submission) {
    && s.intent in db.intents && s.amountIdr == db.intents[s.intent].amountIdr
    && 1 <= Rank(db.intents[s.intent].state) && HasEntry(db.journal, CreditDepositRef(s.intent))
  }

  ghost predicate AnnouncementOk(db: DB, row: Outbox.Row<CompletedEvent>) {
    && row.topic == COMPLETED_TOPIC && row.aggregate.Some? && row.aggregate.value in db.intents
    && var i := row.aggregate.value;
       var t := db.intents[i];
       t.state == Completed && row.payload == CompletedEvent(i, t.merchant, Completed, t.amountIdr, t.quotedUsdc)
  }

  ghost predicate Truthful(s: Sys) {
    && (forall k {:trigger SubmissionOk(s.db, s.rail[k].submission)} :: 0 <= k < |s.rail| ==>
      SubmissionOk(s.db, s.rail[k].submission))
    && (forall k {:trigger AnnouncementOk(s.db, s.db.outbox[k])} :: 0 <= k < |s.db.outbox| ==>
      AnnouncementOk(s.db, s.db.outbox[k]))
  }

  lemma SubmissionGrows(db: DB, db': DB, s: Submission)
    requires SubmissionOk(db, s) && Grows(db, db')
    ensures SubmissionOk(db', s)
  {
    HasEntryGrows(db.journal, db'.journal, CreditDepositRef(s.intent));
  }

  /** A state that keeps what was true and adds only truths. */
  lemma TruthfulGrows(s: Sys, s': Sys)
    requires Truthful(s) && IntentsOk(s.db) && IntentsOk(s'.db) && Grows(s.db, s'.db) && s.rail <= s'.rail
    requires forall k {:trigger SubmissionOk(s'.db, s'.rail[k].submission)} :: |s.rail| <= k < |s'.rail| ==>
               SubmissionOk(s'.db, s'.rail[k].submission)
    requires forall k {:trigger AnnouncementOk(s'.db, s'.db.outbox[k])} ::
               |s.db.outbox| <= k < |s'.db.outbox| ==> AnnouncementOk(s'.db, s'.db.outbox[k])
    ensures Truthful(s')
  {
    forall k | 0 <= k < |s'.rail| ensures SubmissionOk(s'.db, s'.rail[k].submission) {
      if k < |s.rail| {
        assert SubmissionOk(s.db, s.rail[k].submission);
        SubmissionGrows(s.db, s'.db, s.rail[k].submission);
      }
    }
    forall k | 0 <= k < |s'.db.outbox| ensures AnnouncementOk(s'.db, s'.db.outbox[k]) {
      if k < |s.db.outbox| {
        assert AnnouncementOk(s.db, s.db.outbox[k]);
        assert IntentOk(s'.db, s.db.outbox[k].aggregate.value);
      }
    }
  }

  /** A reached step calls the bank for what is owed and announces what it completed. */
  ghost predicate StepTruthful(db: DB, i: Id, run: StepRun) {
    && (run.call.Some? ==> SubmissionOk(db, run.call.value))
    && (run.outcome.Commit? ==>
          run.outcome.db.outbox == db.outbox
          || (&& |run.outcome.db.outbox| == |db.outbox| + 1
              && AnnouncementOk(run.outcome.db, run.outcome.db.outbox[|db.outbox|])))
  }

  lemma TriggerTruthful(db: DB, i: Id, env: Env)
    requires PayoutsOk(db) && Reached(db, i, StepTriggerPayout)
    ensures StepTruthful(db, i, TriggerPayout(db, i, env))
  {
    if TriggerPayout(db, i, env).outcome.Commit? { TriggerShape(db, i, env); }
  }

  lemma EmitTruthful(db: DB, i: Id, env: Env)
    requires Reached(db, i, StepEmitCompleted) && EmitCompleted(db, i, env).Commit?
    ensures StepTruthful(db, i, StepRun(EmitCompleted(db, i, env), None))
  {
  }

  lemma ExecuteTruthful(db: DB, i: Id, step: Step, env: Env)
    requires PayoutsOk(db) && Reached(db, i, step)
    ensures StepTruthful(db, i, Execute(db, i, step, env))
  {
    match step
    case StepTriggerPayout => TriggerTruthful(db, i, env);
    case StepCreditDeposit => if CreditDeposit(db, i, env).Commit? { CreditShape(db, i, env); }
    case StepApplyPayoutResult => if ApplyPayoutResult(db, i, env).Commit? { ApplyShape(db, i, env); }
    case StepEmitCompleted => if EmitCompleted(db, i, env).Commit? { EmitTruthful(db, i, env); }
  }

  lemma RunTruthful(db: DB, i: Id, step: Step, env: Env)
    requires PayoutsOk(db) && Reached(db, i, step)
    ensures StepTruthful(db, i, RunStep(db, i, step, env))
  {
    ExecuteTruthful(db, i, step, env);
    var run, run' := Execute(db, i, step, env), RunStep(db, i, step, env);
    assert run'.call == run.call;
    if run'.outcome.Commit? { assert run'.outcome.db == run.outcome.db.(sagas := run'.outcome.db.sagas); }
  }

  lemma AfterStepTruthful(s: Sys, w: nat, run: StepRun, reported: bool)
    requires Truthful(s) && w in s.inflight && StepTruthful(s.db, s.inflight[w].intent, run) && IntentsOk(s.db)
    requires var s' := AfterStep(s, w, run, reported); Grows(s.db, s'.db) && IntentsOk(s'.db)
    ensures Truthful(AfterStep(s, w, run, reported))
  {
    var s' := AfterStep(s, w, run, reported);
    if run.call.Some? { SubmissionGrows(s.db, s'.db, run.call.value); }
    TruthfulGrows(s, s');
  }

  lemma QuietTruth(s: Sys, a: Action)
    requires Enabled(s, a) && !a.Run?
    ensures Next(s, a).rail == s.rail && |Next(s, a).db.outbox| == |s.db.outbox|
  {
    match a
    case Dispatch(batch, cfg) => Adversarial.DispatchContent(s, batch, cfg);
    case Observe(_, _, _, _) =>
    case Record(_, _) =>
    case _ =>
  }

  lemma TruthStep(s: Sys, a: Action)
    requires Inv(s) && Truthful(s) && Enabled(s, a)
    ensures Truthful(Next(s, a))
  {
    Adversarial.InvStep(s, a);
    if a.Run? {
      var c := s.inflight[a.worker];
      RunTruthful(s.db, c.intent, c.step, a.env);
      AfterStepTruthful(s, a.worker, RunStep(s.db, c.intent, c.step, a.env), a.reported);
    } else {
      QuietTruth(s, a);
      TruthfulGrows(s, Next(s, a));
    }
  }

  /** In every state of every run, stale workers and lost commits included. */
  lemma {:induction false} AlwaysTruthful(states: seq<Sys>, acts: seq<Action>, n: nat)
    requires IsRun(states, acts) && n < |states|
    ensures Truthful(states[n])
  {
    if n > 0 {
      AlwaysTruthful(states, acts, n - 1);
      Adversarial.Safe(states, acts, n - 1);
      assert ActsAt(states, acts, n - 1);
      TruthStep(states[n - 1], acts[n - 1]);
    }
  }

  // ---- The outbox inside the protocol is the outbox of the dispatcher's own runs ----

  function Mail(s: Sys): Outbox.State<CompletedEvent> { Outbox.State(s.db.outbox, s.sends) }

  /** One action of the outbox's own machine, or none. */
  ghost predicate MailMoves(m: Outbox.State<CompletedEvent>, m': Outbox.State<CompletedEvent>) {
    m' == m
    || exists b: Outbox.Action<CompletedEvent>, cfg: Outbox.Config ::
         Outbox.Enabled(m, b, cfg) && m' == Outbox.Next(m, b, cfg)
  }

  lemma EmitPublishes(db: DB, i: Id, env: Env, sends: seq<Outbox.Event>)
    requires EmitCompleted(db, i, env).Commit?
    ensures MailMoves(Outbox.State(db.outbox, sends), Outbox.State(EmitCompleted(db, i, env).db.outbox, sends))
  {
    var rows := EmitCompleted(db, i, env).db.outbox;
    var row, m := rows[|db.outbox|], Outbox.State(db.outbox, sends);
    var b := Outbox.Published(COMPLETED_TOPIC, Some(i), row.payload, true, env.now);
    var cfg := Outbox.Config(COMPLETED_TOPIC, 1, 1, Backoff.Policy(1, 1));
    assert Outbox.Enabled(m, b, cfg) && Outbox.State(rows, sends) == Outbox.Next(m, b, cfg);
  }

  lemma RunMails(db: DB, i: Id, step: Step, env: Env, sends: seq<Outbox.Event>)
    requires PayoutsOk(db) && RunStep(db, i, step, env).outcome.Commit?
    ensures MailMoves(Outbox.State(db.outbox, sends), Outbox.State(RunStep(db, i, step, env).outcome.db.outbox, sends))
  {
    Timely.SagaShape(db, i, step, env);
    if step == StepEmitCompleted { EmitPublishes(db, i, env, sends); }
  }

  lemma MailStep(s: Sys, a: Action)
    requires Inv(s) && Enabled(s, a)
    ensures MailMoves(Mail(s), Mail(Next(s, a)))
  {
    match a
    case Run(w, env, _) =>
      var c := s.inflight[w];
      if RunStep(s.db, c.intent, c.step, env).outcome.Commit? { RunMails(s.db, c.intent, c.step, env, s.sends); }
    case Dispatch(b, cfg) => assert Outbox.Enabled(Mail(s), b, cfg) && Mail(Next(s, a)) == Outbox.Next(Mail(s), b, cfg);
    case Observe(_, _, _, _) =>
    case _ =>
  }

  /** Over every protocol run, drained by any dispatchers: an announcement's attempts are its
      committed failed sends, and it is delivered exactly when one committed send succeeded. */
  lemma {:induction false} DeliveryAccounted(states: seq<Sys>, acts: seq<Action>, n: nat)
    requires IsRun(states, acts) && n < |states|
    ensures Outbox.Accounted(states[n].db.outbox, states[n].sends)
  {
    if n > 0 {
      DeliveryAccounted(states, acts, n - 1);
      MailAt(states, acts, n - 1);
      var m, m' := Mail(states[n - 1]), Mail(states[n]);
      if m' != m {
        var b, cfg :| Outbox.Enabled(m, b, cfg) && m' == Outbox.Next(m, b, cfg);
        Outbox.StepAccounted(m, b, cfg);
      }
    }
  }

  /** ... and no announcement is lost, altered, or sent again once delivered. */
  lemma {:induction false} MailIsKept(states: seq<Sys>, acts: seq<Action>, m: nat, n: nat)
    requires IsRun(states, acts) && m <= n < |states|
    ensures Outbox.Carries(Mail(states[m]), Mail(states[n]))
    decreases n
  {
    if m < n {
      MailIsKept(states, acts, m, n - 1);
      MailAt(states, acts, n - 1);
      var before, after := Mail(states[n - 1]), Mail(states[n]);
      if after != before {
        var b, cfg :| Outbox.Enabled(before, b, cfg) && after == Outbox.Next(before, b, cfg);
        Outbox.StepCarries(before, b, cfg);
      }
    }
  }

  lemma MailAt(states: seq<Sys>, acts: seq<Action>, n: nat)
    requires IsRun(states, acts) && n < |acts|
    ensures MailMoves(Mail(states[n]), Mail(states[n + 1]))
  {
    Adversarial.Safe(states, acts, n);
    assert ActsAt(states, acts, n);
    MailStep(states[n], acts[n]);
  }

  /** A committed emit_completed leaves an announcement that a dispatcher of its topic can claim at once,
      and whose send it then makes. */
  lemma AnnouncedIsClaimable(states: seq<Sys>, acts: seq<Action>, n: nat, i: Id, cfg: Outbox.Config, env: Outbox.Env)
    requires IsRun(states, acts) && n < |acts| && StaleWrites.EmitsAt(states[n], acts[n], i)
    requires cfg.topic == "intent.completed" && env.at(|states[n].db.outbox|) >= states[n].now
    ensures var s, k := states[n + 1], |states[n].db.outbox|;
            var batch: Outbox.Action<CompletedEvent> := Outbox.Drain(s.now, [k], env, 1, true);
            && k < |s.db.outbox| && s.db.outbox[k].aggregate == Some(i) && s.db.outbox[k].attempts == 0
            && CanDispatch(s, batch, cfg)
            && Dispatched(s, batch, cfg).log == s.sends + [Outbox.Event(k, env.sent(k), true)]
  {
    Adversarial.Safe(states, acts, n);
    assert ActsAt(states, acts, n);
    var s, s' := states[n], states[n + 1];
    EmittedRow(s.db, i, acts[n].env);
    assert s'.db == RunStep(s.db, i, StepEmitCompleted, acts[n].env).outcome.db && s'.now == s.now;
    Outbox.DrainsOne(Mail(states[n + 1]), cfg, env, s.now, |s.db.outbox|);
  }

  lemma EmittedRow(db: DB, i: Id, env: Env)
    requires RunStep(db, i, StepEmitCompleted, env).outcome.Commit?
    ensures var rows := RunStep(db, i, StepEmitCompleted, env).outcome.db.outbox;
            && |rows| == |db.outbox| + 1
            && var r := rows[|db.outbox|];
               && r.topic == "intent.completed" && r.aggregate == Some(i) && r.headersOk
               && r.attempts == 0 && r.deliveredAt.None? && r.nextAttemptAt == env.now
  {
    var out := EmitCompleted(db, i, env);
    assert RunStep(db, i, StepEmitCompleted, env).outcome.db.outbox == out.db.outbox;
  }

  /** No bank call is made for a merchant without bank details. */
  lemma CallsNeedBankDetails(db: DB, i: Id, step: Step, env: Env)
    requires RunStep(db, i, step, env).call.Some?
    ensures step == StepTriggerPayout && i in db.intents && db.intents[i].merchant in db.merchants
    ensures Outcomes.CanBePaid(db.merchants[db.intents[i].merchant])
  {
    if i in db.intents && db.intents[i].merchant in db.merchants {
      Outcomes.BankDetailsExactly(db.merchants[db.intents[i].merchant]);
    }
    var call := Execute(db, i, step, env).call;
    assert call == RunStep(db, i, step, env).call;
  }
}
