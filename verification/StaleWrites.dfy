/** What a late write can do to a saga row, exactly, in any run: the updates filter on the id only, so
    a worker that outlived its lease, or whose commit was reported as an error, still writes. */
module StaleWrites {
  import opened Options
  import opened Schema
  import opened Steps
  import opened Protocol
  import opened Safety
  import opened Timely
  import Adversarial
  import Guarantees

  /** The action is a step of saga `i` that commits. */
  ghost predicate CommitsFor(s: Sys, a: Action, i: Id) {
    && a.Run? && a.worker in s.inflight && s.inflight[a.worker].intent == i
    && RunStep(s.db, i, s.inflight[a.worker].step, a.env).outcome.Commit?
  }

  /** ... from a claim more than one step behind the row. */
  ghost predicate MovesBack(s: Sys, a: Action, i: Id)
    requires i in s.db.sagas
  {
    && CommitsFor(s, a, i)
    && var step := s.inflight[a.worker].step;
       step != StepEmitCompleted && StepIndex(step) + 1 < StepIndex(s.db.sagas[i].step)
  }

  /** The action records an error of saga `i` that ends it for good. */
  ghost predicate Fails(s: Sys, a: Action, i: Id)
    requires a.Record? && a.worker in s.inflight && s.inflight[a.worker].phase.Erred?
  {
    s.inflight[a.worker].phase.terminal || s.inflight[a.worker].attempts + 1 >= s.maxAttempts
  }

  /** The action changes the row of saga `i` although it is completed or failed: a late commit, unless
      it completes a completed saga again, or a late error, unless it fails a failed one again. */
  ghost predicate Overwrites(s: Sys, a: Action, i: Id)
    requires i in s.db.sagas
  {
    || (CommitsFor(s, a, i) && (s.inflight[a.worker].step != StepEmitCompleted || s.db.sagas[i].state == SagaFailed))
    || (&& a.Record? && a.worker in s.inflight && s.inflight[a.worker].intent == i && s.inflight[a.worker].phase.Erred?
        && !(Fails(s, a, i) && s.db.sagas[i].state == SagaFailed))
  }

  // ---- One action ----

  /** The row a committed step leaves. */
  lemma RowAfterCommit(s: Sys, a: Action, i: Id)
    requires Inv(s) && Enabled(s, a) && i in s.db.sagas && CommitsFor(s, a, i)
    ensures i in Next(s, a).db.sagas
    ensures Next(s, a).db.sagas[i] == After(s.db.sagas[i], s.inflight[a.worker].step, s.now)
    ensures !s.inflight[a.worker].step.StepUnknown?
  {
    SagaShape(s.db, i, s.inflight[a.worker].step, a.env);
  }

  lemma RowAfterRecord(s: Sys, a: Action, i: Id)
    requires Enabled(s, a) && a.Record? && s.inflight[a.worker].intent == i
    ensures i in s.db.sagas && i in Next(s, a).db.sagas
    ensures Next(s, a).db.sagas[i].step == s.db.sagas[i].step
    ensures Fails(s, a, i) ==> Next(s, a).db.sagas[i] == s.db.sagas[i].(state := SagaFailed, leaseUntil := None)
    ensures !Fails(s, a, i) ==> Next(s, a).db.sagas[i].attempts == s.db.sagas[i].attempts + 1
    ensures !Fails(s, a, i) ==> Next(s, a).db.sagas[i].state == SagaPending
    ensures !Fails(s, a, i) ==> Next(s, a).db.sagas[i].nextRunAt == s.now + a.delay
    ensures Next(s, a).db.sagas[i].leaseUntil == None
  {
  }

  /** Any other action leaves the row alone, or claims it when it is due. */
  lemma RowOtherwise(s: Sys, a: Action, i: Id)
    requires Inv(s) && Enabled(s, a) && i in s.db.sagas && !CommitsFor(s, a, i)
    requires a.Record? ==> s.inflight[a.worker].intent != i
    ensures i in Next(s, a).db.sagas && Next(s, a).db.sagas[i].step == s.db.sagas[i].step
    ensures var g, g' := s.db.sagas[i], Next(s, a).db.sagas[i];
            if a.Take? && a.intentId == i
            then Due(g, s.now) && g' == g.(state := SagaRunning, leaseUntil := Some(s.now + a.lease))
            else g' == g
  {
    match a
    case Run(w, env, _) =>
      var c := s.inflight[w];
      if RunStep(s.db, c.intent, c.step, env).outcome.Commit? { SagaShape(s.db, c.intent, c.step, env); }
    case Record(w, delay) => Adversarial.RecordWrites(s.db, s.inflight[w], s.maxAttempts, s.now + delay);
    case Take(_, _, _) =>
    case _ => OtherActions(s, a);
  }

  /** current_step goes back exactly when a step commits from a claim more than one step behind. */
  lemma StepBackExactly(s: Sys, a: Action, i: Id)
    requires Inv(s) && Enabled(s, a) && i in s.db.sagas
    ensures i in Next(s, a).db.sagas
    ensures StepIndex(Next(s, a).db.sagas[i].step) < StepIndex(s.db.sagas[i].step) <==> MovesBack(s, a, i)
  {
    if CommitsFor(s, a, i) {
      RowAfterCommit(s, a, i);
    } else if a.Record? && s.inflight[a.worker].intent == i {
      RowAfterRecord(s, a, i);
    } else {
      RowOtherwise(s, a, i);
    }
  }

  /** A completed or failed row changes exactly when a late commit or a late error overwrites it. */
  lemma TerminalChangesExactly(s: Sys, a: Action, i: Id)
    requires Inv(s) && Enabled(s, a) && i in s.db.sagas && Terminal(s.db.sagas[i]) && s.db.sagas[i].leaseUntil.None?
    ensures i in Next(s, a).db.sagas
    ensures Next(s, a).db.sagas[i] != s.db.sagas[i] <==> Overwrites(s, a, i)
  {
    if CommitsFor(s, a, i) {
      RowAfterCommit(s, a, i);
    } else if a.Record? && s.inflight[a.worker].intent == i {
      RowAfterRecord(s, a, i);
    } else {
      RowOtherwise(s, a, i);
    }
  }

  // ---- Every run ----

  /** A completed or failed row carries no lease. */
  ghost predicate Unleased(db: DB) {
    forall i :: i in db.sagas && Terminal(db.sagas[i]) ==> db.sagas[i].leaseUntil.None?
  }

  lemma RowUnleased(s: Sys, a: Action, i: Id)
    requires Inv(s) && Enabled(s, a) && Unleased(s.db) && i in Next(s, a).db.sagas && Terminal(Next(s, a).db.sagas[i])
    ensures Next(s, a).db.sagas[i].leaseUntil.None?
  {
    if i !in s.db.sagas {
      NotYetEnqueued(s, a, i);
    } else if CommitsFor(s, a, i) {
      RowAfterCommit(s, a, i);
    } else if a.Record? && s.inflight[a.worker].intent == i {
      RowAfterRecord(s, a, i);
    } else {
      RowOtherwise(s, a, i);
    }
  }

  lemma {:induction false} AlwaysUnleased(states: seq<Sys>, acts: seq<Action>, n: nat)
    requires IsRun(states, acts) && n < |states|
    ensures Unleased(states[n].db)
  {
    if n > 0 {
      AlwaysUnleased(states, acts, n - 1);
      Adversarial.Safe(states, acts, n - 1);
      assert ActsAt(states, acts, n - 1);
      forall i | i in states[n].db.sagas && Terminal(states[n].db.sagas[i])
        ensures states[n].db.sagas[i].leaseUntil.None?
      {
        RowUnleased(states[n - 1], acts[n - 1], i);
      }
    }
  }

  lemma StepAt(states: seq<Sys>, acts: seq<Action>, n: nat, i: Id)
    requires IsRun(states, acts) && n < |acts| && i in states[n].db.sagas
    ensures i in states[n + 1].db.sagas
    ensures StepIndex(states[n + 1].db.sagas[i].step) < StepIndex(states[n].db.sagas[i].step) <==>
              MovesBack(states[n], acts[n], i)
  {
    Adversarial.Safe(states, acts, n);
    assert ActsAt(states, acts, n);
    StepBackExactly(states[n], acts[n], i);
  }

  /** In any run a completed or failed row is overwritten exactly by late commits and late errors. */
  lemma FinalExactly(states: seq<Sys>, acts: seq<Action>, n: nat, i: Id)
    requires IsRun(states, acts) && n < |acts| && i in states[n].db.sagas && Terminal(states[n].db.sagas[i])
    ensures i in states[n + 1].db.sagas
    ensures states[n + 1].db.sagas[i] != states[n].db.sagas[i] <==> Overwrites(states[n], acts[n], i)
  {
    Adversarial.Safe(states, acts, n);
    AlwaysUnleased(states, acts, n);
    assert ActsAt(states, acts, n);
    TerminalChangesExactly(states[n], acts[n], i);
  }

  /** The k-th action does not move saga `i` back, and does not overwrite it when it is final. */
  ghost predicate InOrderAt(states: seq<Sys>, acts: seq<Action>, k: nat, i: Id)
    requires |states| == |acts| + 1 && k < |acts| && i in states[k].db.sagas && i in states[k + 1].db.sagas
  {
    && StepIndex(states[k].db.sagas[i].step) <= StepIndex(states[k + 1].db.sagas[i].step)
    && (Terminal(states[k].db.sagas[i]) ==> states[k + 1].db.sagas[i] == states[k].db.sagas[i])
  }

  ghost predicate LateAt(states: seq<Sys>, acts: seq<Action>, k: nat, i: Id)
    requires |states| == |acts| + 1 && k < |acts| && i in states[k].db.sagas
  {
    MovesBack(states[k], acts[k], i) || (Terminal(states[k].db.sagas[i]) && Overwrites(states[k], acts[k], i))
  }

  lemma {:induction false} SagaStays(states: seq<Sys>, acts: seq<Action>, m: nat, n: nat, i: Id)
    requires IsRun(states, acts) && m <= n < |states| && i in states[m].db.sagas
    ensures i in states[n].db.sagas
    decreases n
  {
    if m < n {
      SagaStays(states, acts, m, n - 1, i);
      StepAt(states, acts, n - 1, i);
    }
  }

  /** Any run, any stretch: the row only moves forward and final rows stay exactly when no late write
      of the two kinds occurs in it. */
  lemma ForwardExactly(states: seq<Sys>, acts: seq<Action>, m: nat, n: nat, i: Id)
    requires IsRun(states, acts) && m <= n < |states| && i in states[m].db.sagas
    ensures forall k :: m <= k <= n ==> i in states[k].db.sagas
    ensures (forall k {:trigger InOrderAt(states, acts, k, i)} :: m <= k < n ==> InOrderAt(states, acts, k, i))
       <==> (forall k {:trigger LateAt(states, acts, k, i)} :: m <= k < n ==> !LateAt(states, acts, k, i))
  {
    forall k | m <= k <= n ensures i in states[k].db.sagas { SagaStays(states, acts, m, k, i); }
    forall k | m <= k < n ensures InOrderAt(states, acts, k, i) <==> !LateAt(states, acts, k, i) {
      StepAt(states, acts, k, i);
      if Terminal(states[k].db.sagas[i]) { FinalExactly(states, acts, k, i); }
    }
  }

  /** A timely run has no late write. */
  lemma TimelyIsNeverLate(states: seq<Sys>, acts: seq<Action>, n: nat, i: Id)
    requires IsTimelyRun(states, acts) && n < |acts| && i in states[n].db.sagas
    ensures !LateAt(states, acts, n, i)
  {
    Guarantees.ForwardOnly(states, acts, n, n + 1, i);
    StepAt(states, acts, n, i);
    if Terminal(states[n].db.sagas[i]) { FinalExactly(states, acts, n, i); }
  }

  // ---- Announcements ----

  /** Committed emit_completed runs of intent `i` among the first `n` actions. */
  ghost function EmitRuns(states: seq<Sys>, acts: seq<Action>, n: nat, i: Id): nat
    requires |states| == |acts| + 1 && n <= |acts|
  {
    if n == 0 then 0
    else EmitRuns(states, acts, n - 1, i) + if EmitsAt(states[n - 1], acts[n - 1], i) then 1 else 0
  }

  ghost predicate EmitsAt(s: Sys, a: Action, i: Id) {
    CommitsFor(s, a, i) && s.inflight[a.worker].step == StepEmitCompleted
  }

  lemma EmitAnnounces(s: Sys, a: Action, i: Id)
    requires Inv(s) && Enabled(s, a)
    ensures Announcements(Next(s, a).db.outbox, i)
         == Announcements(s.db.outbox, i) + if EmitsAt(s, a, i) then 1 else 0
  {
    match a
    case Run(w, env, _) =>
      var c := s.inflight[w];
      if RunStep(s.db, c.intent, c.step, env).outcome.Commit? {
        SagaShape(s.db, c.intent, c.step, env);
        if c.step == StepEmitCompleted { AnnouncementsSnoc(s.db.outbox, Next(s, a).db.outbox, c.intent, i); }
      }
    case Take(_, _, _) =>
    case Record(_, _) =>
    case _ =>
      OtherActions(s, a);
      AnnouncementsSame(s.db.outbox, Next(s, a).db.outbox, i);
  }

  /** In every run an intent is announced once per committed emit_completed, so exactly once exactly
      when that step commits exactly once. */
  lemma {:induction false} AnnouncementCount(states: seq<Sys>, acts: seq<Action>, n: nat, i: Id)
    requires IsRun(states, acts) && n < |states|
    ensures Announcements(states[n].db.outbox, i) == EmitRuns(states, acts, n, i)
  {
    if n > 0 {
      AnnouncementCount(states, acts, n - 1, i);
      Adversarial.Safe(states, acts, n - 1);
      assert ActsAt(states, acts, n - 1);
      EmitAnnounces(states[n - 1], acts[n - 1], i);
    }
  }
}
