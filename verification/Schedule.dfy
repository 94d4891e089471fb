/** When a saga may be claimed, read off the history of a run: what scheduled it last, and whose lease
    stands. */
module Schedule {
  import opened Options
  import opened Schema
  import opened Steps
  import opened Protocol
  import opened Safety
  import opened Timely
  import Adversarial
  import StaleWrites

  /** The action schedules a retry of saga `i`. */
  ghost predicate SchedulesRetry(s: Sys, a: Action, i: Id) {
    && a.Record? && a.worker in s.inflight && s.inflight[a.worker].intent == i
    && s.inflight[a.worker].phase == Erred(false) && s.inflight[a.worker].attempts + 1 < s.maxAttempts
  }

  /** The action commits a step of saga `i` other than the last. */
  ghost predicate AdvancesSaga(s: Sys, a: Action, i: Id) {
    StaleWrites.CommitsFor(s, a, i) && s.inflight[a.worker].step != StepEmitCompleted
  }

  ghost predicate Reschedules(s: Sys, a: Action, i: Id) {
    SchedulesRetry(s, a, i) || AdvancesSaga(s, a, i)
  }

  /** When saga `i` is next to run: from its enqueueing or its last advance at once, from its last
      retry after that retry's delay. */
  ghost function RunsAt(states: seq<Sys>, acts: seq<Action>, n: nat, i: Id): Time
    requires |states| == |acts| + 1 && n <= |acts|
  {
    if n == 0 then 0
    else
      var s, a := states[n - 1], acts[n - 1];
      if i !in s.db.sagas || AdvancesSaga(s, a, i) then s.now
      else if SchedulesRetry(s, a, i) then s.now + a.delay
      else RunsAt(states, acts, n - 1, i)
  }

  /** The lease on saga `i`: that of its last claim, until a step commits or an error is recorded. */
  ghost function LeasedUntil(states: seq<Sys>, acts: seq<Action>, n: nat, i: Id): Option<Time>
    requires |states| == |acts| + 1 && n <= |acts|
  {
    if n == 0 then None
    else
      var s, a := states[n - 1], acts[n - 1];
      if a.Take? && a.intentId == i then Some(s.now + a.lease)
      else if StaleWrites.CommitsFor(s, a, i) then None
      else if a.Record? && a.worker in s.inflight && s.inflight[a.worker].intent == i then None
      else LeasedUntil(states, acts, n - 1, i)
  }

  lemma RowMoves(s: Sys, a: Action, i: Id)
    requires Inv(s) && Enabled(s, a) && i in s.db.sagas
    ensures i in Next(s, a).db.sagas
    ensures Next(s, a).db.sagas[i].nextRunAt ==
            if AdvancesSaga(s, a, i) then s.now
            else if SchedulesRetry(s, a, i) then s.now + a.delay
            else s.db.sagas[i].nextRunAt
    ensures Next(s, a).db.sagas[i].leaseUntil ==
            if a.Take? && a.intentId == i then Some(s.now + a.lease)
            else if StaleWrites.CommitsFor(s, a, i) then None
            else if a.Record? && s.inflight[a.worker].intent == i then None
            else s.db.sagas[i].leaseUntil
  {
    if StaleWrites.CommitsFor(s, a, i) {
      StaleWrites.RowAfterCommit(s, a, i);
    } else if a.Record? && s.inflight[a.worker].intent == i {
      StaleWrites.RowAfterRecord(s, a, i);
    } else {
      StaleWrites.RowOtherwise(s, a, i);
    }
  }

  lemma NewRow(s: Sys, a: Action, i: Id)
    requires Inv(s) && Enabled(s, a) && i !in s.db.sagas && i in Next(s, a).db.sagas
    ensures Next(s, a).db.sagas[i] == Saga(StepCreditDeposit, SagaPending, 0, s.now, None)
    ensures !(a.Take? && a.intentId == i) && !(a.Record? && s.inflight[a.worker].intent == i)
    ensures !StaleWrites.CommitsFor(s, a, i)
  {
    match a
    case Run(w, env, _) =>
      var c := s.inflight[w];
      if RunStep(s.db, c.intent, c.step, env).outcome.Commit? { SagaShape(s.db, c.intent, c.step, env); }
    case Observe(signature, amount, commitment, link) =>
      NewlyEnqueued(s.db, Deposit(signature, amount, commitment, link), s.now, i);
    case Record(_, _) =>
    case Take(_, _, _) =>
    case _ => OtherActions(s, a);
  }

  lemma NewlyEnqueued(db: DB, d: Deposit, now: Time, i: Id)
    requires i !in db.sagas && i in ObserveDeposit(db, d, now).sagas
    ensures ObserveDeposit(db, d, now).sagas[i] == Saga(StepCreditDeposit, SagaPending, 0, now, None)
  {
  }

  lemma {:induction false} NoLeaseBefore(states: seq<Sys>, acts: seq<Action>, n: nat, i: Id)
    requires IsRun(states, acts) && n < |states| && i !in states[n].db.sagas
    ensures LeasedUntil(states, acts, n, i) == None
  {
    if n > 0 {
      Adversarial.GrowsAt(states, acts, n - 1);
      NoLeaseBefore(states, acts, n - 1, i);
      Adversarial.Safe(states, acts, n - 1);
      assert ActsAt(states, acts, n - 1);
    }
  }

  /** In every run the row's schedule and lease are those of its history. */
  lemma {:induction false} RowFollowsHistory(states: seq<Sys>, acts: seq<Action>, n: nat, i: Id)
    requires IsRun(states, acts) && n < |states| && i in states[n].db.sagas
    ensures states[n].db.sagas[i].nextRunAt == RunsAt(states, acts, n, i)
    ensures states[n].db.sagas[i].leaseUntil == LeasedUntil(states, acts, n, i)
  {
    if n > 0 {
      var s, a := states[n - 1], acts[n - 1];
      Adversarial.Safe(states, acts, n - 1);
      assert ActsAt(states, acts, n - 1);
      if i in s.db.sagas {
        RowFollowsHistory(states, acts, n - 1, i);
        RowMoves(s, a, i);
      } else {
        NewRow(s, a, i);
        NoLeaseBefore(states, acts, n - 1, i);
      }
    }
  }

  /** In every run an idle worker can claim a saga exactly when it is neither completed nor failed, its
      time has come, and no lease on it stands. */
  lemma ClaimableExactly(states: seq<Sys>, acts: seq<Action>, n: nat, w: nat, i: Id, lease: nat)
    requires IsRun(states, acts) && n < |states| && w !in states[n].inflight
    ensures Enabled(states[n], Take(w, i, lease)) <==>
            && i in states[n].db.sagas && states[n].db.sagas[i].state !in {SagaCompleted, SagaFailed}
            && RunsAt(states, acts, n, i) <= states[n].now
            && (LeasedUntil(states, acts, n, i).Some? ==> LeasedUntil(states, acts, n, i).value < states[n].now)
  {
    if i in states[n].db.sagas { RowFollowsHistory(states, acts, n, i); }
  }

  // ---- A retry waits ----

  lemma {:induction false} RetryStands(states: seq<Sys>, acts: seq<Action>, m: nat, n: nat, i: Id)
    requires IsRun(states, acts) && m < n < |states| && SchedulesRetry(states[m], acts[m], i)
    requires i in states[m].db.sagas && forall k :: m < k < n ==> !Reschedules(states[k], acts[k], i)
    ensures i in states[n - 1].db.sagas && RunsAt(states, acts, n, i) == states[m].now + acts[m].delay
    decreases n
  {
    if m + 1 < n {
      RetryStands(states, acts, m, n - 1, i);
      Adversarial.GrowsAt(states, acts, n - 2);
      assert i in states[n - 1].db.sagas;
    } else {
      assert !AdvancesSaga(states[m], acts[m], i);
    }
  }

  /** In any run a saga scheduled for a retry is not claimed before its time, unless in between a step
      of it committed or another error of it was recorded. */
  lemma RetryWaits(states: seq<Sys>, acts: seq<Action>, m: nat, n: nat, i: Id)
    requires IsRun(states, acts) && m < n < |acts| && SchedulesRetry(states[m], acts[m], i)
    requires acts[n].Take? && acts[n].intentId == i
    ensures states[m].now + acts[m].delay <= states[n].now
         || exists k :: m < k < n && Reschedules(states[k], acts[k], i)
  {
    assert ActsAt(states, acts, m) && ActsAt(states, acts, n);
    if forall k :: m < k < n ==> !Reschedules(states[k], acts[k], i) {
      RetryStands(states, acts, m, n, i);
      RowFollowsHistory(states, acts, n, i);
    }
  }

  lemma {:induction false} RowWaits(states: seq<Sys>, acts: seq<Action>, m: nat, n: nat, i: Id)
    requires IsTimelyRun(states, acts) && m < n < |states| && SchedulesRetry(states[m], acts[m], i)
    requires i in states[m].db.sagas && forall k :: m < k < n ==> !(acts[k].Take? && acts[k].intentId == i)
    ensures i in states[n].db.sagas && states[n].db.sagas[i].state == SagaPending
    ensures m + 1 < n ==> !Reschedules(states[n - 1], acts[n - 1], i)
    decreases n
  {
    var s, a := states[n - 1], acts[n - 1];
    TimelySafe(states, acts, n - 1);
    assert ActsAt(states, acts, n - 1) && TimelyAt(states, acts, n - 1);
    if m + 1 < n {
      RowWaits(states, acts, m, n - 1, i);
      PendingIsLeftAlone(s, a, i);
    } else {
      StaleWrites.RowAfterRecord(s, a, i);
    }
  }

  lemma LiveIsRunning(s: Sys, w: nat)
    requires TimelyInv(s) && Live(s, w)
    ensures s.inflight[w].intent in s.db.sagas && s.db.sagas[s.inflight[w].intent].state == SagaRunning
  {
    assert Holds(s, w);
  }

  /** In the timely regime only a claim changes a pending saga. */
  lemma PendingIsLeftAlone(s: Sys, a: Action, i: Id)
    requires Inv(s) && TimelyInv(s) && Enabled(s, a) && OnTime(s, a)
    requires i in s.db.sagas && s.db.sagas[i].state == SagaPending && !(a.Take? && a.intentId == i)
    ensures i in Next(s, a).db.sagas && Next(s, a).db.sagas[i] == s.db.sagas[i] && !Reschedules(s, a, i)
  {
    if a.Run? || a.Record? { LiveIsRunning(s, a.worker); }
    StaleWrites.RowOtherwise(s, a, i);
  }

  lemma {:induction false} TimePasses(states: seq<Sys>, acts: seq<Action>, m: nat, n: nat)
    requires IsRun(states, acts) && m <= n < |states|
    ensures states[m].now <= states[n].now
    decreases n
  {
    if m < n {
      TimePasses(states, acts, m, n - 1);
      assert ActsAt(states, acts, n - 1);
    }
  }

  /** In the timely regime a retry always waits: no claim of the saga, ever, comes before its time. */
  lemma {:induction false} TimelyRetryWaits(states: seq<Sys>, acts: seq<Action>, m: nat, n: nat, i: Id)
    requires IsTimelyRun(states, acts) && m < n < |acts| && SchedulesRetry(states[m], acts[m], i)
    requires acts[n].Take? && acts[n].intentId == i
    ensures states[m].now + acts[m].delay <= states[n].now
    decreases n
  {
    if k :| m < k < n && acts[k].Take? && acts[k].intentId == i {
      TimelyRetryWaits(states, acts, m, k, i);
      TimePasses(states, acts, k, n);
    } else {
      assert ActsAt(states, acts, m);
      forall k | m < k < n ensures !Reschedules(states[k], acts[k], i) { RowWaits(states, acts, m, k + 1, i); }
      RetryWaits(states, acts, m, n, i);
    }
  }
}
