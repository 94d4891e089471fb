/** What holds over every timely run: one live worker per saga, sagas that only move forward, one
    announcement per completion, and an end within 4 * maxAttempts recorded ticks. */
module Guarantees {
  import opened Schema
  import opened Protocol
  import opened Safety
  import opened Timely

  /** At most one live worker per saga, ever. */
  lemma MutualExclusion(states: seq<Sys>, acts: seq<Action>, n: nat, v: nat, w: nat)
    requires IsTimelyRun(states, acts) && n < |states| && v != w && Live(states[n], v) && Live(states[n], w)
    ensures states[n].inflight[v].intent != states[n].inflight[w].intent
  {
    TimelySafe(states, acts, n);
  }

  /** A completed saga has a completed intent and exactly one announcement; no other saga has any. */
  lemma CompletionIsAnnouncedOnce(states: seq<Sys>, acts: seq<Action>, n: nat, i: Id)
    requires IsTimelyRun(states, acts) && n < |states|
    ensures var db := states[n].db;
            && Announcements(db.outbox, i) == (if i in db.sagas && db.sagas[i].state == SagaCompleted then 1 else 0)
            && (i in db.sagas && db.sagas[i].state == SagaCompleted ==>
              i in db.intents && db.intents[i].state == Completed)
  {
    TimelySafe(states, acts, n);
    if i in states[n].db.sagas { assert SagaOk(states[n].db, i); }
  }

  /** Over any stretch of a timely run current_step never goes back, and completed and failed are final. */
  lemma {:induction false} ForwardOnly(states: seq<Sys>, acts: seq<Action>, m: nat, n: nat, i: Id)
    requires IsTimelyRun(states, acts) && m <= n < |states| && i in states[m].db.sagas
    ensures i in states[n].db.sagas
    ensures StepIndex(states[m].db.sagas[i].step) <= StepIndex(states[n].db.sagas[i].step)
    ensures Terminal(states[m].db.sagas[i]) ==> states[n].db.sagas[i] == states[m].db.sagas[i]
    decreases n
  {
    if m < n {
      ForwardOnly(states, acts, m, n - 1, i);
      TimelySafe(states, acts, n - 1);
      assert ActsAt(states, acts, n - 1) && TimelyAt(states, acts, n - 1);
      ActionMoves(states[n - 1], acts[n - 1], i);
    }
  }

  ghost function RecordedTicks(states: seq<Sys>, acts: seq<Action>, n: nat, i: Id): nat
    requires |states| == |acts| + 1 && n <= |acts|
  {
    if n == 0 then 0
    else RecordedTicks(states, acts, n - 1, i) + if Records(states[n - 1], acts[n - 1], i) then 1 else 0
  }

  /** Every recorded tick spends budget. */
  lemma {:induction false} TicksWithinBudget(states: seq<Sys>, acts: seq<Action>, n: nat, i: Id)
    requires IsTimelyRun(states, acts) && n < |states|
    ensures i !in states[n].db.sagas ==> RecordedTicks(states, acts, n, i) == 0
    ensures i in states[n].db.sagas ==>
              0 <= RecordedTicks(states, acts, n, i)
                <= 4 * states[0].maxAttempts - Budget(states[n].db.sagas[i], states[0].maxAttempts)
  {
    if n > 0 {
      TicksWithinBudget(states, acts, n - 1, i);
      TimelySafe(states, acts, n - 1);
      assert ActsAt(states, acts, n - 1) && TimelyAt(states, acts, n - 1);
      var s, a := states[n - 1], acts[n - 1];
      if i in s.db.sagas {
        ActionMoves(s, a, i);
      } else {
        NotYetEnqueued(s, a, i);
      }
    }
  }

  /** Termination: a saga is never recorded more than 4 * maxAttempts times, and by then it is
      completed or failed. */
  lemma Terminates(states: seq<Sys>, acts: seq<Action>, n: nat, i: Id)
    requires IsTimelyRun(states, acts) && n < |states| && i in states[n].db.sagas
    ensures RecordedTicks(states, acts, n, i) <= 4 * states[0].maxAttempts
    ensures RecordedTicks(states, acts, n, i) == 4 * states[0].maxAttempts ==> Terminal(states[n].db.sagas[i])
  {
    TicksWithinBudget(states, acts, n, i);
    TimelySafe(states, acts, n);
    assert SagaOk(states[n].db, i);
  }
}
