/** Runs built action by action, and what they show: from every reachable state one fault-free worker
    completes any saga that nothing but faults held up. */
module Completion {
  import opened Options
  import opened Schema
  import opened Steps
  import opened Protocol
  import opened Safety
  import Adversarial
  import Progress
  import RailCalls
  import Timely

  // ---- Building a run ----

  /** A run under construction. */
  datatype Trace = Trace(states: seq<Sys>, acts: seq<Action>) {
    ghost predicate Valid() {
      IsRun(states, acts)
    }

    function Last(): Sys
      requires |states| == |acts| + 1
    {
      states[|acts|]
    }

    ghost function Then(a: Action): Trace
      requires |states| == |acts| + 1 && Enabled(Last(), a)
    {
      Trace(states + [Next(Last(), a)], acts + [a])
    }
  }

  ghost predicate InTime(t: Trace)
    requires |t.states| == |t.acts| + 1
  {
    forall n {:trigger Timely.TimelyAt(t.states, t.acts, n)} :: 0 <= n < |t.acts| ==>
      Timely.TimelyAt(t.states, t.acts, n)
  }

  /** `t'` extends `t`; it is still timely if `timely`. */
  ghost predicate Extends(t: Trace, t': Trace, timely: bool)
    requires |t.states| == |t.acts| + 1 && |t'.states| == |t'.acts| + 1
  {
    t.states <= t'.states && t.acts <= t'.acts && (timely && InTime(t) ==> InTime(t'))
  }

  lemma InvLast(t: Trace)
    requires t.Valid()
    ensures Inv(t.Last())
  {
    Adversarial.Safe(t.states, t.acts, |t.acts|);
  }

  lemma Act(t: Trace, a: Action) returns (t': Trace)
    requires t.Valid() && Enabled(t.Last(), a)
    ensures t'.Valid() && t'.acts == t.acts + [a] && t'.Last() == Next(t.Last(), a)
    ensures Extends(t, t', Timely.OnTime(t.Last(), a))
  {
    t' := t.Then(a);
    StretchSnoc(t.states, t.acts, a);
    if Timely.OnTime(t.Last(), a) && InTime(t) {
      forall n | 0 <= n < |t'.acts| ensures Timely.TimelyAt(t'.states, t'.acts, n) {
        if n < |t.acts| { assert Timely.TimelyAt(t.states, t.acts, n); }
      }
    }
  }

  // ---- What the witnesses keep track of ----

  /** Nothing but a fault stands in the way of settling `i`. */
  ghost predicate Solvent(s: Sys, i: Id) {
    && i in s.db.intents && i in s.db.sagas
    && s.db.intents[i].merchant in s.db.merchants && HasBankDetails(s.db.merchants[s.db.intents[i].merchant])
    && s.db.intents[i].quote in s.db.quotes && s.db.intents[i].amountIdr <= QuotedMid(s.pricer, s.db, i)
  }

  /** Ids from `n` on are fresh. */
  ghost predicate FreshFrom(s: Sys, n: nat) {
    && (forall k :: 0 <= k < |s.rail| ==> s.rail[k].submission.key < n)
    && (forall j :: j in s.db.payouts ==> s.db.payouts[j].id < n)
  }

  lemma SolventKept(s: Sys, s': Sys, i: Id)
    requires Solvent(s, i) && Grows(s.db, s'.db) && s'.db.merchants == s.db.merchants && s'.pricer == s.pricer
    ensures Solvent(s', i)
  {
  }

  /** What a committed step leaves alone, and the payout it may add. */
  ghost predicate Modest(db: DB, db': DB, i: Id, step: Step, id: Id) {
    && db'.merchants == db.merchants
    && (db'.payouts == db.payouts || exists p: Payout :: p.id == id && db'.payouts == db.payouts[i := p])
    && (step == StepTriggerPayout ==> i in db'.payouts)
    && (step != StepTriggerPayout ==> db'.payouts == db.payouts)
  }

  lemma StepIsModest(db: DB, i: Id, step: Step, env: Env)
    requires PayoutsOk(db) && RunStep(db, i, step, env).outcome.Commit?
    ensures Modest(db, RunStep(db, i, step, env).outcome.db, i, step, env.payoutId)
  {
    ExecuteIsModest(db, i, step, env);
    var db1, db' := Execute(db, i, step, env).outcome.db, RunStep(db, i, step, env).outcome.db;
    assert db' == db1.(sagas := db'.sagas);
  }

  lemma ExecuteIsModest(db: DB, i: Id, step: Step, env: Env)
    requires PayoutsOk(db) && Execute(db, i, step, env).outcome.Commit?
    ensures Modest(db, Execute(db, i, step, env).outcome.db, i, step, env.payoutId)
  {
    match step
    case StepCreditDeposit => CreditShape(db, i, env);
    case StepTriggerPayout =>
      TriggerShape(db, i, env);
      PayingIsModest(db, i, env.payoutId);
    case StepApplyPayoutResult => ApplyShape(db, i, env);
    case StepEmitCompleted => EmitShape(db, i, env);
  }

  lemma PayingIsModest(db: DB, i: Id, id: Id)
    requires i in db.intents && AdvanceToSettling(WithPayout(db, i, id), i).Commit?
    ensures Modest(db, AdvanceToSettling(WithPayout(db, i, id), i).db, i, StepTriggerPayout, id)
  {
    if i !in db.payouts {
      var p := Payout(id, db.intents[i].amountIdr, PayoutSucceeded, 1);
      assert WithPayout(db, i, id).payouts == db.payouts[i := p];
    }
  }

  // ---- A worker claims the due saga ----

  /** What a worker remembers of the row it claims. */
  function ClaimOf(g: Saga, i: Id, leaseUntil: Time): Claim { Claim(i, g.step, g.attempts, leaseUntil, Claimed) }

  lemma ClaimFacts(s: Sys, w: nat, i: Id, lease: nat, n: nat)
    requires Inv(s) && Solvent(s, i) && FreshFrom(s, n) && w !in s.inflight && Due(s.db.sagas[i], s.now)
    ensures Enabled(s, Take(w, i, lease))
    ensures Solvent(Next(s, Take(w, i, lease)), i) && FreshFrom(Next(s, Take(w, i, lease)), n)
  {
  }

  lemma Claims(t: Trace, w: nat, i: Id, lease: nat, n: nat) returns (t': Trace)
    requires t.Valid() && Solvent(t.Last(), i) && FreshFrom(t.Last(), n)
    requires w !in t.Last().inflight && Due(t.Last().db.sagas[i], t.Last().now)
    ensures t'.Valid() && |t'.acts| == |t.acts| + 1 && Extends(t, t', true) && Solvent(t'.Last(), i)
    ensures FreshFrom(t'.Last(), n)
    ensures var s := t.Last();
            t'.Last() == s.(db := ClaimSaga(s.db, i, s.now + lease),
                            inflight := s.inflight[w := ClaimOf(s.db.sagas[i], i, s.now + lease)])
  {
    InvLast(t);
    ClaimFacts(t.Last(), w, i, lease, n);
    t' := Act(t, Take(w, i, lease));
  }

  // ---- A worker, its lease expired or not, executes its step without a fault: it commits ----

  ghost predicate Holding(s: Sys, w: nat, i: Id, step: Step) {
    w in s.inflight && s.inflight[w].intent == i && s.inflight[w].step == step && s.inflight[w].phase == Claimed
  }

  ghost function FaultFree(s: Sys, n: nat): Env {
    Env(s.pricer, s.now, NoFault, false, true, n, RailSuccess, true)
  }

  ghost predicate Executed(s: Sys, s': Sys, w: nat, i: Id, step: Step, n: nat) {
    && Solvent(s', i) && FreshFrom(s', n + 1)
    && s'.now == s.now && s'.inflight == s.inflight - {w} && s'.maxAttempts == s.maxAttempts && s'.pricer == s.pricer
    && i in s.db.sagas && s'.db.sagas[i] == Timely.After(s.db.sagas[i], step, s.now)
    && Timely.Announcements(s'.db.outbox, i)
       == Timely.Announcements(s.db.outbox, i) + (if step == StepEmitCompleted then 1 else 0)
    && RailCalls.LandedButRolledBack(s'.rail, i) == RailCalls.LandedButRolledBack(s.rail, i)
    && (step == StepTriggerPayout ==> i in s'.db.payouts)
    && (step != StepTriggerPayout ==> s'.db.payouts == s.db.payouts)
  }

  lemma ExecuteFacts(s: Sys, w: nat, i: Id, step: Step, n: nat, run: StepRun)
    requires Solvent(s, i) && FreshFrom(s, n) && Holding(s, w, i, step) && run.outcome.Commit?
    requires Grows(s.db, run.outcome.db)
    requires Timely.Advances(s.db, run.outcome.db, i, step, s.now) && Modest(s.db, run.outcome.db, i, step, n)
    requires run.call.Some? ==> run.call.value.key == n
    ensures Executed(s, AfterStep(s, w, run, true), w, i, step, n)
  {
    var s' := AfterStep(s, w, run, true);
    SolventKept(s, s', i);
    if step == StepEmitCompleted { Timely.AnnouncementsSnoc(s.db.outbox, s'.db.outbox, i, i); }
    if run.call.Some? { RailCalls.CallSnoc(s.rail, RailCall(run.call.value, true), i); }
  }

  lemma Commits(s: Sys, w: nat, i: Id, step: Step, n: nat)
    requires Inv(s) && Solvent(s, i) && FreshFrom(s, n) && Holding(s, w, i, step)
    ensures Enabled(s, Run(w, FaultFree(s, n), true))
    ensures RunStep(s.db, i, step, FaultFree(s, n)).outcome.Commit?
  {
    var env := FaultFree(s, n);
    assert Progress.Payable(s.db, i, step, env);
    Progress.FaultlessStepCommits(s.db, i, step, env);
  }

  lemma Executes(t: Trace, w: nat, i: Id, step: Step, n: nat) returns (t': Trace)
    requires t.Valid() && Solvent(t.Last(), i) && FreshFrom(t.Last(), n) && Holding(t.Last(), w, i, step)
    ensures t'.Valid() && |t'.acts| == |t.acts| + 1 && Extends(t, t', Timely.Live(t.Last(), w))
    ensures Executed(t.Last(), t'.Last(), w, i, step, n)
  {
    InvLast(t);
    Commits(t.Last(), w, i, step, n);
    t' := Act(t, Run(w, FaultFree(t.Last(), n), true));
    CommitFacts(t.Last(), w, i, step, n);
  }

  lemma CommitFacts(s: Sys, w: nat, i: Id, step: Step, n: nat)
    requires Inv(s) && Solvent(s, i) && FreshFrom(s, n) && Holding(s, w, i, step)
    requires Enabled(s, Run(w, FaultFree(s, n), true)) && RunStep(s.db, i, step, FaultFree(s, n)).outcome.Commit?
    ensures Executed(s, Next(s, Run(w, FaultFree(s, n), true)), w, i, step, n)
  {
    var env := FaultFree(s, n);
    var run := RunStep(s.db, i, step, env);
    Adversarial.RunStepKeeps(s.db, i, step, env);
    Timely.SagaShape(s.db, i, step, env);
    StepIsModest(s.db, i, step, env);
    RailCalls.CallShape(s.db, i, step, env);
    ExecuteFacts(s, w, i, step, n, run);
  }

  /** The same step, but the commit that landed is reported as an error. */
  lemma Misreports(t: Trace, w: nat, i: Id, step: Step, n: nat) returns (t': Trace)
    requires t.Valid() && Solvent(t.Last(), i) && FreshFrom(t.Last(), n) && Holding(t.Last(), w, i, step)
    ensures t'.Valid() && |t'.acts| == |t.acts| + 1 && t.states <= t'.states && t.acts <= t'.acts
    ensures t'.acts[|t.acts|] == Run(w, FaultFree(t.Last(), n), false)
    ensures Executed(t.Last(), t'.Last().(inflight := t.Last().inflight - {w}), w, i, step, n)
    ensures t'.Last().inflight == t.Last().inflight[w := t.Last().inflight[w].(phase := Erred(false))]
  {
    var s, env := t.Last(), FaultFree(t.Last(), n);
    InvLast(t);
    Commits(s, w, i, step, n);
    CommitFacts(s, w, i, step, n);
    t' := Act(t, Run(w, env, false));
    assert t'.Last().(inflight := s.inflight - {w}) == Next(s, Run(w, env, true));
  }

  // ---- From any step to the end ----

  /** The saga waits at `step`, and ids from `n` on are fresh. */
  ghost predicate Waiting(s: Sys, i: Id, step: Step, n: nat) {
    && Solvent(s, i) && FreshFrom(s, n) && !step.StepUnknown?
    && s.db.sagas[i].step == step && Due(s.db.sagas[i], s.now)
  }

  ghost predicate Finished(s: Sys, i: Id, n: nat) {
    && Solvent(s, i) && FreshFrom(s, n)
    && s.db.sagas[i].step == StepEmitCompleted && s.db.sagas[i].state == SagaCompleted
  }

  ghost predicate Moved(s: Sys, s': Sys, i: Id, announced: nat) {
    && s'.now == s.now && s'.inflight == s.inflight
    && Timely.Announcements(s'.db.outbox, i) == Timely.Announcements(s.db.outbox, i) + announced
  }

  lemma ExecutedMoves(s: Sys, s1: Sys, s': Sys, w: nat, i: Id, step: Step, n: nat)
    requires Waiting(s, i, step, n) && w !in s.inflight && Executed(s1, s', w, i, step, n)
    requires w in s1.inflight
    requires s1 == s.(db := ClaimSaga(s.db, i, s.now + 10), inflight := s.inflight[w := s1.inflight[w]])
    ensures Moved(s, s', i, if step == StepEmitCompleted then 1 else 0)
    ensures step == StepEmitCompleted ==> Finished(s', i, n + 1)
    ensures step != StepEmitCompleted ==> Waiting(s', i, Timely.Following(step).value, n + 1)
  {
    assert s.inflight[w := s1.inflight[w]] - {w} == s.inflight;
  }

  lemma Ticks(t: Trace, w: nat, i: Id, step: Step, n: nat) returns (t': Trace)
    requires t.Valid() && Waiting(t.Last(), i, step, n) && w !in t.Last().inflight
    ensures t'.Valid() && |t'.acts| == |t.acts| + 2 && Extends(t, t', true)
    ensures Moved(t.Last(), t'.Last(), i, if step == StepEmitCompleted then 1 else 0)
    ensures step == StepEmitCompleted ==> Finished(t'.Last(), i, n + 1)
    ensures step != StepEmitCompleted ==> Waiting(t'.Last(), i, Timely.Following(step).value, n + 1)
  {
    var t1 := Claims(t, w, i, 10, n);
    t' := Executes(t1, w, i, step, n);
    ExecutedMoves(t.Last(), t1.Last(), t'.Last(), w, i, step, n);
  }

  /** From `step` to the end, one worker. */
  lemma {:induction false} Settle(t: Trace, w: nat, i: Id, step: Step, n: nat) returns (t': Trace, n': nat)
    requires t.Valid() && Waiting(t.Last(), i, step, n) && w !in t.Last().inflight
    ensures t'.Valid() && |t'.acts| == |t.acts| + 2 * (4 - Timely.StepIndex(step)) && Extends(t, t', true)
    ensures Finished(t'.Last(), i, n') && Moved(t.Last(), t'.Last(), i, 1)
    decreases 3 - Timely.StepIndex(step)
  {
    var t1 := Ticks(t, w, i, step, n);
    if step == StepEmitCompleted {
      t', n' := t1, n + 1;
    } else {
      t', n' := Settle(t1, w, i, Timely.Following(step).value, n + 1);
    }
  }

  // ---- From every reachable state ----

  lemma {:induction false} Above(xs: set<nat>) returns (n: nat)
    ensures forall x :: x in xs ==> x < n
    decreases |xs|
  {
    if xs == {} {
      n := 0;
    } else {
      var x :| x in xs;
      var m := Above(xs - {x});
      n := if m < x + 1 then x + 1 else m;
      forall y | y in xs ensures y < n { if y != x { assert y in xs - {x}; } }
    }
  }

  lemma FreshIds(s: Sys) returns (n: nat)
    ensures FreshFrom(s, n)
  {
    var keys := set k | 0 <= k < |s.rail| :: s.rail[k].submission.key;
    var ids := set j | j in s.db.payouts :: s.db.payouts[j].id;
    var a := Above(keys);
    var b := Above(ids);
    n := if a < b then b else a;
    forall k | 0 <= k < |s.rail| ensures s.rail[k].submission.key < n { assert s.rail[k].submission.key in keys; }
    forall j | j in s.db.payouts ensures s.db.payouts[j].id < n { assert s.db.payouts[j].id in ids; }
  }

  /** How long until the saga can be claimed. */
  function UntilDue(g: Saga, now: Time): nat {
    var run := if g.nextRunAt <= now then 0 else g.nextRunAt - now;
    var lease := if g.leaseUntil.None? || g.leaseUntil.value < now then 0 else g.leaseUntil.value - now + 1;
    if run < lease then lease else run
  }

  /** Any run can be continued so that a solvent, unfinished saga completes: wait until it is due, then
      at most four ticks of one worker. The continuation keeps a timely run timely. */
  lemma SolventSagaCompletes(states: seq<Sys>, acts: seq<Action>, i: Id) returns (t: Trace)
    requires IsRun(states, acts) && Solvent(states[|acts|], i) && !Timely.Terminal(states[|acts|].db.sagas[i])
    ensures t.Valid() && |acts| < |t.acts| <= |acts| + 9 && states <= t.states && acts <= t.acts
    ensures i in t.Last().db.sagas && t.Last().db.sagas[i].state == SagaCompleted
    ensures Timely.IsTimelyRun(states, acts) ==> Timely.IsTimelyRun(t.states, t.acts)
  {
    var t0 := Trace(states, acts);
    var s := t0.Last();
    var step := s.db.sagas[i].step;
    KnownStep(t0, i);
    var t1 := Act(t0, Elapse(UntilDue(s.db.sagas[i], s.now)));
    var w := Above(s.inflight.Keys);
    var n := FreshIds(s);
    var n';
    t, n' := Settle(t1, w, i, step, n);
  }

  lemma KnownStep(t: Trace, i: Id)
    requires t.Valid() && i in t.Last().db.sagas
    ensures !t.Last().db.sagas[i].step.StepUnknown?
  {
    InvLast(t);
    assert SagaOk(t.Last().db, i);
  }
}
