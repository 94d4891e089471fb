/** How often the bank pays. The payout row's id is the rail's idempotency key, and a rolled-back
    attempt draws a new one, so the rail never sees the same key twice. */
module RailCalls {
  import opened Options
  import opened Schema
  import opened Steps
  import opened Protocol
  import opened Safety
  import Adversarial

  /** Calls for the intent that the bank paid. */
  function Landed(rail: seq<RailCall>, i: Id): nat {
    if rail == [] then 0
    else
      var c := rail[|rail| - 1];
      Landed(rail[..|rail| - 1], i) + if c.submission.intent == i && c.submission.landed then 1 else 0
  }

  /** ... and whose transaction was rolled back. */
  function LandedButRolledBack(rail: seq<RailCall>, i: Id): nat {
    if rail == [] then 0
    else
      var c := rail[|rail| - 1];
      LandedButRolledBack(rail[..|rail| - 1], i)
      + if c.submission.intent == i && c.submission.landed && !c.committed then 1 else 0
  }

  function Calls(rail: seq<RailCall>, i: Id): nat {
    if rail == [] then 0
    else Calls(rail[..|rail| - 1], i) + if rail[|rail| - 1].submission.intent == i then 1 else 0
  }

  /** A rail that honours its key pays once per distinct key. */
  ghost function PaidKeys(rail: seq<RailCall>, i: Id): set<Id> {
    set k | 0 <= k < |rail| && rail[k].submission.intent == i && rail[k].submission.landed :: rail[k].submission.key
  }

  ghost predicate KeysDistinct(rail: seq<RailCall>) {
    forall j, k :: 0 <= j < k < |rail| ==> rail[j].submission.key != rail[k].submission.key
  }

  ghost predicate Counted(s: Sys) {
    && KeysDistinct(s.rail)
    && forall i {:trigger Landed(s.rail, i)} ::
         Landed(s.rail, i) == LandedButRolledBack(s.rail, i) + if i in s.db.payouts then 1 else 0
  }

  // ---- One step ----

  /** A step calls the rail only when no payout is committed for its intent, under the id just
      drawn; and the payouts change only by such a call that committed. */
  ghost predicate CallOk(db: DB, i: Id, run: StepRun, id: Id) {
    && (run.call.Some? ==>
          && i !in db.payouts && run.call.value.key == id && run.call.value.intent == i
          && (run.outcome.Commit? ==> run.call.value.landed && run.outcome.db.payouts.Keys == db.payouts.Keys + {i}))
    && (run.call.None? && run.outcome.Commit? ==> run.outcome.db.payouts == db.payouts)
  }

  lemma ExecuteCalls(db: DB, i: Id, step: Step, env: Env)
    requires PayoutsOk(db) && (env.reply == RailSuccess ==> env.landed)
    ensures CallOk(db, i, Execute(db, i, step, env), env.payoutId)
  {
    if Execute(db, i, step, env).outcome.Commit? {
      match step
      case StepCreditDeposit => CreditShape(db, i, env);
      case StepTriggerPayout => TriggerShape(db, i, env);
      case StepApplyPayoutResult => ApplyShape(db, i, env);
      case StepEmitCompleted => EmitShape(db, i, env);
    }
  }

  lemma CallShape(db: DB, i: Id, step: Step, env: Env)
    requires PayoutsOk(db) && (env.reply == RailSuccess ==> env.landed)
    ensures CallOk(db, i, RunStep(db, i, step, env), env.payoutId)
  {
    ExecuteCalls(db, i, step, env);
  }

  lemma CallSnoc(rail: seq<RailCall>, c: RailCall, i: Id)
    ensures Landed(rail + [c], i) == Landed(rail, i) + if c.submission.intent == i && c.submission.landed then 1 else 0
    ensures LandedButRolledBack(rail + [c], i)
         == LandedButRolledBack(rail, i)
            + if c.submission.intent == i && c.submission.landed && !c.committed then 1 else 0
    ensures Calls(rail + [c], i) == Calls(rail, i) + if c.submission.intent == i then 1 else 0
  {
    assert (rail + [c])[..|rail|] == rail;
  }

  lemma RunCounts(s: Sys, w: nat, env: Env, reported: bool)
    requires Inv(s) && Counted(s) && Enabled(s, Run(w, env, reported))
    ensures Counted(Next(s, Run(w, env, reported)))
    ensures forall i :: i in s.db.payouts ==> Calls(Next(s, Run(w, env, reported)).rail, i) == Calls(s.rail, i)
  {
    var c := s.inflight[w];
    CallShape(s.db, c.intent, c.step, env);
    AfterStepCounts(s, w, RunStep(s.db, c.intent, c.step, env), reported, env.payoutId);
  }

  lemma AfterStepCounts(s: Sys, w: nat, run: StepRun, reported: bool, id: Id)
    requires Counted(s) && w in s.inflight && FreshPayoutId(s, id)
    requires CallOk(s.db, s.inflight[w].intent, run, id)
    ensures Counted(AfterStep(s, w, run, reported))
    ensures forall i :: i in s.db.payouts ==> Calls(AfterStep(s, w, run, reported).rail, i) == Calls(s.rail, i)
  {
    var s' := AfterStep(s, w, run, reported);
    if run.call.Some? {
      var call := RailCall(run.call.value, run.outcome.Commit?);
      assert s'.rail == s.rail + [call];
      forall i
        ensures Landed(s'.rail, i) == LandedButRolledBack(s'.rail, i) + if i in s'.db.payouts then 1 else 0
        ensures i in s.db.payouts ==> Calls(s'.rail, i) == Calls(s.rail, i)
      {
        CallSnoc(s.rail, call, i);
        assert i in s'.db.payouts <==> i in s'.db.payouts.Keys;
        assert i in s.db.payouts <==> i in s.db.payouts.Keys;
      }
    }
  }

  lemma CountedStep(s: Sys, a: Action)
    requires Inv(s) && Counted(s) && Enabled(s, a)
    ensures Counted(Next(s, a))
    ensures forall i :: i in s.db.payouts ==> Calls(Next(s, a).rail, i) == Calls(s.rail, i)
  {
    if a.Run? {
      RunCounts(s, a.worker, a.env, a.reported);
    } else {
      OtherActions(s, a);
    }
  }

  lemma OtherActions(s: Sys, a: Action)
    requires Enabled(s, a) && !a.Run?
    ensures Next(s, a).rail == s.rail && Next(s, a).db.payouts == s.db.payouts
  {
    match a case Observe(_, _, _, _) => case Record(_, _) => case _ =>
  }

  // ---- Over runs ----

  lemma {:induction false} CountedAlways(states: seq<Sys>, acts: seq<Action>, n: nat)
    requires IsRun(states, acts) && n < |states|
    ensures Counted(states[n])
  {
    if n > 0 {
      CountedAlways(states, acts, n - 1);
      Adversarial.Safe(states, acts, n - 1);
      assert ActsAt(states, acts, n - 1);
      CountedStep(states[n - 1], acts[n - 1]);
    }
  }

  /** Once a payout is committed the rail is never called again for that intent. */
  lemma {:induction false} NoCallAfterPayout(states: seq<Sys>, acts: seq<Action>, m: nat, n: nat, i: Id)
    requires IsRun(states, acts) && m <= n < |states| && i in states[m].db.payouts
    ensures i in states[n].db.payouts && Calls(states[n].rail, i) == Calls(states[m].rail, i)
    decreases n
  {
    if m < n {
      NoCallAfterPayout(states, acts, m, n - 1, i);
      CountedAlways(states, acts, n - 1);
      Adversarial.Safe(states, acts, n - 1);
      assert ActsAt(states, acts, n - 1);
      CountedStep(states[n - 1], acts[n - 1]);
      Adversarial.InvStep(states[n - 1], acts[n - 1]);
    }
  }

  lemma {:induction false} PaidKeysCount(rail: seq<RailCall>, i: Id)
    requires KeysDistinct(rail)
    ensures |PaidKeys(rail, i)| == Landed(rail, i)
  {
    if rail == [] {
      assert PaidKeys(rail, i) == {};
    } else {
      var rest, c := rail[..|rail| - 1], rail[|rail| - 1];
      PaidKeysCount(rest, i);
      assert rail == rest + [c];
      PaidKeysSnoc(rest, c, i);
    }
  }

  lemma PaidKeysSnoc(rail: seq<RailCall>, c: RailCall, i: Id)
    ensures PaidKeys(rail + [c], i)
         == PaidKeys(rail, i) + if c.submission.intent == i && c.submission.landed then {c.submission.key} else {}
  {
    var rail' := rail + [c];
    assert rail'[|rail|] == c;
    forall x | x in PaidKeys(rail, i) ensures x in PaidKeys(rail', i) {
      var k :| 0 <= k < |rail|
        && rail[k].submission.intent == i && rail[k].submission.landed && rail[k].submission.key == x;
      assert rail'[k] == rail[k];
    }
  }

  /** How often a key-honouring bank pays an intent, in every reachable state: once for the committed
      payout, plus once for every call that landed in a transaction that was rolled back. */
  lemma DisbursementCount(states: seq<Sys>, acts: seq<Action>, n: nat, i: Id)
    requires IsRun(states, acts) && n < |states|
    ensures |PaidKeys(states[n].rail, i)|
         == LandedButRolledBack(states[n].rail, i) + if i in states[n].db.payouts then 1 else 0
  {
    CountedAlways(states, acts, n);
    PaidKeysCount(states[n].rail, i);
  }

  /** So an intent is paid at most once exactly when a landed call was never rolled back, or was the
      only one and no payout followed it. */
  lemma AtMostOnceExactly(states: seq<Sys>, acts: seq<Action>, n: nat, i: Id)
    requires IsRun(states, acts) && n < |states|
    ensures |PaidKeys(states[n].rail, i)| <= 1 <==>
            LandedButRolledBack(states[n].rail, i) == 0
            || (LandedButRolledBack(states[n].rail, i) == 1 && i !in states[n].db.payouts)
  {
    DisbursementCount(states, acts, n, i);
  }
}
