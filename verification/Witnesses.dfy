/** Two runs the code allows: one, with every lease honoured and every commit reported, in which the
    bank pays a merchant twice; and one in which a worker that outlives its lease reopens a completed
    saga, which is then announced again. */
module Witnesses {
  import opened Options
  import opened Schema
  import opened Steps
  import opened Protocol
  import opened Safety
  import opened Completion
  import Outcomes
  import RailCalls
  import Schedule
  import StaleWrites
  import Timely
  import Pricing
  import Fx

  // ---- The bank pays, the commit is lost, the worker retries ----

  ghost function CommitLost(s: Sys, n: nat): Env {
    Env(s.pricer, s.now, NoFault, true, true, n, RailSuccess, true)
  }

  lemma LostFacts(s: Sys, w: nat, i: Id, n: nat)
    requires Solvent(s, i) && FreshFrom(s, n) && Holding(s, w, i, StepTriggerPayout) && i !in s.db.payouts
    ensures Enabled(s, Run(w, CommitLost(s, n), true))
    ensures RunStep(s.db, i, StepTriggerPayout, CommitLost(s, n))
         == StepRun(Abort(false), Some(Submission(n, i, s.db.intents[i].amountIdr, true)))
  {
  }

  lemma Loses(t: Trace, w: nat, i: Id, n: nat) returns (t': Trace)
    requires t.Valid() && Solvent(t.Last(), i) && FreshFrom(t.Last(), n)
    requires Holding(t.Last(), w, i, StepTriggerPayout) && i !in t.Last().db.payouts && Timely.Live(t.Last(), w)
    ensures t'.Valid() && Extends(t, t', true) && Solvent(t'.Last(), i) && FreshFrom(t'.Last(), n + 1)
    ensures var s := t.Last();
            t'.Last() == s.(inflight := s.inflight[w := s.inflight[w].(phase := Erred(false))],
                            rail := s.rail + [RailCall(Submission(n, i, s.db.intents[i].amountIdr, true), false)])
    ensures RailCalls.LandedButRolledBack(t'.Last().rail, i) == RailCalls.LandedButRolledBack(t.Last().rail, i) + 1
  {
    LostFacts(t.Last(), w, i, n);
    t' := Act(t, Run(w, CommitLost(t.Last(), n), true));
    RailCalls.CallSnoc(t.Last().rail, t'.Last().rail[|t.Last().rail|], i);
  }

  lemma Retries(t: Trace, w: nat, i: Id, n: nat) returns (t': Trace)
    requires t.Valid() && Solvent(t.Last(), i) && FreshFrom(t.Last(), n) && Timely.Live(t.Last(), w)
    requires t.Last().inflight[w].intent == i && t.Last().inflight[w].phase == Erred(false)
    requires t.Last().inflight[w].attempts + 1 < t.Last().maxAttempts
    ensures t'.Valid() && Extends(t, t', true) && Solvent(t'.Last(), i) && FreshFrom(t'.Last(), n)
    ensures var s := t.Last(); t'.Last() == s.(db := RetrySaga(s.db, i, s.now), inflight := s.inflight - {w})
  {
    t' := Act(t, Record(w, 0));
  }

  // ---- A deposit is waiting ----

  /** The shipped arithmetic: 16200 IDR per USDC, a spread of 50 basis points. */
  lemma ShippedQuote()
    ensures Pricing.QuoteFor(16200, Quote(16200, 0, 50)) == Some(1005025)
    ensures Pricing.MidFor(1005025, Quote(16200, 0, 50)) == 16281
  {
    Fx.SmallPowersAreExact(0);
    Fx.QuoteIsFloor(16200, Fx.Rate(16200, 0), 50, 1005025);
    Fx.MidIsFloor(1005025, 16200);
  }

  const I: Id := 0

  lemma Start(maxAttempts: nat) returns (t: Trace)
    requires 1 <= maxAttempts
    ensures t.Valid() && InTime(t)
    ensures var s := t.Last();
            && Pricing.IsCode(s.pricer) && Solvent(s, I) && FreshFrom(s, 0) && I !in s.db.payouts
            && s.inflight == map[] && s.rail == [] && s.db.outbox == [] && s.maxAttempts == maxAttempts
            && s.db.sagas[I] == Saga(StepCreditDeposit, SagaPending, 0, s.now, None)
  {
    var pricer := Pricer(Pricing.QuoteFor, Pricing.MidFor);
    var s0 := Sys(DB(SEEDED, map[], map[], map[], map[], map[], [], [], []), map[], 0, [], [], maxAttempts, pricer);
    t := Trace([s0], []);
    ShippedQuote();
    t := Act(t, SetMerchant(0, Merchant(Some("014"), Some("1"), Some("A"))));
    t := Act(t, CreateIntent(I, 0, 16200, 0, Quote(16200, 0, 50)));
    t := Act(t, Observe(0, 1005025, Finalized, Some(I)));
  }

  /** ... and is credited; the saga waits at trigger_payout. */
  lemma Credited(maxAttempts: nat) returns (t: Trace)
    requires 1 <= maxAttempts
    ensures t.Valid() && InTime(t)
    ensures var s := t.Last();
            && Pricing.IsCode(s.pricer) && Solvent(s, I) && FreshFrom(s, 1) && I !in s.db.payouts
            && s.inflight == map[] && s.maxAttempts == maxAttempts
            && RailCalls.LandedButRolledBack(s.rail, I) == 0 && Timely.Announcements(s.db.outbox, I) == 0
            && s.db.sagas[I] == Saga(StepTriggerPayout, SagaPending, 0, s.now, None)
  {
    t := Start(maxAttempts);
    t := Claims(t, 0, I, 10, 0);
    t := Executes(t, 0, I, StepCreditDeposit, 0);
  }

  // ---- The runs ----

  lemma Pays() returns (t: Trace)
    ensures t.Valid() && InTime(t) && Pricing.IsCode(t.Last().pricer)
    ensures I in t.Last().db.payouts && RailCalls.LandedButRolledBack(t.Last().rail, I) == 1
  {
    t := PaysInVain();
    t := Retries(t, 0, I, 2);
    t := Claims(t, 0, I, 10, 2);
    t := Executes(t, 0, I, StepTriggerPayout, 2);
  }

  lemma AboutToPay() returns (t: Trace)
    ensures t.Valid() && InTime(t) && Pricing.IsCode(t.Last().pricer) && t.Last().maxAttempts == 5
    ensures Solvent(t.Last(), I) && FreshFrom(t.Last(), 1) && I !in t.Last().db.payouts
    ensures t.Last().inflight == map[0 := Claim(I, StepTriggerPayout, 0, t.Last().now + 10, Claimed)]
    ensures t.Last().db.sagas[I].step == StepTriggerPayout && t.Last().db.sagas[I].attempts == 0
    ensures RailCalls.LandedButRolledBack(t.Last().rail, I) == 0
  {
    t := Credited(5);
    t := Claims(t, 0, I, 10, 1);
  }

  lemma PaysInVain() returns (t: Trace)
    ensures t.Valid() && InTime(t) && Pricing.IsCode(t.Last().pricer)
    ensures Solvent(t.Last(), I) && FreshFrom(t.Last(), 2) && Timely.Live(t.Last(), 0) && t.Last().maxAttempts == 5
    ensures t.Last().inflight[0] == Claim(I, StepTriggerPayout, 0, t.Last().now + 10, Erred(false))
    ensures t.Last().db.sagas[I].step == StepTriggerPayout && t.Last().db.sagas[I].attempts == 0
    ensures RailCalls.LandedButRolledBack(t.Last().rail, I) == 1
  {
    t := AboutToPay();
    t := Loses(t, 0, I, 1);
  }

  /** With every lease honoured and every commit reported, the bank can still pay twice: the first
      payment's transaction is rolled back, and the retry draws a new idempotency key. */
  lemma PaidTwice() returns (states: seq<Sys>, acts: seq<Action>)
    ensures Timely.IsTimelyRun(states, acts) && Pricing.IsCode(states[|acts|].pricer)
    ensures |RailCalls.PaidKeys(states[|acts|].rail, I)| == 2
  {
    var t := Pays();
    states, acts := t.states, t.acts;
    RailCalls.DisbursementCount(states, acts, |acts|, I);
  }

  /** A worker has claimed trigger_payout and its lease has run out. */
  lemma Stale() returns (t: Trace)
    ensures t.Valid() && Waiting(t.Last(), I, StepTriggerPayout, 1)
    ensures Holding(t.Last(), 0, I, StepTriggerPayout) && 1 !in t.Last().inflight
    ensures Timely.Announcements(t.Last().db.outbox, I) == 0
  {
    t := Credited(5);
    t := Claims(t, 0, I, 0, 1);
    t := Act(t, Elapse(1));
  }

  lemma Reopens(t: Trace, n: nat) returns (t': Trace)
    requires t.Valid() && Finished(t.Last(), I, n) && Holding(t.Last(), 0, I, StepTriggerPayout)
    requires 1 !in t.Last().inflight
    ensures t'.Valid() && |t'.acts| == |t.acts| + 1 && Extends(t, t', false) && 1 !in t'.Last().inflight
    ensures Waiting(t'.Last(), I, StepApplyPayoutResult, n + 1) && t'.Last().db.sagas[I].state == SagaPending
    ensures Timely.Announcements(t'.Last().db.outbox, I) == Timely.Announcements(t.Last().db.outbox, I)
  {
    t' := Executes(t, 0, I, StepTriggerPayout, n);
  }

  lemma Reopening() returns (done: Trace, reopened: Trace, again: Trace, n: nat)
    ensures done.Valid() && reopened.Valid() && again.Valid() && |reopened.acts| == |done.acts| + 1
    ensures Extends(done, reopened, false) && Extends(reopened, again, false)
    ensures Finished(done.Last(), I, n) && Waiting(reopened.Last(), I, StepApplyPayoutResult, n + 1)
    ensures reopened.Last().db.sagas[I].state == SagaPending
    ensures Timely.Announcements(again.Last().db.outbox, I) == 2
  {
    var stale := Stale();
    done, n := Settle(stale, 1, I, StepTriggerPayout, 1);
    reopened := Reopens(done, n);
    var n1;
    again, n1 := Settle(reopened, 1, I, StepApplyPayoutResult, n + 1);
  }

  /** A worker whose lease ran out commits its step after another has completed the saga: the row goes
      back to an earlier step, is settled again and announced a second time. */
  lemma CompletedSagaReopened() returns (states: seq<Sys>, acts: seq<Action>, m: nat)
    ensures IsRun(states, acts) && m < |acts| && I in states[m].db.sagas && I in states[m + 1].db.sagas
    ensures states[m].db.sagas[I].state == SagaCompleted && states[m].db.sagas[I].step == StepEmitCompleted
    ensures states[m + 1].db.sagas[I].state == SagaPending && states[m + 1].db.sagas[I].step == StepApplyPayoutResult
    ensures Timely.Announcements(states[|acts|].db.outbox, I) == 2
  {
    var done, reopened, again, n := Reopening();
    states, acts, m := again.states, again.acts, |done.acts|;
    assert states[m] == done.Last() && states[m + 1] == reopened.Last();
  }

  // ---- Every lease honoured, one commit misreported ----

  /** Workers act only within their leases; commits may be misreported. */
  ghost predicate LeasedAt(states: seq<Sys>, acts: seq<Action>, n: nat)
    requires |states| == |acts| + 1 && n < |acts|
  {
    match acts[n]
    case Run(w, _, _) => Timely.Live(states[n], w)
    case Record(w, _) => Timely.Live(states[n], w)
    case _ => true
  }

  ghost predicate Leased(states: seq<Sys>, acts: seq<Action>)
    requires |states| == |acts| + 1
  {
    forall n {:trigger LeasedAt(states, acts, n)} :: 0 <= n < |acts| ==> LeasedAt(states, acts, n)
  }

  lemma AtEmit(maxAttempts: nat) returns (t: Trace)
    requires 1 <= maxAttempts
    ensures t.Valid() && InTime(t) && Waiting(t.Last(), I, StepEmitCompleted, 3)
    ensures t.Last().inflight == map[] && t.Last().maxAttempts == maxAttempts && t.Last().db.sagas[I].attempts == 0
    ensures Timely.Announcements(t.Last().db.outbox, I) == 0
  {
    t := Credited(maxAttempts);
    t := Claims(t, 0, I, 10, 1);
    t := Executes(t, 0, I, StepTriggerPayout, 1);
    t := Claims(t, 0, I, 10, 2);
    t := Executes(t, 0, I, StepApplyPayoutResult, 2);
  }

  lemma RecordsCompletion(maxAttempts: nat) returns (t: Trace, t1: Trace, t2: Trace)
    requires 1 <= maxAttempts
    ensures t.Valid() && InTime(t) && t1.Valid() && t2.Valid() && t.states <= t1.states <= t2.states
    ensures t.acts <= t1.acts <= t2.acts
    ensures |t1.acts| == |t.acts| + 1 && |t2.acts| == |t1.acts| + 1
    ensures t1.acts[|t.acts|].Run? && t1.acts[|t.acts|].worker == 0 && Timely.Live(t.Last(), 0)
    ensures t2.acts[|t1.acts|] == Record(0, 0) && Timely.Live(t1.Last(), 0)
    ensures I in t1.Last().db.sagas && t1.Last().db.sagas[I].state == SagaCompleted
    ensures I in t2.Last().db.sagas
    ensures t2.Last().db.sagas[I].state == if maxAttempts == 1 then SagaFailed else SagaPending
  {
    t := AtEmit(maxAttempts);
    t := Claims(t, 0, I, 10, 3);
    t1 := Misreports(t, 0, I, StepEmitCompleted, 3);
    t2 := Act(t1, Record(0, 0));
  }

  /** Faithful reports are needed too: with every lease honoured, a completion that landed but was
      reported as an error is recorded over, and the completed saga becomes failed or pending. */
  lemma CompletionRecordedAsError(maxAttempts: nat) returns (states: seq<Sys>, acts: seq<Action>, m: nat)
    requires 1 <= maxAttempts
    ensures IsRun(states, acts) && Leased(states, acts) && m + 1 == |acts| && I in states[m].db.sagas
    ensures I in states[m + 1].db.sagas
    ensures states[m].db.sagas[I].state == SagaCompleted
    ensures states[m + 1].db.sagas[I].state == if maxAttempts == 1 then SagaFailed else SagaPending
  {
    var t, t1, t2 := RecordsCompletion(maxAttempts);
    states, acts, m := t2.states, t2.acts, |t1.acts|;
    assert states[m] == t1.Last() && states[m + 1] == t2.Last() && states[|t.acts|] == t.Last();
    forall n | 0 <= n < |acts| ensures LeasedAt(states, acts, n) {
      if n < |t.acts| {
        assert Timely.TimelyAt(t.states, t.acts, n);
        assert states[n] == t.states[n] && acts[n] == t.acts[n];
      }
    }
  }

  // ---- A retry that does not wait ----

  ghost function QueryLost(s: Sys, n: nat): Env {
    Env(s.pricer, s.now, QueryFails, false, true, n, RailError, false)
  }

  /** A worker's step fails on a query. */
  lemma Errs(t: Trace, w: nat, i: Id, step: Step, n: nat) returns (t': Trace)
    requires t.Valid() && FreshFrom(t.Last(), n) && Holding(t.Last(), w, i, step) && !step.StepUnknown?
    ensures t'.Valid() && Extends(t, t', false) && FreshFrom(t'.Last(), n)
    ensures var s := t.Last();
            t'.Last() == s.(inflight := s.inflight[w := s.inflight[w].(phase := Erred(false))])
  {
    var s, env := t.Last(), QueryLost(t.Last(), n);
    Outcomes.MissingRows(s.db, i, step, env);
    t' := Act(t, Run(w, env, true));
  }

  /** Two workers hold the saga, the first with an expired lease, and both have failed. */
  lemma BothErr() returns (t: Trace)
    ensures t.Valid() && FreshFrom(t.Last(), 0) && t.Last().maxAttempts == 5
    ensures t.Last().inflight.Keys == {0, 1}
    ensures forall w :: w in {0, 1} ==>
              t.Last().inflight[w] == Claim(I, StepCreditDeposit, 0, t.Last().inflight[w].leaseUntil, Erred(false))
    ensures I in t.Last().db.sagas && t.Last().db.sagas[I].attempts == 0
  {
    t := Start(5);
    t := Claims(t, 0, I, 0, 0);
    t := Passes(t, 0);
    t := Claims(t, 1, I, 0, 0);
    t := Errs(t, 0, I, StepCreditDeposit, 0);
    t := Errs(t, 1, I, StepCreditDeposit, 0);
  }

  /** One tick of the clock. */
  lemma Passes(t: Trace, n: nat) returns (t': Trace)
    requires t.Valid() && Solvent(t.Last(), I) && FreshFrom(t.Last(), n)
    ensures t'.Valid() && Extends(t, t', true) && Solvent(t'.Last(), I) && FreshFrom(t'.Last(), n)
    ensures t'.Last() == t.Last().(now := t.Last().now + 1)
  {
    t' := Act(t, Elapse(1));
  }

  /** Outside the timely regime a retry may be claimed early although no step committed: a stale worker's
      own error is recorded over it. */
  lemma RetryClaimedEarly() returns (states: seq<Sys>, acts: seq<Action>, m: nat)
    ensures IsRun(states, acts) && m + 3 == |acts| && acts[m + 2].Take? && acts[m + 2].intentId == I
    ensures Schedule.SchedulesRetry(states[m], acts[m], I) && states[m + 2].now < states[m].now + acts[m].delay
    ensures forall k :: m < k < m + 2 ==> !StaleWrites.CommitsFor(states[k], acts[k], I)
  {
    var t := BothErr();
    var t1 := Act(t, Record(1, 300));
    var t2 := Act(t1, Record(0, 0));
    var t3 := Act(t2, Take(0, I, 0));
    states, acts, m := t3.states, t3.acts, |t.acts|;
    assert states[m] == t.Last() && states[m + 1] == t1.Last() && states[m + 2] == t2.Last();
  }
}
