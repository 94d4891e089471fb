/** The timely regime: a worker acts only while its lease is unexpired, and a commit is reported as
    it happened. Then the saga row is owned by at most one live worker, moves forward only, and
    ends within a bounded number of recorded ticks. */
module Timely {
  import opened Options
  import opened Schema
  import opened Steps
  import opened Protocol
  import opened Safety
  import Adversarial
  import Outbox

  ghost predicate Live(s: Sys, w: nat) {
    w in s.inflight && s.now <= s.inflight[w].leaseUntil
  }

  ghost predicate OnTime(s: Sys, a: Action) {
    match a
    case Run(w, _, reported) => reported && Live(s, w)
    case Record(w, _) => Live(s, w)
    case _ => true
  }

  ghost predicate TimelyAt(states: seq<Sys>, acts: seq<Action>, n: nat)
    requires |states| == |acts| + 1 && n < |acts|
  {
    OnTime(states[n], acts[n])
  }

  ghost predicate IsTimelyRun(states: seq<Sys>, acts: seq<Action>) {
    && IsRun(states, acts)
    && forall n {:trigger TimelyAt(states, acts, n)} :: 0 <= n < |acts| ==> TimelyAt(states, acts, n)
  }

  /** intent.completed rows of one intent. */
  function Announcements(rows: seq<Outbox.Row<CompletedEvent>>, i: Id): nat {
    if rows == [] then 0
    else
      var r := rows[|rows| - 1];
      Announcements(rows[..|rows| - 1], i) + if r.aggregate == Some(i) && r.topic == COMPLETED_TOPIC then 1 else 0
  }

  // ---- The invariant ----

  /** A live worker holds the lease and its snapshot is the row. */
  ghost predicate Holds(s: Sys, w: nat)
    requires w in s.inflight
  {
    var c := s.inflight[w];
    && c.intent in s.db.sagas
    && var g := s.db.sagas[c.intent];
       g.state == SagaRunning && g.leaseUntil == Some(c.leaseUntil) && g.step == c.step && g.attempts == c.attempts
  }

  ghost predicate LeaseOk(s: Sys) {
    && (forall w {:trigger Live(s, w)} :: Live(s, w) ==> Holds(s, w))
    && (forall v, w {:trigger Live(s, v), Live(s, w)} :: Live(s, v) && Live(s, w) && v != w ==>
      s.inflight[v].intent != s.inflight[w].intent)
  }

  ghost predicate AttemptsOk(s: Sys) {
    forall i :: i in s.db.sagas ==> 0 <= s.db.sagas[i].attempts < s.maxAttempts
  }

  /** One for a completed saga, none otherwise. */
  function AnnouncementsDue(db: DB, i: Id): nat {
    if i in db.sagas && db.sagas[i].state == SagaCompleted then 1 else 0
  }

  ghost predicate AnnouncedOk(s: Sys) {
    forall i {:trigger Announcements(s.db.outbox, i)} ::
      Announcements(s.db.outbox, i) == AnnouncementsDue(s.db, i)
  }

  ghost predicate TimelyInv(s: Sys) {
    LeaseOk(s) && AttemptsOk(s) && AnnouncedOk(s)
  }

  // ---- What a committed step does to the saga row and the outbox ----

  function After(g: Saga, step: Step, now: Time): Saga {
    match step
    case StepCreditDeposit => Saga(StepTriggerPayout, SagaPending, 0, now, None)
    case StepTriggerPayout => Saga(StepApplyPayoutResult, SagaPending, 0, now, None)
    case StepApplyPayoutResult => Saga(StepEmitCompleted, SagaPending, 0, now, None)
    case _ => g.(state := SagaCompleted, leaseUntil := None)
  }

  function Following(step: Step): Option<Step> {
    match step
    case StepCreditDeposit => Some(StepTriggerPayout) case StepTriggerPayout => Some(StepApplyPayoutResult)
    case StepApplyPayoutResult => Some(StepEmitCompleted) case _ => None
  }

  lemma ExecuteShape(db: DB, i: Id, step: Step, env: Env)
    requires PayoutsOk(db) && Execute(db, i, step, env).outcome.Commit?
    ensures var out := Execute(db, i, step, env).outcome;
            && !step.StepUnknown? && out.db.sagas == db.sagas && out.next == Following(step)
            && (step != StepEmitCompleted ==> out.db.outbox == db.outbox)
            && (step == StepEmitCompleted ==> OneMore(db.outbox, out.db.outbox, i))
  {
    match step
    case StepCreditDeposit => CreditShape(db, i, env);
    case StepTriggerPayout => TriggerShape(db, i, env);
    case StepApplyPayoutResult => ApplyShape(db, i, env);
    case StepEmitCompleted => EmitShape(db, i, env);
  }

  /** `rows'` is `rows` and one announcement of intent `i`. */
  ghost predicate OneMore(rows: seq<Outbox.Row<CompletedEvent>>, rows': seq<Outbox.Row<CompletedEvent>>, i: Id) {
    && |rows'| == |rows| + 1 && rows <= rows'
    && rows'[|rows|].aggregate == Some(i) && rows'[|rows|].topic == COMPLETED_TOPIC
  }

  /** `db'` is what a commit of `step` makes of the saga rows and the outbox of `db`. */
  ghost predicate Advances(db: DB, db': DB, i: Id, step: Step, now: Time) {
    && i in db.sagas && !step.StepUnknown? && db'.sagas == db.sagas[i := After(db.sagas[i], step, now)]
    && (step != StepEmitCompleted ==> db'.outbox == db.outbox)
    && (step == StepEmitCompleted ==> OneMore(db.outbox, db'.outbox, i))
  }

  lemma SagaShape(db: DB, i: Id, step: Step, env: Env)
    requires PayoutsOk(db) && RunStep(db, i, step, env).outcome.Commit?
    ensures Advances(db, RunStep(db, i, step, env).outcome.db, i, step, env.now)
  {
    ExecuteShape(db, i, step, env);
    var out, db' := Execute(db, i, step, env).outcome, RunStep(db, i, step, env).outcome.db;
    assert db' == if out.next.None? then CompleteSaga(out.db, i) else AdvanceSaga(out.db, i, out.next.value, env.now);
  }

  lemma AnnouncementsSnoc(rows: seq<Outbox.Row<CompletedEvent>>, rows': seq<Outbox.Row<CompletedEvent>>, i: Id, x: Id)
    requires OneMore(rows, rows', i)
    ensures Announcements(rows', x) == Announcements(rows, x) + if x == i then 1 else 0
  {
    assert rows'[..|rows|] == rows;
  }

  lemma {:induction false} AnnouncementsSame(rows: seq<Outbox.Row<CompletedEvent>>,
                                             rows': seq<Outbox.Row<CompletedEvent>>, x: Id)
    requires |rows'| == |rows| && OutboxGrows(rows, rows')
    ensures Announcements(rows', x) == Announcements(rows, x)
  {
    if rows != [] { AnnouncementsSame(rows[..|rows| - 1], rows'[..|rows| - 1], x); }
  }

  // ---- Each action ----

  /** `w` alone may have acted on intent `i`, and is no longer in flight. */
  lemma ReleaseKeepsLeases(s: Sys, s': Sys, w: nat, g: Saga)
    requires LeaseOk(s) && Live(s, w) && s'.now == s.now && s'.inflight == s.inflight - {w}
    requires s.inflight[w].intent in s.db.sagas && s'.db.sagas == s.db.sagas[s.inflight[w].intent := g]
    ensures LeaseOk(s')
  {
    forall v | Live(s', v) ensures Holds(s', v) {
      assert Live(s, v);
    }
    forall v, x | Live(s', v) && Live(s', x) && v != x ensures s'.inflight[v].intent != s'.inflight[x].intent {
      assert Live(s, v) && Live(s, x);
    }
  }

  lemma RunCommitStep(s: Sys, w: nat, run: StepRun, env: Env)
    requires TimelyInv(s) && Live(s, w) && run.outcome.Commit?
    requires Advances(s.db, run.outcome.db, s.inflight[w].intent, s.inflight[w].step, env.now)
    ensures 1 <= s.maxAttempts ==> TimelyInv(AfterStep(s, w, run, true))
  {
    var c, s' := s.inflight[w], AfterStep(s, w, run, true);
    assert Holds(s, w);
    ReleaseKeepsLeases(s, s', w, After(s.db.sagas[c.intent], c.step, env.now));
    forall x
      ensures Announcements(s'.db.outbox, x) == AnnouncementsDue(s'.db, x)
    {
      if c.step == StepEmitCompleted { AnnouncementsSnoc(s.db.outbox, s'.db.outbox, c.intent, x); }
      assert Announcements(s.db.outbox, x) == AnnouncementsDue(s.db, x);
    }
  }

  /** The worker keeps its claim and only notes the error. */
  lemma RunAbortStep(s: Sys, w: nat, run: StepRun)
    requires TimelyInv(s) && Live(s, w) && run.outcome.Abort?
    ensures TimelyInv(AfterStep(s, w, run, true))
  {
    var s' := AfterStep(s, w, run, true);
    forall v | Live(s', v) ensures Holds(s', v) {
      assert Live(s, v);
    }
    forall v, x | Live(s', v) && Live(s', x) && v != x ensures s'.inflight[v].intent != s'.inflight[x].intent {
      assert Live(s, v) && Live(s, x);
    }
  }

  lemma TakeStep(s: Sys, w: nat, i: Id, lease: nat)
    requires TimelyInv(s) && Enabled(s, Take(w, i, lease))
    ensures TimelyInv(Next(s, Take(w, i, lease)))
  {
    var s' := Next(s, Take(w, i, lease));
    forall v | Live(s', v) ensures Holds(s', v) && (v != w ==> s'.inflight[v].intent != i) {
      if v != w {
        assert Live(s, v);
        assert Holds(s, v);
      }
    }
    forall v, x | Live(s', v) && Live(s', x) && v != x ensures s'.inflight[v].intent != s'.inflight[x].intent {
      if v != w && x != w { assert Live(s, v) && Live(s, x); }
    }
  }

  lemma RecordStep(s: Sys, w: nat, delay: nat)
    requires TimelyInv(s) && Enabled(s, Record(w, delay)) && Live(s, w)
    ensures TimelyInv(Next(s, Record(w, delay)))
  {
    var s', c := Next(s, Record(w, delay)), s.inflight[w];
    assert Holds(s, w);
    Adversarial.RecordWrites(s.db, c, s.maxAttempts, s.now + delay);
    ReleaseKeepsLeases(s, s', w, s'.db.sagas[c.intent]);
  }

  /** Actions that touch neither claims nor existing saga rows nor what the outbox says. */
  ghost predicate Undisturbed(s: Sys, s': Sys) {
    && s'.maxAttempts == s.maxAttempts && s.now <= s'.now
    && |s'.db.outbox| == |s.db.outbox| && OutboxGrows(s.db.outbox, s'.db.outbox)
    && (forall v :: v in s'.inflight ==> v in s.inflight && s'.inflight[v] == s.inflight[v])
    && (forall i :: i in s.db.sagas ==> i in s'.db.sagas && s'.db.sagas[i] == s.db.sagas[i])
    && (forall i :: i in s'.db.sagas && i !in s.db.sagas ==>
          s'.db.sagas[i].attempts == 0 && s'.db.sagas[i].state == SagaPending && s'.db.sagas[i].step == FIRST_STEP)
  }

  lemma OtherActions(s: Sys, a: Action)
    requires Enabled(s, a) && !a.Take? && !a.Run? && !a.Record?
    ensures Undisturbed(s, Next(s, a))
  {
    match a
    case Dispatch(batch, cfg) => Adversarial.DispatchContent(s, batch, cfg);
    case Observe(_, _, _, _) =>
    case _ =>
  }

  lemma QuietStep(s: Sys, s': Sys)
    requires TimelyInv(s) && 1 <= s.maxAttempts && Undisturbed(s, s')
    ensures TimelyInv(s')
  {
    forall v | Live(s', v) ensures Holds(s', v) { assert Live(s, v); assert Holds(s, v); }
    forall v, x | Live(s', v) && Live(s', x) && v != x ensures s'.inflight[v].intent != s'.inflight[x].intent {
      assert Live(s, v) && Live(s, x);
    }
    forall x
      ensures Announcements(s'.db.outbox, x) == AnnouncementsDue(s'.db, x)
    {
      assert Announcements(s.db.outbox, x) == AnnouncementsDue(s.db, x);
      AnnouncementsSame(s.db.outbox, s'.db.outbox, x);
    }
  }

  lemma TimelyStep(s: Sys, a: Action)
    requires Inv(s) && TimelyInv(s) && 1 <= s.maxAttempts && Enabled(s, a) && OnTime(s, a)
    ensures TimelyInv(Next(s, a)) && Next(s, a).maxAttempts == s.maxAttempts
  {
    match a
    case Take(w, i, lease) => TakeStep(s, w, i, lease);
    case Run(w, env, _) => WorkerStep(s, w, env);
    case Record(w, delay) => RecordStep(s, w, delay);
    case _ =>
      OtherActions(s, a);
      QuietStep(s, Next(s, a));
  }

  lemma WorkerStep(s: Sys, w: nat, env: Env)
    requires Inv(s) && TimelyInv(s) && 1 <= s.maxAttempts && Enabled(s, Run(w, env, true)) && Live(s, w)
    ensures TimelyInv(Next(s, Run(w, env, true))) && Next(s, Run(w, env, true)).maxAttempts == s.maxAttempts
  {
    var c := s.inflight[w];
    var run := RunStep(s.db, c.intent, c.step, env);
    if run.outcome.Commit? {
      SagaShape(s.db, c.intent, c.step, env);
      RunCommitStep(s, w, run, env);
    } else {
      RunAbortStep(s, w, run);
    }
  }

  lemma {:induction false} TimelySafe(states: seq<Sys>, acts: seq<Action>, n: nat)
    requires IsTimelyRun(states, acts) && n < |states|
    ensures Inv(states[n]) && TimelyInv(states[n]) && 1 <= states[n].maxAttempts == states[0].maxAttempts
  {
    Adversarial.Safe(states, acts, n);
    if n > 0 {
      TimelySafe(states, acts, n - 1);
      TimelyNext(states, acts, n - 1);
    }
  }

  lemma TimelyNext(states: seq<Sys>, acts: seq<Action>, n: nat)
    requires IsTimelyRun(states, acts) && n < |acts|
    requires Inv(states[n]) && TimelyInv(states[n]) && 1 <= states[n].maxAttempts
    ensures TimelyInv(states[n + 1]) && states[n + 1].maxAttempts == states[n].maxAttempts
  {
    assert ActsAt(states, acts, n) && TimelyAt(states, acts, n);
    TimelyStep(states[n], acts[n]);
  }

  // ---- Forward only, absorbing, terminating ----

  function StepIndex(step: Step): nat {
    match step
    case StepCreditDeposit => 0 case StepTriggerPayout => 1 case StepApplyPayoutResult => 2
    case StepEmitCompleted => 3 case StepUnknown(_) => 4
  }

  predicate Terminal(g: Saga) { g.state == SagaCompleted || g.state == SagaFailed }

  /** Recorded ticks a saga can still spend. */
  function Budget(g: Saga, maxAttempts: int): int {
    if Terminal(g) then 0
    else
      (match g.step
       case StepCreditDeposit => 3 * maxAttempts case StepTriggerPayout => 2 * maxAttempts
       case StepApplyPayoutResult => maxAttempts case _ => 0)
      + maxAttempts - g.attempts
  }

  /** The action ends a tick on saga `i` by writing its outcome: an advance, a completion, a retry
      or a failure. */
  ghost predicate Records(s: Sys, a: Action, i: Id) {
    match a
    case Run(w, env, _) =>
      w in s.inflight && s.inflight[w].intent == i && RunStep(s.db, i, s.inflight[w].step, env).outcome.Commit?
    case Record(w, _) => w in s.inflight && s.inflight[w].intent == i
    case _ => false
  }

  /** How one action moves saga `i`. */
  ghost predicate Moves(s: Sys, a: Action, s': Sys, i: Id)
    requires i in s.db.sagas
  {
    && i in s'.db.sagas
    && var g, g' := s.db.sagas[i], s'.db.sagas[i];
       && StepIndex(g.step) <= StepIndex(g'.step)
       && (Terminal(g) ==> g' == g)
       && 0 <= Budget(g', s.maxAttempts)
       && Budget(g', s.maxAttempts) + (if Records(s, a, i) then 1 else 0) <= Budget(g, s.maxAttempts)
  }

  lemma RunMoves(s: Sys, w: nat, env: Env, i: Id)
    requires Inv(s) && TimelyInv(s) && 1 <= s.maxAttempts && Enabled(s, Run(w, env, true)) && Live(s, w)
    requires i in s.db.sagas
    ensures Moves(s, Run(w, env, true), Next(s, Run(w, env, true)), i)
  {
    var c := s.inflight[w];
    var run := RunStep(s.db, c.intent, c.step, env);
    if run.outcome.Commit? { SagaShape(s.db, c.intent, c.step, env); }
    StepMoves(s, w, run, env, i);
  }

  lemma StepMoves(s: Sys, w: nat, run: StepRun, env: Env, i: Id)
    requires TimelyInv(s) && 1 <= s.maxAttempts && Live(s, w) && s.inflight[w].phase == Claimed && i in s.db.sagas
    requires run.outcome.Commit? ==> Advances(s.db, run.outcome.db, s.inflight[w].intent, s.inflight[w].step, env.now)
    requires run == RunStep(s.db, s.inflight[w].intent, s.inflight[w].step, env)
    ensures Moves(s, Run(w, env, true), AfterStep(s, w, run, true), i)
  {
    assert Holds(s, w);
    if run.outcome.Commit? { AdvanceMoves(s.db.sagas[s.inflight[w].intent], env.now, s.maxAttempts); }
  }

  lemma AdvanceMoves(g: Saga, now: Time, maxAttempts: int)
    requires g.state == SagaRunning && 0 <= g.attempts < maxAttempts && !g.step.StepUnknown?
    ensures var g' := After(g, g.step, now);
            StepIndex(g.step) <= StepIndex(g'.step) && 0 <= Budget(g', maxAttempts) < Budget(g, maxAttempts)
  {
  }

  lemma RecordMoves(s: Sys, w: nat, delay: nat, i: Id)
    requires TimelyInv(s) && 1 <= s.maxAttempts && Enabled(s, Record(w, delay)) && Live(s, w) && i in s.db.sagas
    ensures Moves(s, Record(w, delay), Next(s, Record(w, delay)), i)
  {
    assert Holds(s, w);
    RecordSpends(s.db, s.inflight[w], s.maxAttempts, s.now + delay);
  }

  lemma RecordSpends(db: DB, c: Claim, maxAttempts: int, nextRunAt: Time)
    requires c.phase.Erred? && c.intent in db.sagas && 0 <= c.attempts == db.sagas[c.intent].attempts < maxAttempts
    requires db.sagas[c.intent].state == SagaRunning
    ensures var db' := RecordError(db, c, maxAttempts, nextRunAt);
            && db'.sagas == db.sagas[c.intent := db'.sagas[c.intent]]
            && db'.sagas[c.intent].step == db.sagas[c.intent].step
            && 0 <= Budget(db'.sagas[c.intent], maxAttempts) < Budget(db.sagas[c.intent], maxAttempts)
  {
  }

  lemma ActionMoves(s: Sys, a: Action, i: Id)
    requires Inv(s) && TimelyInv(s) && 1 <= s.maxAttempts && Enabled(s, a) && OnTime(s, a) && i in s.db.sagas
    ensures Moves(s, a, Next(s, a), i)
  {
    match a
    case Run(w, env, _) => RunMoves(s, w, env, i);
    case Record(w, delay) => RecordMoves(s, w, delay, i);
    case Take(_, _, _) =>
    case _ => OtherActions(s, a);
  }

  lemma NotYetEnqueued(s: Sys, a: Action, i: Id)
    requires Inv(s) && Enabled(s, a) && i !in s.db.sagas
    ensures !Records(s, a, i)
    ensures i in Next(s, a).db.sagas ==>
              Next(s, a).db.sagas[i].step == FIRST_STEP && Next(s, a).db.sagas[i].attempts == 0
    ensures i in Next(s, a).db.sagas ==> !Terminal(Next(s, a).db.sagas[i])
  {
    if a.Run? && RunStep(s.db, s.inflight[a.worker].intent, s.inflight[a.worker].step, a.env).outcome.Commit? {
      SagaShape(s.db, s.inflight[a.worker].intent, s.inflight[a.worker].step, a.env);
    }
  }
}
