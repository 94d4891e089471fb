/** Exactly-once effect: whatever was crashed, retried, reclaimed or replayed, the entries of an
    intent are those of a prefix of one clean pass. */
module ExactlyOnce {
  import opened Options
  import opened Schema
  import opened Steps
  import opened Protocol
  import opened Safety
  import Adversarial
  import Timely

  /** The entries of one intent, in posting order. */
  function EntriesOf(journal: seq<JournalEntry>, i: Id): seq<JournalEntry> {
    if journal == [] then []
    else
      var last := journal[|journal| - 1];
      EntriesOf(journal[..|journal| - 1], i) + if last.ref.intent == i then [last] else []
  }

  /** What the first `steps` settlement steps post when each runs once. */
  function CleanPass(i: Id, d: Deposit, intent: Intent, mid: int, steps: nat): seq<JournalEntry> {
    (if steps >= 1 then [CreditEntry(i, d)] else [])
    + if steps >= 3 then [FxSwapEntry(i, intent.quotedUsdc), DisbursedEntry(i, mid, intent.amountIdr)] else []
  }

  lemma EntriesSnoc(j: seq<JournalEntry>, e: JournalEntry, i: Id)
    ensures EntriesOf(j + [e], i) == EntriesOf(j, i) + if e.ref.intent == i then [e] else []
  {
    assert (j + [e])[..|j|] == j;
  }

  // ---- Order and uniqueness make the list ----

  lemma RefsOkPrefix(j: seq<JournalEntry>)
    requires RefsOk(j) && j != []
    ensures RefsOk(j[..|j| - 1]) && RefOk(j, |j| - 1)
  {
    var rest := j[..|j| - 1];
    forall k | 0 <= k < |rest| ensures RefOk(rest, k) {
      assert RefOk(j, k);
      assert rest[..k] == j[..k];
    }
  }

  lemma HasEntrySnoc(j: seq<JournalEntry>, e: JournalEntry, ref: Ref)
    ensures HasEntry(j + [e], ref) <==> HasEntry(j, ref) || e.ref == ref
  {
    var j' := j + [e];
    if HasEntry(j, ref) { HasEntryGrows(j, j', ref); }
    if e.ref == ref { assert j'[|j|].ref == ref; }
    if HasEntry(j', ref) {
      var k :| 0 <= k < |j'| && j'[k].ref == ref;
      if k < |j| { assert j[k].ref == ref; }
    }
  }

  /** The entries of an intent are its credit, then its swap, then its disbursement. */
  ghost predicate Ordered(j: seq<JournalEntry>, i: Id) {
    var es := EntriesOf(j, i);
    && |es| <= 3
    && (1 <= |es| <==> HasEntry(j, CreditDepositRef(i))) && (2 <= |es| <==> HasEntry(j, FxSwapRef(i)))
    && (3 <= |es| <==> HasEntry(j, PayoutDisbursedRef(i)))
    && (1 <= |es| ==> es[0].ref == CreditDepositRef(i)) && (2 <= |es| ==> es[1].ref == FxSwapRef(i))
    && (3 <= |es| ==> es[2].ref == PayoutDisbursedRef(i))
  }

  lemma {:induction false} EntriesOrdered(j: seq<JournalEntry>, i: Id)
    requires RefsOk(j)
    ensures Ordered(j, i)
  {
    if j != [] {
      var rest, e := j[..|j| - 1], j[|j| - 1];
      assert j == rest + [e];
      RefsOkPrefix(j);
      EntriesOrdered(rest, i);
      EntriesSnoc(rest, e, i);
      HasEntrySnoc(rest, e, CreditDepositRef(i));
      HasEntrySnoc(rest, e, FxSwapRef(i));
      HasEntrySnoc(rest, e, PayoutDisbursedRef(i));
    }
  }

  lemma {:induction false} EntriesFrom(j: seq<JournalEntry>, i: Id, n: nat)
    requires n < |EntriesOf(j, i)|
    ensures exists k :: 0 <= k < |j| && j[k] == EntriesOf(j, i)[n]
  {
    var rest, e := j[..|j| - 1], j[|j| - 1];
    if n < |EntriesOf(rest, i)| {
      EntriesFrom(rest, i, n);
      var k :| 0 <= k < |rest| && rest[k] == EntriesOf(rest, i)[n];
      assert j[k] == EntriesOf(j, i)[n];
    } else {
      assert j[|j| - 1] == EntriesOf(j, i)[n];
    }
  }

  // ---- Swap and disbursement come together, at the quoted mid ----

  ghost predicate Paired(db: DB) {
    forall i {:trigger HasEntry(db.journal, FxSwapRef(i))} ::
      HasEntry(db.journal, FxSwapRef(i)) <==> HasEntry(db.journal, PayoutDisbursedRef(i))
  }

  ghost predicate PricedAt(pricer: Pricer, db: DB, k: nat)
    requires k < |db.journal|
  {
    var e := db.journal[k];
    e.ref.PayoutDisbursedRef? ==>
      && e.ref.intent in db.intents && db.intents[e.ref.intent].quote in db.quotes
      && 2 <= |e.lines| && MidIn(e) == QuotedMid(pricer, db, e.ref.intent)
  }

  ghost predicate Priced(pricer: Pricer, db: DB) {
    forall k {:trigger PricedAt(pricer, db, k)} :: 0 <= k < |db.journal| ==> PricedAt(pricer, db, k)
  }

  lemma PricedGrows(pricer: Pricer, db: DB, db': DB)
    requires Priced(pricer, db) && Grows(db, db')
    ensures forall k {:trigger PricedAt(pricer, db', k)} :: 0 <= k < |db.journal| ==> PricedAt(pricer, db', k)
  {
    forall k | 0 <= k < |db.journal| ensures PricedAt(pricer, db', k) {
      assert PricedAt(pricer, db, k);
      assert db'.journal[k] == db.journal[k];
    }
  }

  /** What each step does to the journal. */
  lemma StepJournal(db: DB, i: Id, step: Step, env: Env)
    requires PayoutsOk(db) && RunStep(db, i, step, env).outcome.Commit?
    ensures var db' := RunStep(db, i, step, env).outcome.db;
            match step
            case StepCreditDeposit =>
              FinalizedDeposit(db.onchain, i).Some?
              && db'.journal == Posted(db, CreditEntry(i, FinalizedDeposit(db.onchain, i).value)).journal
            case StepApplyPayoutResult =>
              i in db.intents && db.intents[i].quote in db.quotes
              && db'.journal == WithSettlement(db, i, QuotedMid(env.pricer, db, i)).journal
            case _ => db'.journal == db.journal
  {
    match step
    case StepCreditDeposit => CreditShape(db, i, env);
    case StepTriggerPayout => TriggerShape(db, i, env);
    case StepApplyPayoutResult => ApplyShape(db, i, env);
    case StepEmitCompleted => EmitShape(db, i, env);
    case StepUnknown(_) =>
  }

  /** Only a committed step writes the journal. */
  lemma JournalWrites(s: Sys, a: Action)
    requires Enabled(s, a)
    ensures Next(s, a).pricer == s.pricer
    ensures Next(s, a).db.journal ==
            if a.Run? && RunStep(s.db, s.inflight[a.worker].intent, s.inflight[a.worker].step, a.env).outcome.Commit?
            then RunStep(s.db, s.inflight[a.worker].intent, s.inflight[a.worker].step, a.env).outcome.db.journal
            else s.db.journal
  {
    match a case Run(_, _, _) => case Observe(_, _, _, _) => case Record(_, _) => case _ =>
  }

  lemma PostedHas(db: DB, e: JournalEntry, ref: Ref)
    ensures HasEntry(Posted(db, e).journal, ref) <==> HasEntry(db.journal, ref) || e.ref == ref
  {
    HasEntrySnoc(db.journal, e, ref);
  }

  lemma PairedStep(db: DB, db': DB, i: Id, step: Step, env: Env)
    requires Paired(db) && PayoutsOk(db) && RunStep(db, i, step, env).outcome.Commit?
    requires db'.journal == RunStep(db, i, step, env).outcome.db.journal
    ensures Paired(db')
  {
    StepJournal(db, i, step, env);
    forall x ensures HasEntry(db'.journal, FxSwapRef(x)) <==> HasEntry(db'.journal, PayoutDisbursedRef(x)) {
      assert HasEntry(db.journal, FxSwapRef(x)) <==> HasEntry(db.journal, PayoutDisbursedRef(x));
      if step == StepCreditDeposit {
        var e := CreditEntry(i, FinalizedDeposit(db.onchain, i).value);
        PostedHas(db, e, FxSwapRef(x));
        PostedHas(db, e, PayoutDisbursedRef(x));
      } else if step == StepApplyPayoutResult {
        SettlementHas(db, i, QuotedMid(env.pricer, db, i), x);
      }
    }
  }

  lemma SettlementHas(db: DB, i: Id, mid: int, x: Id)
    requires i in db.intents
    ensures HasEntry(WithSettlement(db, i, mid).journal, FxSwapRef(x)) <==> HasEntry(db.journal, FxSwapRef(x)) || x == i
    ensures HasEntry(WithSettlement(db, i, mid).journal, PayoutDisbursedRef(x)) <==>
              HasEntry(db.journal, PayoutDisbursedRef(x)) || x == i
  {
    var e1, e2 := FxSwapEntry(i, db.intents[i].quotedUsdc), DisbursedEntry(i, mid, db.intents[i].amountIdr);
    var db1 := Posted(db, e1);
    PostedHas(db, e1, FxSwapRef(x));
    PostedHas(db, e1, PayoutDisbursedRef(x));
    PostedHas(db1, e2, FxSwapRef(x));
    PostedHas(db1, e2, PayoutDisbursedRef(x));
  }

  lemma PricedStep(db: DB, db': DB, i: Id, step: Step, env: Env)
    requires Priced(env.pricer, db) && PayoutsOk(db) && Grows(db, db') && RunStep(db, i, step, env).outcome.Commit?
    requires db'.journal == RunStep(db, i, step, env).outcome.db.journal
    ensures Priced(env.pricer, db')
  {
    StepJournal(db, i, step, env);
    PricedGrows(env.pricer, db, db');
    if step == StepApplyPayoutResult { PricedSettlement(env.pricer, db, db', i); }
  }

  lemma PricedSettlement(pricer: Pricer, db: DB, db': DB, i: Id)
    requires i in db.intents && db.intents[i].quote in db.quotes && Grows(db, db')
    requires db'.journal == WithSettlement(db, i, QuotedMid(pricer, db, i)).journal
    ensures forall k {:trigger PricedAt(pricer, db', k)} :: |db.journal| <= k < |db'.journal| ==>
              PricedAt(pricer, db', k)
  {
    var mid := QuotedMid(pricer, db, i);
    assert QuotedMid(pricer, db', i) == mid;
    forall k | |db.journal| <= k < |db'.journal| ensures PricedAt(pricer, db', k) {
      SettlementAdds(db, i, mid, k);
    }
  }

  lemma SettlementAdds(db: DB, i: Id, mid: int, k: nat)
    requires i in db.intents && |db.journal| <= k < |WithSettlement(db, i, mid).journal|
    ensures var e := WithSettlement(db, i, mid).journal[k];
            e == FxSwapEntry(i, db.intents[i].quotedUsdc) || e == DisbursedEntry(i, mid, db.intents[i].amountIdr)
  {
    var e1 := FxSwapEntry(i, db.intents[i].quotedUsdc);
    PostedAdds(db, e1);
    PostedAdds(Posted(db, e1), DisbursedEntry(i, mid, db.intents[i].amountIdr));
  }

  lemma PostedAdds(db: DB, e: JournalEntry)
    ensures Posted(db, e).journal in {db.journal, db.journal + [e]}
  {
  }

  ghost predicate EffectInv(s: Sys) {
    Inv(s) && Paired(s.db) && Priced(s.pricer, s.db)
  }

  lemma EffectStep(s: Sys, a: Action)
    requires EffectInv(s) && Enabled(s, a)
    ensures EffectInv(Next(s, a))
  {
    Adversarial.InvStep(s, a);
    JournalWrites(s, a);
    var s' := Next(s, a);
    if a.Run? && s'.db.journal != s.db.journal {
      var c := s.inflight[a.worker];
      PairedStep(s.db, s'.db, c.intent, c.step, a.env);
      PricedStep(s.db, s'.db, c.intent, c.step, a.env);
    } else {
      PricedGrows(s.pricer, s.db, s'.db);
    }
  }

  lemma {:induction false} EffectsHold(states: seq<Sys>, acts: seq<Action>, n: nat)
    requires IsRun(states, acts) && n < |states|
    ensures EffectInv(states[n])
  {
    if n == 0 {
      Adversarial.InitInv(states[0]);
    } else {
      EffectsHold(states, acts, n - 1);
      assert ActsAt(states, acts, n - 1);
      EffectStep(states[n - 1], acts[n - 1]);
    }
  }

  // ---- The theorem ----

  lemma OnePass(s: Sys, i: Id) returns (d: Deposit, steps: nat)
    requires EffectInv(s) && i in s.db.intents
    ensures i in s.db.intents && s.db.intents[i].quote in s.db.quotes
    ensures steps in {0, 1, 3}
    ensures steps > 0 ==> d in s.db.onchain && FinalizedFor(d, i)
    ensures EntriesOf(s.db.journal, i) == CleanPass(i, d, s.db.intents[i], QuotedMid(s.pricer, s.db, i), steps)
  {
    assert IntentOk(s.db, i);
    var es := EntriesOf(s.db.journal, i);
    EntriesOrdered(s.db.journal, i);
    assert HasEntry(s.db.journal, FxSwapRef(i)) <==> HasEntry(s.db.journal, PayoutDisbursedRef(i));
    steps := |es|;
    d := Deposit(0, 0, Processed, None);
    if steps >= 1 { d := CreditedDeposit(s, i); }
    if steps >= 3 {
      SwapEntry(s, i);
      DisbursementEntry(s, i);
    }
  }

  lemma CreditedDeposit(s: Sys, i: Id) returns (d: Deposit)
    requires EffectInv(s) && 1 <= |EntriesOf(s.db.journal, i)|
    requires EntriesOf(s.db.journal, i)[0].ref == CreditDepositRef(i)
    ensures d in s.db.onchain && FinalizedFor(d, i) && EntriesOf(s.db.journal, i)[0] == CreditEntry(i, d)
  {
    EntriesFrom(s.db.journal, i, 0);
    var k :| 0 <= k < |s.db.journal| && s.db.journal[k] == EntriesOf(s.db.journal, i)[0];
    assert EntryOk(s.db, s.db.journal[k]);
    var m :| 0 <= m < |s.db.onchain| && FinalizedFor(s.db.onchain[m], i)
      && s.db.journal[k] == CreditEntry(i, s.db.onchain[m]);
    d := s.db.onchain[m];
  }

  lemma SwapEntry(s: Sys, i: Id)
    requires EffectInv(s) && i in s.db.intents
    requires 2 <= |EntriesOf(s.db.journal, i)| && EntriesOf(s.db.journal, i)[1].ref == FxSwapRef(i)
    ensures EntriesOf(s.db.journal, i)[1] == FxSwapEntry(i, s.db.intents[i].quotedUsdc)
  {
    EntriesFrom(s.db.journal, i, 1);
    var k :| 0 <= k < |s.db.journal| && s.db.journal[k] == EntriesOf(s.db.journal, i)[1];
    assert EntryOk(s.db, s.db.journal[k]);
  }

  lemma DisbursementEntry(s: Sys, i: Id)
    requires EffectInv(s) && i in s.db.intents && s.db.intents[i].quote in s.db.quotes
    requires 3 <= |EntriesOf(s.db.journal, i)| && EntriesOf(s.db.journal, i)[2].ref == PayoutDisbursedRef(i)
    ensures EntriesOf(s.db.journal, i)[2] == DisbursedEntry(i, QuotedMid(s.pricer, s.db, i), s.db.intents[i].amountIdr)
  {
    EntriesFrom(s.db.journal, i, 2);
    var k :| 0 <= k < |s.db.journal| && s.db.journal[k] == EntriesOf(s.db.journal, i)[2];
    assert EntryOk(s.db, s.db.journal[k]);
    assert PricedAt(s.pricer, s.db, k);
  }

  /** In every state of every run, replays and stale workers included, an intent's entries are those
      of one clean pass cut after some step: at most one each of credit_deposit, fx_swap_usdc and
      payout_disbursed, all for one and the same finalized deposit of that intent. */
  lemma ExactlyOnceEffect(states: seq<Sys>, acts: seq<Action>, n: nat, i: Id)
    requires IsRun(states, acts) && n < |states| && i in states[n].db.intents
    ensures states[n].db.intents[i].quote in states[n].db.quotes
    ensures exists d: Deposit, steps: nat ::
              && steps <= 4 && (steps > 0 ==> d in states[n].db.onchain && FinalizedFor(d, i))
              && EntriesOf(states[n].db.journal, i)
                 == CleanPass(i, d, states[n].db.intents[i], QuotedMid(states[n].pricer, states[n].db, i), steps)
  {
    EffectsHold(states, acts, n);
    var d, steps := OnePass(states[n], i);
  }

  /** `db'` is what the step commits from `db`. */
  ghost predicate Commits(db: DB, i: Id, step: Step, env: Env, db': DB) {
    RunStep(db, i, step, env).outcome.Commit? && RunStep(db, i, step, env).outcome.db == db'
  }

  const PASS := [StepCreditDeposit, StepTriggerPayout, StepApplyPayoutResult, StepEmitCompleted]

  ghost predicate PassStep(dbs: seq<DB>, envs: seq<Env>, i: Id, k: nat)
    requires k < 4 && |dbs| == 5 && |envs| == 4
  {
    Commits(dbs[k], i, PASS[k], envs[k], dbs[k + 1])
  }

  /** The four steps of intent `i`, each committed once, in order. */
  ghost predicate IsPass(dbs: seq<DB>, envs: seq<Env>, i: Id) {
    && |dbs| == 5 && |envs| == 4
    && forall k {:trigger PassStep(dbs, envs, i, k)} :: 0 <= k < 4 ==> PassStep(dbs, envs, i, k)
  }

  ghost predicate Fresh(db: DB, i: Id) {
    && CoreOk(db) && SagasOk(db) && i in db.sagas && Reached(db, i, StepCreditDeposit)
    && EntriesOf(db.journal, i) == []
  }

  /** `CleanPass` is what a clean pass does: from a state with no entry for the intent, the four
      steps, each committed once, have posted exactly that list after each step. */
  lemma CleanPassIsPosted(dbs: seq<DB>, envs: seq<Env>, i: Id, k: nat)
    requires IsPass(dbs, envs, i) && Fresh(dbs[0], i) && k <= 4
    ensures FinalizedDeposit(dbs[0].onchain, i).Some? && dbs[0].intents[i].quote in dbs[0].quotes
    ensures EntriesOf(dbs[k].journal, i)
         == CleanPass(i, FinalizedDeposit(dbs[0].onchain, i).value, dbs[0].intents[i],
                      QuotedMid(envs[2].pricer, dbs[0], i), k)
  {
    Credits(dbs, envs, i);
    Settles(dbs, envs, i);
    CleanPassAt(i, FinalizedDeposit(dbs[0].onchain, i).value, dbs[0].intents[i],
                QuotedMid(envs[2].pricer, dbs[0], i), k);
  }

  lemma CleanPassAt(i: Id, d: Deposit, intent: Intent, mid: int, k: nat)
    ensures k == 0 ==> CleanPass(i, d, intent, mid, k) == []
    ensures 1 <= k <= 2 ==> CleanPass(i, d, intent, mid, k) == [CreditEntry(i, d)]
    ensures 3 <= k ==>
              CleanPass(i, d, intent, mid, k)
              == [CreditEntry(i, d)] + [FxSwapEntry(i, intent.quotedUsdc), DisbursedEntry(i, mid, intent.amountIdr)]
  {
  }

  lemma Credits(dbs: seq<DB>, envs: seq<Env>, i: Id)
    requires IsPass(dbs, envs, i) && Fresh(dbs[0], i)
    ensures FinalizedDeposit(dbs[0].onchain, i).Some?
    ensures EntriesOf(dbs[1].journal, i) == [CreditEntry(i, FinalizedDeposit(dbs[0].onchain, i).value)]
    ensures !HasEntry(dbs[1].journal, FxSwapRef(i)) && !HasEntry(dbs[1].journal, PayoutDisbursedRef(i))
  {
    assert PassStep(dbs, envs, i, 0);
    FirstHalf(dbs[0], dbs[1], i, envs[0]);
  }

  lemma Pays(dbs: seq<DB>, envs: seq<Env>, i: Id)
    requires IsPass(dbs, envs, i) && Fresh(dbs[0], i)
    ensures CoreOk(dbs[2]) && SagasOk(dbs[2]) && i in dbs[2].sagas && Reached(dbs[2], i, StepApplyPayoutResult)
    ensures Grows(dbs[0], dbs[2]) && dbs[2].journal == dbs[1].journal && dbs[0].intents[i].quote in dbs[0].quotes
  {
    CreditReaches(dbs, envs, i);
    assert PassStep(dbs, envs, i, 1);
    PaysOnce(dbs[1], dbs[2], i, envs[1]);
    GrowsTransitive(dbs[0], dbs[1], dbs[2]);
    assert IntentOk(dbs[0], i);
  }

  lemma CreditReaches(dbs: seq<DB>, envs: seq<Env>, i: Id)
    requires IsPass(dbs, envs, i) && Fresh(dbs[0], i)
    ensures CoreOk(dbs[1]) && SagasOk(dbs[1]) && i in dbs[1].sagas && Grows(dbs[0], dbs[1])
    ensures Reached(dbs[1], i, StepTriggerPayout)
  {
    assert PassStep(dbs, envs, i, 0);
    OneStep(dbs[0], dbs[1], i, StepCreditDeposit, envs[0], StepTriggerPayout);
  }

  lemma PaysOnce(db: DB, db': DB, i: Id, env: Env)
    requires CoreOk(db) && SagasOk(db) && i in db.sagas && Reached(db, i, StepTriggerPayout)
    requires Commits(db, i, StepTriggerPayout, env, db')
    ensures CoreOk(db') && SagasOk(db') && i in db'.sagas && Reached(db', i, StepApplyPayoutResult)
    ensures Grows(db, db') && db'.journal == db.journal
  {
    OneStep(db, db', i, StepTriggerPayout, env, StepApplyPayoutResult);
    StepJournal(db, i, StepTriggerPayout, env);
  }

  lemma Settles(dbs: seq<DB>, envs: seq<Env>, i: Id)
    requires IsPass(dbs, envs, i) && Fresh(dbs[0], i)
    ensures dbs[0].intents[i].quote in dbs[0].quotes
    ensures dbs[2].journal == dbs[1].journal && dbs[4].journal == dbs[3].journal
    ensures EntriesOf(dbs[3].journal, i) == EntriesOf(dbs[1].journal, i)
              + [FxSwapEntry(i, dbs[0].intents[i].quotedUsdc),
                 DisbursedEntry(i, QuotedMid(envs[2].pricer, dbs[0], i), dbs[0].intents[i].amountIdr)]
  {
    Credits(dbs, envs, i);
    Pays(dbs, envs, i);
    assert PassStep(dbs, envs, i, 2);
    SecondHalf(dbs[0], dbs[2], dbs[3], i, envs[2]);
    assert PassStep(dbs, envs, i, 3);
    LastStep(dbs[2], dbs[3], dbs[4], i, envs[2], envs[3]);
  }

  lemma LastStep(db2: DB, db3: DB, db4: DB, i: Id, e2: Env, e3: Env)
    requires CoreOk(db2) && SagasOk(db2) && i in db2.sagas && Reached(db2, i, StepApplyPayoutResult)
    requires Commits(db2, i, StepApplyPayoutResult, e2, db3) && Commits(db3, i, StepEmitCompleted, e3, db4)
    ensures db4.journal == db3.journal
  {
    OneStep(db2, db3, i, StepApplyPayoutResult, e2, StepEmitCompleted);
    StepJournal(db3, i, StepEmitCompleted, e3);
  }

  lemma OneStep(db: DB, db': DB, i: Id, step: Step, env: Env, next: Step)
    requires CoreOk(db) && SagasOk(db) && i in db.sagas && Reached(db, i, step) && Commits(db, i, step, env, db')
    requires Timely.Following(step) == Some(next)
    ensures CoreOk(db') && SagasOk(db') && i in db'.sagas && Grows(db, db') && Reached(db', i, next)
  {
    Adversarial.RunStepKeeps(db, i, step, env);
    NextStep(db, i, step, env, next);
    assert SagaOk(db', i);
  }

  lemma NextStep(db: DB, i: Id, step: Step, env: Env, next: Step)
    requires PayoutsOk(db) && RunStep(db, i, step, env).outcome.Commit? && Timely.Following(step) == Some(next)
    ensures i in RunStep(db, i, step, env).outcome.db.sagas
    ensures RunStep(db, i, step, env).outcome.db.sagas[i].step == next
  {
    Timely.SagaShape(db, i, step, env);
  }

  lemma FirstHalf(db0: DB, db1: DB, i: Id, env: Env)
    requires CoreOk(db0) && EntriesOf(db0.journal, i) == [] && Commits(db0, i, StepCreditDeposit, env, db1)
    ensures FinalizedDeposit(db0.onchain, i).Some?
    ensures EntriesOf(db1.journal, i) == [CreditEntry(i, FinalizedDeposit(db0.onchain, i).value)]
    ensures !HasEntry(db1.journal, FxSwapRef(i)) && !HasEntry(db1.journal, PayoutDisbursedRef(i))
  {
    StepJournal(db0, i, StepCreditDeposit, env);
    EntriesOrdered(db0.journal, i);
    var e := CreditEntry(i, FinalizedDeposit(db0.onchain, i).value);
    EntriesSnoc(db0.journal, e, i);
    PostedHas(db0, e, FxSwapRef(i));
    PostedHas(db0, e, PayoutDisbursedRef(i));
  }

  lemma SecondHalf(db0: DB, db2: DB, db3: DB, i: Id, env: Env)
    requires i in db0.intents && db0.intents[i].quote in db0.quotes && Grows(db0, db2) && PayoutsOk(db2)
    requires !HasEntry(db2.journal, FxSwapRef(i)) && !HasEntry(db2.journal, PayoutDisbursedRef(i))
    requires Commits(db2, i, StepApplyPayoutResult, env, db3)
    ensures EntriesOf(db3.journal, i) == EntriesOf(db2.journal, i)
              + [FxSwapEntry(i, db0.intents[i].quotedUsdc),
                 DisbursedEntry(i, QuotedMid(env.pricer, db0, i), db0.intents[i].amountIdr)]
  {
    StepJournal(db2, i, StepApplyPayoutResult, env);
    var mid := QuotedMid(env.pricer, db2, i);
    var e1, e2 := FxSwapEntry(i, db2.intents[i].quotedUsdc), DisbursedEntry(i, mid, db2.intents[i].amountIdr);
    PostedHas(db2, e1, PayoutDisbursedRef(i));
    EntriesSnoc(db2.journal, e1, i);
    EntriesSnoc(db2.journal + [e1], e2, i);
    assert db3.journal == db2.journal + [e1] + [e2];
  }
}
