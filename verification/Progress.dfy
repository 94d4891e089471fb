/** A step that meets no fault commits: validation, the triggers and the guards never stand in the
    way of a saga whose step was reached, except for missing bank details and a negative spread. */
module Progress {
  import opened Options
  import opened MachineInts
  import opened Schema
  import opened Steps
  import opened Protocol
  import opened Safety
  import Adversarial
  import Balances
  import Ledger

  predicate Plain(l: Ledger.Line) {
    0 < l.amount && (l.currency == USDC || l.currency == IDR) && !l.direction.OtherDirection?
  }

  lemma TwoCleanLines(a: Ledger.Line, b: Ledger.Line)
    requires Plain(a) && Plain(b)
    ensures Ledger.FirstLineError([a, b]).None?
  {
    CleanLine(a);
    CleanLine(b);
    assert [a, b][..1] == [a];
    assert [a][..0] == [];
    assert Ledger.FirstLineError([a]).None?;
  }

  lemma LinesClean(db: DB, e: JournalEntry)
    requires CoreOk(db) && EntryOk(db, e)
    ensures e.lines != [] && Ledger.FirstLineError(e.lines).None?
  {
    match e.ref
    case CreditDepositRef(i) =>
      var k :| 0 <= k < |db.onchain| && FinalizedFor(db.onchain[k], i) && e == CreditEntry(i, db.onchain[k]);
      assert DepositOk(db, k);
      TwoCleanLines(e.lines[0], e.lines[1]);
    case FxSwapRef(i) =>
      assert IntentOk(db, i);
      TwoCleanLines(e.lines[0], e.lines[1]);
    case PayoutDisbursedRef(i) =>
      assert IntentOk(db, i);
      DisbursedClean(MidIn(e), db.intents[i].amountIdr);
  }

  lemma DisbursedClean(mid: int, paid: int)
    requires 0 < paid <= mid
    ensures Ledger.FirstLineError(DisbursedLines(mid, paid)).None?
  {
    var lines := DisbursedLines(mid, paid);
    TwoCleanLines(lines[0], lines[1]);
    if mid > paid {
      assert lines[..2] == [lines[0], lines[1]];
      CleanLine(lines[2]);
    } else {
      assert lines == [lines[0], lines[1]];
    }
  }

  lemma CleanLine(l: Ledger.Line)
    requires Plain(l)
    ensures Ledger.LineError(l).None?
  {
    assert USDC[0] == 'U' && IDR[0] == 'I';
  }

  lemma RefNotBlank(e: JournalEntry)
    ensures !Ledger.Blank(e.ref.Text())
  {
    match e.ref
    case CreditDepositRef(_) => assert e.ref.Text()[0] == 'c';
    case FxSwapRef(_) => assert e.ref.Text()[0] == 'f';
    case PayoutDisbursedRef(_) => assert e.ref.Text()[0] == 'p';
  }

  /** Every entry the steps build passes Validate and the currency trigger. */
  lemma EntryAccepted(db: DB, e: JournalEntry)
    requires CoreOk(db) && EntryOk(db, e)
    ensures PostTx(db, e) == Some(Posted(db, e))
  {
    RefNotBlank(e);
    assert "deposit_credit"[0] == 'd' && "fx_swap_usdc"[0] == 'f' && "payout_disbursed"[0] == 'p';
    assert !Ledger.Blank(e.kind);
    LinesClean(db, e);
    EntryBalanced(db, e);
    assert Ledger.BalancedModulo(e.lines) by {
      forall c ensures Ledger.Net(e.lines, c) % TWO_64 == 0 { assert Ledger.Net(e.lines, c) == 0; }
    }
    Balances.EntryLinesAllowed(db, e);
    assert PostingsAllowed(db, e.lines);
  }

  ghost predicate Faultless(env: Env) {
    env.early == NoFault && !env.late && env.railKnown && env.reply == RailSuccess && env.landed
  }

  /** What the code itself demands beyond a fault-free environment. */
  ghost predicate Payable(db: DB, i: Id, step: Step, env: Env) {
    && i in db.intents
    && (step == StepTriggerPayout ==>
          db.intents[i].merchant in db.merchants && HasBankDetails(db.merchants[db.intents[i].merchant]))
    && (step == StepApplyPayoutResult ==>
          db.intents[i].quote in db.quotes && db.intents[i].amountIdr <= QuotedMid(env.pricer, db, i))
  }

  lemma CreditCommits(db: DB, i: Id, env: Env)
    requires CoreOk(db) && i in db.sagas && i in db.intents && env.early == NoFault
    ensures CreditDeposit(db, i, env).Commit?
  {
    assert HasFinalized(db.onchain, i);
    var d := FinalizedDeposit(db.onchain, i).value;
    var k :| 0 <= k < |db.onchain| && db.onchain[k] == d;
    var e := CreditEntry(i, d);
    assert EntryOk(db, e);
    EntryAccepted(db, e);
    Balances.SeededTypes(db);
  }

  lemma ApplyCommits(db: DB, i: Id, env: Env)
    requires CoreOk(db) && Reached(db, i, StepApplyPayoutResult) && env.early == NoFault
    requires Payable(db, i, StepApplyPayoutResult, env)
    ensures ApplyPayoutResult(db, i, env).Commit?
  {
    var mid := QuotedMid(env.pricer, db, i);
    var e1, e2 := FxSwapEntry(i, db.intents[i].quotedUsdc), DisbursedEntry(i, mid, db.intents[i].amountIdr);
    assert EntryOk(db, e1);
    EntryAccepted(db, e1);
    PostedKeeps(db, e1);
    var db1 := Posted(db, e1);
    assert EntryOk(db1, e2);
    EntryAccepted(db1, e2);
    Balances.SeededTypes(db);
    SeededExpense(db);
  }

  lemma SeededExpense(db: DB)
    requires db.accounts == SEEDED
    ensures FX_EXPENSE in db.accounts && FX_REVENUE in db.accounts
  {
  }

  lemma StepCommits(db: DB, i: Id, step: Step, env: Env)
    requires CoreOk(db) && i in db.sagas && Reached(db, i, step) && Faultless(env) && Payable(db, i, step, env)
    ensures Execute(db, i, step, env).outcome.Commit?
  {
    match step
    case StepCreditDeposit => CreditCommits(db, i, env);
    case StepTriggerPayout =>
    case StepApplyPayoutResult => ApplyCommits(db, i, env);
    case StepEmitCompleted =>
  }

  /** From any state the invariant allows, a reached step that meets no fault commits. */
  lemma FaultlessStepCommits(db: DB, i: Id, step: Step, env: Env)
    requires CoreOk(db) && i in db.sagas && Reached(db, i, step) && Faultless(env) && Payable(db, i, step, env)
    ensures RunStep(db, i, step, env).outcome.Commit?
  {
    StepCommits(db, i, step, env);
    Adversarial.StepKeeps(db, i, step, env);
    NewEntriesBalanced(db, Execute(db, i, step, env).outcome.db);
  }

  lemma CommitNeedsPayable(db: DB, i: Id, step: Step, env: Env)
    requires PayoutsOk(db) && RunStep(db, i, step, env).outcome.Commit?
    ensures Payable(db, i, step, env)
  {
    match step
    case StepApplyPayoutResult => ApplyShape(db, i, env);
    case StepTriggerPayout => TriggerShape(db, i, env);
    case _ =>
  }

  /** Without a fault a reached step commits exactly when the merchant has bank details and the mid
      value covers the payout, and otherwise fails for good. */
  lemma FaultlessStepExactly(db: DB, i: Id, step: Step, env: Env)
    requires CoreOk(db) && i in db.sagas && Reached(db, i, step) && Faultless(env)
    requires db.intents[i].merchant in db.merchants
    ensures RunStep(db, i, step, env).outcome.Commit? <==> Payable(db, i, step, env)
    ensures !Payable(db, i, step, env) ==> RunStep(db, i, step, env) == StepRun(Abort(true), None)
  {
    assert IntentOk(db, i);
    if Payable(db, i, step, env) { FaultlessStepCommits(db, i, step, env); }
  }

  lemma NewEntriesBalanced(db: DB, db': DB)
    requires CoreOk(db')
    ensures DeferredChecksPass(db, db')
  {
    forall k | |db.journal| <= k < |db'.journal| ensures Ledger.Balanced(db'.journal[k].lines) {
      assert EntryOk(db', db'.journal[k]);
      EntryBalanced(db', db'.journal[k]);
    }
  }
}
