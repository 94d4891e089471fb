/** Safety of settlement in the adversarial regime: leases may expire under a live worker, stale
    workers commit, and commits may be misreported. The saga row itself can then be overwritten;
    intents, payouts, the journal and the deposits only ever grow. */
module Safety {
  import opened Options
  import opened MachineInts
  import opened Schema
  import opened Steps
  import opened Protocol
  import Ledger
  import Outbox

  /** Progress of an intent; the failure states have none. */
  function Rank(s: IntentState): int {
    match s
    case Pending => 0 case Funded => 1 case Settling => 2 case PaidOut => 3 case Completed => 4
    case Expired => -1 case IntentFailed => -1
  }

  // ---- What only grows ----

  ghost predicate IntentsGrow(db: DB, db': DB) {
    forall i :: i in db.intents ==>
      && i in db'.intents && Rank(db.intents[i].state) <= Rank(db'.intents[i].state)
      && db'.intents[i] == db.intents[i].(state := db'.intents[i].state)
  }

  ghost predicate DepositsGrow(o: seq<Deposit>, o': seq<Deposit>) {
    && |o| <= |o'|
    && forall k :: 0 <= k < |o| ==>
         && o'[k].signature == o[k].signature && o'[k].amount == o[k].amount
         && CommitmentRank(o[k].commitment) <= CommitmentRank(o'[k].commitment)
         && (o[k].intent.Some? ==> o'[k].intent == o[k].intent)
  }

  /** The dispatcher may update delivery columns; what a row says and to whom stays. */
  ghost predicate OutboxGrows(rows: seq<Outbox.Row<CompletedEvent>>, rows': seq<Outbox.Row<CompletedEvent>>) {
    && |rows| <= |rows'|
    && forall k :: 0 <= k < |rows| ==>
         rows'[k].topic == rows[k].topic && rows'[k].aggregate == rows[k].aggregate
           && rows'[k].payload == rows[k].payload
  }

  ghost predicate Grows(db: DB, db': DB) {
    && db'.accounts == db.accounts
    && IntentsGrow(db, db')
    && (forall q :: q in db.quotes ==> q in db'.quotes && db'.quotes[q] == db.quotes[q])
    && (forall i :: i in db.payouts ==> i in db'.payouts && db'.payouts[i] == db.payouts[i])
    && db.journal <= db'.journal
    && DepositsGrow(db.onchain, db'.onchain)
    && db.sagas.Keys <= db'.sagas.Keys
    && OutboxGrows(db.outbox, db'.outbox)
  }

  lemma SameGrows(db: DB)
    ensures Grows(db, db)
  {
  }

  lemma GrowsTransitive(a: DB, b: DB, c: DB)
    requires Grows(a, b) && Grows(b, c)
    ensures Grows(a, c)
  {
    assert forall k :: 0 <= k < |a.journal| ==> a.journal[k] == b.journal[k] == c.journal[k];
  }

  // ---- What a step finds when it starts ----

  ghost predicate Reached(db: DB, i: Id, step: Step) {
    && i in db.intents
    && match step
       case StepCreditDeposit => true
       case StepTriggerPayout => 1 <= Rank(db.intents[i].state) && HasEntry(db.journal, CreditDepositRef(i))
       case StepApplyPayoutResult =>
         && 2 <= Rank(db.intents[i].state) && HasEntry(db.journal, CreditDepositRef(i))
         && i in db.payouts && db.payouts[i].state == PayoutSucceeded
       case StepEmitCompleted =>
         && 3 <= Rank(db.intents[i].state) && HasEntry(db.journal, CreditDepositRef(i))
         && i in db.payouts && db.payouts[i].state == PayoutSucceeded
         && HasEntry(db.journal, FxSwapRef(i)) && HasEntry(db.journal, PayoutDisbursedRef(i))
       case StepUnknown(_) => false
  }

  ghost predicate Announced(rows: seq<Outbox.Row<CompletedEvent>>, i: Id) {
    exists k :: 0 <= k < |rows| && rows[k].aggregate == Some(i) && rows[k].topic == COMPLETED_TOPIC
  }

  ghost predicate Done(db: DB, i: Id) {
    Reached(db, i, StepEmitCompleted) && db.intents[i].state == Completed && Announced(db.outbox, i)
  }

  lemma HasEntryGrows(j: seq<JournalEntry>, j': seq<JournalEntry>, ref: Ref)
    requires j <= j' && HasEntry(j, ref)
    ensures HasEntry(j', ref)
  {
    var k :| 0 <= k < |j| && j[k].ref == ref;
    assert j'[k] == j[k];
  }

  lemma ReachedGrows(db: DB, db': DB, i: Id, step: Step)
    requires Grows(db, db') && Reached(db, i, step)
    ensures Reached(db', i, step)
  {
    if HasEntry(db.journal, CreditDepositRef(i)) { HasEntryGrows(db.journal, db'.journal, CreditDepositRef(i)); }
    if HasEntry(db.journal, FxSwapRef(i)) { HasEntryGrows(db.journal, db'.journal, FxSwapRef(i)); }
    if HasEntry(db.journal, PayoutDisbursedRef(i)) { HasEntryGrows(db.journal, db'.journal, PayoutDisbursedRef(i)); }
  }

  lemma DoneGrows(db: DB, db': DB, i: Id)
    requires Grows(db, db') && Done(db, i)
    ensures Done(db', i)
  {
    ReachedGrows(db, db', i, StepEmitCompleted);
    var k :| 0 <= k < |db.outbox| && db.outbox[k].aggregate == Some(i) && db.outbox[k].topic == COMPLETED_TOPIC;
    assert db'.outbox[k].aggregate == db.outbox[k].aggregate && db'.outbox[k].topic == db.outbox[k].topic;
  }

  // ---- The database invariant ----

  ghost predicate IntentOk(db: DB, i: Id)
    requires i in db.intents
  {
    var t := db.intents[i];
    && 0 <= Rank(t.state) && 0 < t.amountIdr < TWO_63 && 0 < t.quotedUsdc < TWO_63
    && t.quote in db.quotes
  }

  ghost predicate IntentsOk(db: DB) {
    forall i {:trigger IntentOk(db, i)} :: i in db.intents ==> IntentOk(db, i)
  }

  /** Every committed payout succeeded, for the amount the merchant asked for. */
  ghost predicate PayoutsOk(db: DB) {
    forall i :: i in db.payouts ==>
      i in db.intents && db.payouts[i].state == PayoutSucceeded && db.payouts[i].amountIdr == db.intents[i].amountIdr
  }

  /** The mid value a payout_disbursed entry books as expense; `Pricing` says which value that is. */
  function MidIn(e: JournalEntry): int
    requires 2 <= |e.lines|
  {
    e.lines[0].amount
  }

  /** Every entry is exactly what a clean execution of its step posts. */
  ghost predicate EntryOk(db: DB, e: JournalEntry) {
    && e.ref.intent in db.intents
    && match e.ref
       case CreditDepositRef(i) =>
         exists k :: 0 <= k < |db.onchain| && FinalizedFor(db.onchain[k], i) && e == CreditEntry(i, db.onchain[k])
       case FxSwapRef(i) => e == FxSwapEntry(i, db.intents[i].quotedUsdc)
       case PayoutDisbursedRef(i) =>
         && 2 <= |e.lines| && db.intents[i].amountIdr <= MidIn(e)
         && e == DisbursedEntry(i, MidIn(e), db.intents[i].amountIdr)
  }

  ghost predicate JournalOk(db: DB) {
    forall k {:trigger EntryOk(db, db.journal[k])} :: 0 <= k < |db.journal| ==> EntryOk(db, db.journal[k])
  }

  /** external_ref is unique, and an intent's entries appear in step order. */
  ghost predicate RefOk(journal: seq<JournalEntry>, k: nat)
    requires k < |journal|
  {
    && !HasEntry(journal[..k], journal[k].ref)
    && (journal[k].ref.FxSwapRef? ==> HasEntry(journal[..k], CreditDepositRef(journal[k].ref.intent)))
    && (journal[k].ref.PayoutDisbursedRef? ==> HasEntry(journal[..k], FxSwapRef(journal[k].ref.intent)))
  }

  ghost predicate RefsOk(journal: seq<JournalEntry>) {
    forall k {:trigger RefOk(journal, k)} :: 0 <= k < |journal| ==> RefOk(journal, k)
  }

  /** signature is the primary key, amounts are positive, links respect the foreign key. */
  ghost predicate DepositOk(db: DB, k: nat)
    requires k < |db.onchain|
  {
    && 0 < db.onchain[k].amount < TWO_63
    && (db.onchain[k].intent.Some? ==> db.onchain[k].intent.value in db.intents)
    && forall j :: 0 <= j < k ==> db.onchain[j].signature != db.onchain[k].signature
  }

  ghost predicate DepositsOk(db: DB) {
    forall k {:trigger DepositOk(db, k)} :: 0 <= k < |db.onchain| ==> DepositOk(db, k)
  }

  ghost predicate HasFinalized(onchain: seq<Deposit>, i: Id) {
    exists k :: 0 <= k < |onchain| && FinalizedFor(onchain[k], i)
  }

  /** A settlement saga exists for an intent exactly when a finalized deposit is linked to it. */
  ghost predicate EnqueuedOk(db: DB) {
    forall i :: i in db.sagas <==> HasFinalized(db.onchain, i)
  }

  ghost predicate CoreOk(db: DB) {
    db.accounts == SEEDED && IntentsOk(db) && PayoutsOk(db) && JournalOk(db) && RefsOk(db.journal)
      && DepositsOk(db) && EnqueuedOk(db)
  }

  ghost predicate SagaOk(db: DB, i: Id)
    requires i in db.sagas
  {
    Reached(db, i, db.sagas[i].step) && (db.sagas[i].state == SagaCompleted ==> Done(db, i))
  }

  ghost predicate SagasOk(db: DB) {
    forall i {:trigger SagaOk(db, i)} :: i in db.sagas ==> SagaOk(db, i)
  }

  ghost predicate ClaimsOk(s: Sys) {
    forall w :: w in s.inflight ==>
      s.inflight[w].intent in s.db.sagas && Reached(s.db, s.inflight[w].intent, s.inflight[w].step)
  }

  ghost predicate Inv(s: Sys) {
    CoreOk(s.db) && SagasOk(s.db) && ClaimsOk(s)
  }

  // ---- Frame lemmas ----

  lemma EntryGrows(db: DB, db': DB, e: JournalEntry)
    requires Grows(db, db') && EntryOk(db, e)
    ensures EntryOk(db', e)
  {
    if e.ref.CreditDepositRef? {
      var k :| 0 <= k < |db.onchain| && FinalizedFor(db.onchain[k], e.ref.intent)
        && e == CreditEntry(e.ref.intent, db.onchain[k]);
      assert db'.onchain[k] == db.onchain[k];
    }
  }

  lemma JournalGrows(db: DB, db': DB)
    requires Grows(db, db') && JournalOk(db)
    ensures forall k {:trigger EntryOk(db', db'.journal[k])} :: 0 <= k < |db.journal| ==> EntryOk(db', db'.journal[k])
  {
    forall k | 0 <= k < |db.journal| ensures EntryOk(db', db'.journal[k]) {
      assert EntryOk(db, db.journal[k]);
      EntryGrows(db, db', db.journal[k]);
    }
  }

  /** Posting one well-formed entry keeps the journal in order. */
  lemma RefsSnoc(j: seq<JournalEntry>, e: JournalEntry)
    requires RefsOk(j) && !HasEntry(j, e.ref)
    requires e.ref.FxSwapRef? ==> HasEntry(j, CreditDepositRef(e.ref.intent))
    requires e.ref.PayoutDisbursedRef? ==> HasEntry(j, FxSwapRef(e.ref.intent))
    ensures RefsOk(j + [e])
  {
    var j' := j + [e];
    forall k | 0 <= k < |j'| ensures RefOk(j', k) {
      if k < |j| {
        assert RefOk(j, k);
        assert j'[..k] == j[..k];
      } else {
        assert j'[..k] == j;
      }
    }
  }

  // ---- The entries are always accepted ----

  lemma TwoLinesNet(a: Ledger.AccountId, b: Ledger.AccountId, amount: int, currency: string, c: string)
    ensures var debit := Ledger.Line(a, amount, currency, Ledger.Debit);
            var credit := Ledger.Line(b, amount, currency, Ledger.Credit);
            Ledger.Net([debit, credit], c) == 0
  {
    var lines := [Ledger.Line(a, amount, currency, Ledger.Debit), Ledger.Line(b, amount, currency, Ledger.Credit)];
    assert lines[..1] == [lines[0]];
    assert lines[..1][..0] == [];
    assert Ledger.Net(lines[..1], c) == if c == currency then amount else 0;
  }

  lemma DisbursedNet(mid: int, paid: int, c: string)
    requires paid <= mid
    ensures Ledger.Net(DisbursedLines(mid, paid), c) == 0
  {
    var lines := DisbursedLines(mid, paid);
    assert lines[..2] == [lines[0], lines[1]];
    assert lines[..2][..1] == [lines[0]];
    assert lines[..1] == [lines[0]];
    assert lines[..1][..0] == [];
    assert Ledger.Net(lines[..1], c) == if c == IDR then mid else 0;
    assert Ledger.Net(lines[..2], c) == if c == IDR then mid - paid else 0;
    if mid - paid > 0 { assert lines[..|lines| - 1] == lines[..2]; } else { assert lines == lines[..2]; }
  }

  lemma CreditBalanced(amount: int)
    ensures Ledger.Balanced(CreditLines(amount))
  {
    forall c ensures Ledger.Net(CreditLines(amount), c) == 0 { TwoLinesNet(HOT_WALLET, USER_FUNDS, amount, USDC, c); }
  }

  lemma FxSwapBalanced(amount: int)
    ensures Ledger.Balanced(FxSwapLines(amount))
  {
    forall c ensures Ledger.Net(FxSwapLines(amount), c) == 0 {
      TwoLinesNet(USER_FUNDS, FX_SETTLEMENT, amount, USDC, c);
    }
  }

  lemma DisbursedBalanced(mid: int, paid: int)
    requires paid <= mid
    ensures Ledger.Balanced(DisbursedLines(mid, paid))
  {
    forall c ensures Ledger.Net(DisbursedLines(mid, paid), c) == 0 { DisbursedNet(mid, paid, c); }
  }

  lemma EntryBalanced(db: DB, e: JournalEntry)
    requires EntryOk(db, e)
    ensures Ledger.Balanced(e.lines)
  {
    match e.ref
    case CreditDepositRef(i) =>
      var k :| 0 <= k < |db.onchain| && FinalizedFor(db.onchain[k], i) && e == CreditEntry(i, db.onchain[k]);
      CreditBalanced(db.onchain[k].amount);
    case FxSwapRef(i) => FxSwapBalanced(db.intents[i].quotedUsdc);
    case PayoutDisbursedRef(i) => DisbursedBalanced(MidIn(e), db.intents[i].amountIdr);
  }

  // ---- Each step keeps the invariant ----

  lemma PostedGrows(db: DB, e: JournalEntry)
    ensures Grows(db, Posted(db, e)) && HasEntry(Posted(db, e).journal, e.ref)
  {
    if !HasEntry(db.journal, e.ref) { assert Posted(db, e).journal[|db.journal|].ref == e.ref; }
  }

  lemma PostedJournal(db: DB, e: JournalEntry)
    requires JournalOk(db) && EntryOk(db, e)
    ensures JournalOk(Posted(db, e))
  {
    if !HasEntry(db.journal, e.ref) {
      PostedGrows(db, e);
      JournalGrows(db, Posted(db, e));
      EntryGrows(db, Posted(db, e), e);
    }
  }

  /** Posting one well-formed entry. */
  lemma PostedKeeps(db: DB, e: JournalEntry)
    requires CoreOk(db) && EntryOk(db, e)
    requires e.ref.FxSwapRef? ==> HasEntry(db.journal, CreditDepositRef(e.ref.intent))
    requires e.ref.PayoutDisbursedRef? ==> HasEntry(db.journal, FxSwapRef(e.ref.intent))
    ensures CoreOk(Posted(db, e)) && Grows(db, Posted(db, e)) && HasEntry(Posted(db, e).journal, e.ref)
  {
    var db' := Posted(db, e);
    PostedGrows(db, e);
    PostedJournal(db, e);
    DepositsFrame(db, db');
    assert RefsOk(db'.journal) by { if !HasEntry(db.journal, e.ref) { RefsSnoc(db.journal, e); } }
    assert IntentsOk(db') by { forall j | j in db'.intents ensures IntentOk(db', j) { assert IntentOk(db, j); } }
  }

  /** A change outside the journal, the deposits and the set of sagas. */
  lemma CoreFrame(db: DB, db': DB)
    requires CoreOk(db) && Grows(db, db') && IntentsOk(db') && PayoutsOk(db')
    requires db'.journal == db.journal && db'.onchain == db.onchain && db'.sagas.Keys == db.sagas.Keys
    ensures CoreOk(db')
  {
    JournalGrows(db, db');
    DepositsFrame(db, db');
  }

  lemma DepositsFrame(db: DB, db': DB)
    requires DepositsOk(db) && IntentsGrow(db, db') && db'.onchain == db.onchain
    ensures DepositsOk(db')
  {
    forall k | 0 <= k < |db'.onchain| ensures DepositOk(db', k) { assert DepositOk(db, k); }
  }

  lemma SetIntentKeeps(db: DB, i: Id, to: IntentState)
    requires CoreOk(db) && i in db.intents && 0 <= Rank(to) && Rank(db.intents[i].state) <= Rank(to)
    ensures CoreOk(SetIntentState(db, i, to)) && Grows(db, SetIntentState(db, i, to))
  {
    var db' := SetIntentState(db, i, to);
    assert IntentsGrow(db, db');
    forall j | j in db'.intents ensures IntentOk(db', j) { assert IntentOk(db, j); }
    CoreFrame(db, db');
  }

  /** Moving one intent forward. */
  lemma AdvanceIntentKeeps(db: DB, i: Id, from: IntentState, to: IntentState)
    requires CoreOk(db) && i in db.intents && 0 <= Rank(from) && Rank(to) == Rank(from) + 1
    ensures var db' := AdvanceIntent(db, i, from, to);
            && CoreOk(db') && Grows(db, db')
            && (Rank(from) <= Rank(db.intents[i].state) ==> Rank(to) <= Rank(db'.intents[i].state))
  {
    if db.intents[i].state == from { SetIntentKeeps(db, i, to); } else { SameGrows(db); }
  }

  lemma CreditEffect(db: DB, i: Id, d: Deposit)
    requires CoreOk(db) && i in db.intents && d in db.onchain && FinalizedFor(d, i)
    ensures var db' := AdvanceIntent(Posted(db, CreditEntry(i, d)), i, Pending, Funded);
            CoreOk(db') && Grows(db, db') && Reached(db', i, StepTriggerPayout)
  {
    var e := CreditEntry(i, d);
    var k :| 0 <= k < |db.onchain| && db.onchain[k] == d;
    assert EntryOk(db, e);
    PostedKeeps(db, e);
    var db1 := Posted(db, e);
    assert IntentOk(db, i);
    AdvanceIntentKeeps(db1, i, Pending, Funded);
    GrowsTransitive(db, db1, AdvanceIntent(db1, i, Pending, Funded));
  }

  lemma CreditShape(db: DB, i: Id, env: Env)
    requires CreditDeposit(db, i, env).Commit?
    ensures i in db.intents && FinalizedDeposit(db.onchain, i).Some?
    ensures var d := FinalizedDeposit(db.onchain, i).value;
            CreditDeposit(db, i, env)
              == Commit(AdvanceIntent(Posted(db, CreditEntry(i, d)), i, Pending, Funded), Some(StepTriggerPayout))
  {
  }

  lemma CreditKeeps(db: DB, i: Id, env: Env)
    requires CoreOk(db) && CreditDeposit(db, i, env).Commit?
    ensures var out := CreditDeposit(db, i, env);
            && CoreOk(out.db) && Grows(db, out.db) && out.db.sagas == db.sagas
            && out.next == Some(StepTriggerPayout) && Reached(out.db, i, StepTriggerPayout)
  {
    CreditShape(db, i, env);
    CreditEffect(db, i, FinalizedDeposit(db.onchain, i).value);
  }

  /** A payout commits only as succeeded. */
  lemma PayoutCommitKeeps(db: DB, i: Id, p: Payout)
    requires CoreOk(db) && i in db.intents && i !in db.payouts
    requires p.state == PayoutSucceeded && p.amountIdr == db.intents[i].amountIdr
    ensures var db' := db.(payouts := db.payouts[i := p]); CoreOk(db') && Grows(db, db')
  {
    var db' := db.(payouts := db.payouts[i := p]);
    forall j | j in db'.intents ensures IntentOk(db', j) { assert IntentOk(db, j); }
    CoreFrame(db, db');
  }

  /** The database a committed trigger_payout leaves, payout row first. */
  function WithPayout(db: DB, i: Id, id: Id): DB
    requires i in db.intents
  {
    if i in db.payouts then db
    else db.(payouts := db.payouts[i := Payout(id, db.intents[i].amountIdr, PayoutSucceeded, 1)])
  }

  /** trigger_payout commits in two ways only: the payout already succeeded and the rail is not
      called, or there was no payout and the rail just paid. */
  lemma TriggerShape(db: DB, i: Id, env: Env)
    requires PayoutsOk(db) && TriggerPayout(db, i, env).outcome.Commit?
    ensures i in db.intents
    ensures TriggerPayout(db, i, env).outcome == AdvanceToSettling(WithPayout(db, i, env.payoutId), i)
    ensures i in db.payouts ==> TriggerPayout(db, i, env).call == None
    ensures i !in db.payouts ==> env.reply == RailSuccess
    ensures i !in db.payouts ==>
              TriggerPayout(db, i, env).call == Some(Submission(env.payoutId, i, db.intents[i].amountIdr, env.landed))
  {
  }

  lemma TriggerEffect(db: DB, i: Id, id: Id)
    requires CoreOk(db) && Reached(db, i, StepTriggerPayout)
    ensures var db' := AdvanceIntent(WithPayout(db, i, id), i, Funded, Settling);
            CoreOk(db') && Grows(db, db') && Reached(db', i, StepApplyPayoutResult)
  {
    var db1 := WithPayout(db, i, id);
    if i !in db.payouts { PayoutCommitKeeps(db, i, db1.payouts[i]); }
    AdvanceIntentKeeps(db1, i, Funded, Settling);
    GrowsTransitive(db, db1, AdvanceIntent(db1, i, Funded, Settling));
  }

  lemma TriggerKeeps(db: DB, i: Id, env: Env)
    requires CoreOk(db) && Reached(db, i, StepTriggerPayout) && TriggerPayout(db, i, env).outcome.Commit?
    ensures var out := TriggerPayout(db, i, env).outcome;
            && CoreOk(out.db) && Grows(db, out.db) && out.db.sagas == db.sagas
            && out.next == Some(StepApplyPayoutResult) && Reached(out.db, i, StepApplyPayoutResult)
  {
    TriggerShape(db, i, env);
    TriggerEffect(db, i, env.payoutId);
  }

  /** The two entries of apply_payout_result, posted. */
  function WithSettlement(db: DB, i: Id, mid: int): DB
    requires i in db.intents
  {
    Posted(Posted(db, FxSwapEntry(i, db.intents[i].quotedUsdc)), DisbursedEntry(i, mid, db.intents[i].amountIdr))
  }

  lemma SettlementKeeps(db: DB, i: Id, mid: int)
    requires CoreOk(db) && Reached(db, i, StepApplyPayoutResult) && db.intents[i].amountIdr <= mid
    ensures var db' := WithSettlement(db, i, mid);
            && CoreOk(db') && Grows(db, db') && Reached(db', i, StepApplyPayoutResult)
            && HasEntry(db'.journal, FxSwapRef(i)) && HasEntry(db'.journal, PayoutDisbursedRef(i))
  {
    var e1, e2 := FxSwapEntry(i, db.intents[i].quotedUsdc), DisbursedEntry(i, mid, db.intents[i].amountIdr);
    PostedKeeps(db, e1);
    var db1 := Posted(db, e1);
    PostedKeeps(db1, e2);
    var db2 := Posted(db1, e2);
    GrowsTransitive(db, db1, db2);
    HasEntryGrows(db1.journal, db2.journal, FxSwapRef(i));
    ReachedGrows(db, db2, i, StepApplyPayoutResult);
  }

  function QuotedMid(pricer: Pricer, db: DB, i: Id): int
    requires i in db.intents && db.intents[i].quote in db.quotes
  {
    pricer.mid(db.intents[i].quotedUsdc, db.quotes[db.intents[i].quote])
  }

  lemma ApplyShape(db: DB, i: Id, env: Env)
    requires PayoutsOk(db) && ApplyPayoutResult(db, i, env).Commit?
    ensures i in db.intents && db.intents[i].quote in db.quotes
    ensures db.intents[i].amountIdr <= QuotedMid(env.pricer, db, i)
    ensures ApplyPayoutResult(db, i, env)
         == Commit(AdvanceIntent(WithSettlement(db, i, QuotedMid(env.pricer, db, i)), i, Settling, PaidOut),
             Some(StepEmitCompleted))
  {
  }

  lemma ApplyKeeps(db: DB, i: Id, env: Env)
    requires CoreOk(db) && Reached(db, i, StepApplyPayoutResult) && ApplyPayoutResult(db, i, env).Commit?
    ensures var out := ApplyPayoutResult(db, i, env);
            && CoreOk(out.db) && Grows(db, out.db) && out.db.sagas == db.sagas
            && out.next == Some(StepEmitCompleted) && Reached(out.db, i, StepEmitCompleted)
  {
    ApplyShape(db, i, env);
    ApplyEffect(db, i, QuotedMid(env.pricer, db, i));
  }

  lemma ApplyEffect(db: DB, i: Id, mid: int)
    requires CoreOk(db) && Reached(db, i, StepApplyPayoutResult) && db.intents[i].amountIdr <= mid
    ensures var db' := AdvanceIntent(WithSettlement(db, i, mid), i, Settling, PaidOut);
            CoreOk(db') && Grows(db, db') && Reached(db', i, StepEmitCompleted)
  {
    SettlementKeeps(db, i, mid);
    PaidOutKeeps(WithSettlement(db, i, mid), i);
    GrowsTransitive(db, WithSettlement(db, i, mid), AdvanceIntent(WithSettlement(db, i, mid), i, Settling, PaidOut));
  }

  lemma PaidOutKeeps(db: DB, i: Id)
    requires CoreOk(db) && Reached(db, i, StepApplyPayoutResult)
    requires HasEntry(db.journal, FxSwapRef(i)) && HasEntry(db.journal, PayoutDisbursedRef(i))
    ensures var db' := AdvanceIntent(db, i, Settling, PaidOut);
            CoreOk(db') && Grows(db, db') && Reached(db', i, StepEmitCompleted)
  {
    AdvanceIntentKeeps(db, i, Settling, PaidOut);
  }

  lemma OutboxKeeps(db: DB, rows: seq<Outbox.Row<CompletedEvent>>)
    requires CoreOk(db) && OutboxGrows(db.outbox, rows)
    ensures CoreOk(db.(outbox := rows)) && Grows(db, db.(outbox := rows))
  {
    var db' := db.(outbox := rows);
    forall j | j in db'.intents ensures IntentOk(db', j) { assert IntentOk(db, j); }
    CoreFrame(db, db');
  }

  lemma EmitEffect(db: DB, i: Id, rows: seq<Outbox.Row<CompletedEvent>>)
    requires CoreOk(db) && Reached(db, i, StepEmitCompleted) && db.outbox <= rows && Announced(rows, i)
    ensures var db' := AdvanceIntent(db, i, PaidOut, Completed).(outbox := rows);
            CoreOk(db') && Grows(db, db') && Done(db', i)
  {
    var db1 := AdvanceIntent(db, i, PaidOut, Completed);
    AdvanceIntentKeeps(db, i, PaidOut, Completed);
    ReachedGrows(db, db1, i, StepEmitCompleted);
    OutboxKeeps(db1, rows);
    GrowsTransitive(db, db1, db1.(outbox := rows));
  }

  lemma EmitShape(db: DB, i: Id, env: Env)
    requires EmitCompleted(db, i, env).Commit?
    ensures var out := EmitCompleted(db, i, env);
            && i in db.intents && out.next == None && db.outbox <= out.db.outbox
            && |out.db.outbox| == |db.outbox| + 1 && Announced(out.db.outbox, i)
            && out.db.outbox[|db.outbox|].aggregate == Some(i) && out.db.outbox[|db.outbox|].topic == COMPLETED_TOPIC
            && out.db == AdvanceIntent(db, i, PaidOut, Completed).(outbox := out.db.outbox)
  {
    var rows := EmitCompleted(db, i, env).db.outbox;
    assert rows[|db.outbox|].aggregate == Some(i) && rows[|db.outbox|].topic == COMPLETED_TOPIC;
  }

  lemma EmitKeeps(db: DB, i: Id, env: Env)
    requires CoreOk(db) && Reached(db, i, StepEmitCompleted) && EmitCompleted(db, i, env).Commit?
    ensures var out := EmitCompleted(db, i, env);
            && CoreOk(out.db) && Grows(db, out.db) && out.db.sagas == db.sagas
            && out.next == None && Done(out.db, i)
  {
    EmitShape(db, i, env);
    EmitEffect(db, i, EmitCompleted(db, i, env).db.outbox);
  }
}
