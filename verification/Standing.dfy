/** An intent's state says exactly which records exist for it, so the balances can be read off the
    intents table. */
module Standing {
  import opened Options
  import opened MachineInts
  import opened Schema
  import opened Steps
  import opened Protocol
  import opened Safety
  import opened Balances
  import Adversarial
  import ExactlyOnce
  import Outbox
  import Pricing
  import Timely

  // ---- State and records ----

  /** Funded and beyond iff the deposit is credited, settling and beyond iff the payout is made, paid
      out and beyond iff the swap and the disbursement are booked, completed iff announced. */
  ghost predicate Matches(db: DB, i: Id)
    requires i in db.intents
  {
    var rank := Rank(db.intents[i].state);
    && (1 <= rank <==> HasEntry(db.journal, CreditDepositRef(i)))
    && (2 <= rank <==> i in db.payouts)
    && (3 <= rank <==> HasEntry(db.journal, FxSwapRef(i)))
    && (3 <= rank <==> HasEntry(db.journal, PayoutDisbursedRef(i)))
    && (4 <= rank <==> Announced(db.outbox, i))
  }

  ghost predicate RecordsMatch(db: DB) {
    && (forall i {:trigger Matches(db, i)} :: i in db.intents ==> Matches(db, i))
    && (forall i {:trigger Announced(db.outbox, i)} :: Announced(db.outbox, i) ==> i in db.intents)
  }

  lemma CreditMatches(db: DB, i: Id, env: Env, x: Id)
    requires CoreOk(db) && CreditDeposit(db, i, env).Commit? && x in db.intents && Matches(db, x)
    ensures x in CreditDeposit(db, i, env).db.intents && Matches(CreditDeposit(db, i, env).db, x)
  {
    CreditShape(db, i, env);
    var e := CreditEntry(i, FinalizedDeposit(db.onchain, i).value);
    assert IntentOk(db, x);
    ExactlyOnce.PostedHas(db, e, CreditDepositRef(x));
    ExactlyOnce.PostedHas(db, e, FxSwapRef(x));
    ExactlyOnce.PostedHas(db, e, PayoutDisbursedRef(x));
    CreditedState(db, Posted(db, e), i, x);
  }

  lemma CreditedState(db: DB, db1: DB, i: Id, x: Id)
    requires i in db.intents && x in db.intents && Matches(db, x) && IntentOk(db, x)
    requires db1 == db.(journal := db1.journal)
    requires HasEntry(db1.journal, CreditDepositRef(x)) <==> HasEntry(db.journal, CreditDepositRef(x)) || x == i
    requires HasEntry(db1.journal, FxSwapRef(x)) <==> HasEntry(db.journal, FxSwapRef(x))
    requires HasEntry(db1.journal, PayoutDisbursedRef(x)) <==> HasEntry(db.journal, PayoutDisbursedRef(x))
    ensures x in AdvanceIntent(db1, i, Pending, Funded).intents
    ensures Matches(AdvanceIntent(db1, i, Pending, Funded), x)
  {
  }

  lemma TriggerMatches(db: DB, i: Id, env: Env, x: Id)
    requires CoreOk(db) && Reached(db, i, StepTriggerPayout) && TriggerPayout(db, i, env).outcome.Commit?
    requires x in db.intents && Matches(db, x)
    ensures x in TriggerPayout(db, i, env).outcome.db.intents && Matches(TriggerPayout(db, i, env).outcome.db, x)
  {
    TriggerShape(db, i, env);
    PaidState(db, WithPayout(db, i, env.payoutId), i, x);
  }

  lemma PaidState(db: DB, db1: DB, i: Id, x: Id)
    requires Reached(db, i, StepTriggerPayout) && x in db.intents && Matches(db, x)
    requires db1 == db.(payouts := db1.payouts) && db1.payouts.Keys == db.payouts.Keys + {i}
    ensures x in AdvanceIntent(db1, i, Funded, Settling).intents && Matches(AdvanceIntent(db1, i, Funded, Settling), x)
  {
    assert x in db1.payouts <==> x in db1.payouts.Keys;
  }

  lemma ApplyMatches(db: DB, i: Id, env: Env, x: Id)
    requires CoreOk(db) && Reached(db, i, StepApplyPayoutResult) && ApplyPayoutResult(db, i, env).Commit?
    requires x in db.intents && Matches(db, x)
    ensures x in ApplyPayoutResult(db, i, env).db.intents && Matches(ApplyPayoutResult(db, i, env).db, x)
  {
    ApplyShape(db, i, env);
    SettledMatches(db, i, QuotedMid(env.pricer, db, i), x);
  }

  lemma SettledMatches(db: DB, i: Id, mid: int, x: Id)
    requires Reached(db, i, StepApplyPayoutResult) && x in db.intents && Matches(db, x)
    ensures var db' := AdvanceIntent(WithSettlement(db, i, mid), i, Settling, PaidOut);
            x in db'.intents && Matches(db', x)
  {
    ExactlyOnce.SettlementHas(db, i, mid, x);
    SettlementCredit(db, i, mid, x);
    SettledState(db, WithSettlement(db, i, mid), i, x);
  }

  lemma SettledState(db: DB, db1: DB, i: Id, x: Id)
    requires Reached(db, i, StepApplyPayoutResult) && x in db.intents && Matches(db, x)
    requires db1 == db.(journal := db1.journal)
    requires HasEntry(db1.journal, CreditDepositRef(x)) <==> HasEntry(db.journal, CreditDepositRef(x))
    requires HasEntry(db1.journal, FxSwapRef(x)) <==> HasEntry(db.journal, FxSwapRef(x)) || x == i
    requires HasEntry(db1.journal, PayoutDisbursedRef(x)) <==> HasEntry(db.journal, PayoutDisbursedRef(x)) || x == i
    ensures x in AdvanceIntent(db1, i, Settling, PaidOut).intents
    ensures Matches(AdvanceIntent(db1, i, Settling, PaidOut), x)
  {
  }

  lemma SettlementCredit(db: DB, i: Id, mid: int, x: Id)
    requires i in db.intents
    ensures HasEntry(WithSettlement(db, i, mid).journal, CreditDepositRef(x)) <==>
              HasEntry(db.journal, CreditDepositRef(x))
  {
    var e1, e2 := FxSwapEntry(i, db.intents[i].quotedUsdc), DisbursedEntry(i, mid, db.intents[i].amountIdr);
    ExactlyOnce.PostedHas(db, e1, CreditDepositRef(x));
    ExactlyOnce.PostedHas(Posted(db, e1), e2, CreditDepositRef(x));
  }

  lemma EmitMatches(db: DB, i: Id, env: Env, x: Id)
    requires Reached(db, i, StepEmitCompleted) && EmitCompleted(db, i, env).Commit? && x in db.intents && Matches(db, x)
    ensures x in EmitCompleted(db, i, env).db.intents && Matches(EmitCompleted(db, i, env).db, x)
  {
    EmitShape(db, i, env);
    AnnouncedSnoc(db.outbox, EmitCompleted(db, i, env).db.outbox, i, x);
  }

  lemma AnnouncedSnoc(rows: seq<Outbox.Row<CompletedEvent>>, rows': seq<Outbox.Row<CompletedEvent>>, i: Id, x: Id)
    requires Timely.OneMore(rows, rows', i)
    ensures Announced(rows', x) <==> Announced(rows, x) || x == i
  {
    assert rows'[..|rows|] == rows;
    if Announced(rows, x) {
      var k :| 0 <= k < |rows| && rows[k].aggregate == Some(x) && rows[k].topic == COMPLETED_TOPIC;
      assert rows'[k] == rows[k];
    }
    if Announced(rows', x) && x != i {
      var k :| 0 <= k < |rows'| && rows'[k].aggregate == Some(x) && rows'[k].topic == COMPLETED_TOPIC;
      assert rows[k] == rows'[k];
    }
  }

  lemma RunMatches(db: DB, i: Id, step: Step, env: Env)
    requires CoreOk(db) && Reached(db, i, step) && RecordsMatch(db) && RunStep(db, i, step, env).outcome.Commit?
    ensures RecordsMatch(RunStep(db, i, step, env).outcome.db)
  {
    var db1, db' := Execute(db, i, step, env).outcome.db, RunStep(db, i, step, env).outcome.db;
    assert db' == db1.(sagas := db'.sagas);
    Pricing.ExecuteIntents(db, i, step, env);
    Adversarial.StepKeeps(db, i, step, env);
    forall x | x in db'.intents ensures Matches(db', x) {
      assert Matches(db, x);
      match step
      case StepCreditDeposit => CreditMatches(db, i, env, x);
      case StepTriggerPayout => TriggerMatches(db, i, env, x);
      case StepApplyPayoutResult => ApplyMatches(db, i, env, x);
      case StepEmitCompleted => EmitMatches(db, i, env, x);
      assert Matches(db1, x);
    }
    forall x | Announced(db'.outbox, x) ensures x in db'.intents { StepAnnounces(db, i, step, env, x); }
  }

  lemma StepAnnounces(db: DB, i: Id, step: Step, env: Env, x: Id)
    requires PayoutsOk(db) && RecordsMatch(db) && i in db.intents && RunStep(db, i, step, env).outcome.Commit?
    requires Grows(db, RunStep(db, i, step, env).outcome.db)
    requires Announced(RunStep(db, i, step, env).outcome.db.outbox, x)
    ensures x in RunStep(db, i, step, env).outcome.db.intents
  {
    Timely.SagaShape(db, i, step, env);
    if step == StepEmitCompleted { AnnouncedSnoc(db.outbox, RunStep(db, i, step, env).outcome.db.outbox, i, x); }
  }

  // ---- Everything but a step keeps the records, and a new intent has none ----

  lemma QuietTables(s: Sys, a: Action)
    requires Enabled(s, a) && !a.Run?
    ensures var db' := Next(s, a).db;
            && db'.journal == s.db.journal && db'.payouts == s.db.payouts
            && |db'.outbox| == |s.db.outbox| && OutboxGrows(s.db.outbox, db'.outbox)
            && (forall i :: i in s.db.intents ==> i in db'.intents && db'.intents[i] == s.db.intents[i])
            && (forall i :: i in db'.intents && i !in s.db.intents ==> db'.intents[i].state == Pending)
  {
    match a
    case Dispatch(batch, cfg) => Adversarial.DispatchContent(s, batch, cfg);
    case Observe(_, _, _, _) =>
    case Record(_, _) =>
    case _ =>
  }

  lemma SameAnnounced(rows: seq<Outbox.Row<CompletedEvent>>, rows': seq<Outbox.Row<CompletedEvent>>, x: Id)
    requires |rows'| == |rows| && OutboxGrows(rows, rows')
    ensures Announced(rows', x) <==> Announced(rows, x)
  {
    forall k | 0 <= k < |rows| ensures rows'[k].aggregate == rows[k].aggregate && rows'[k].topic == rows[k].topic {}
  }

  lemma NoEntryYet(db: DB, ref: Ref)
    requires JournalOk(db) && ref.intent !in db.intents
    ensures !HasEntry(db.journal, ref)
  {
    forall k | 0 <= k < |db.journal| ensures db.journal[k].ref != ref { assert EntryOk(db, db.journal[k]); }
  }

  lemma QuietMatches(db: DB, db': DB)
    requires CoreOk(db) && RecordsMatch(db)
    requires db'.journal == db.journal && db'.payouts == db.payouts
    requires |db'.outbox| == |db.outbox| && OutboxGrows(db.outbox, db'.outbox)
    requires forall i :: i in db.intents ==> i in db'.intents && db'.intents[i] == db.intents[i]
    requires forall i :: i in db'.intents && i !in db.intents ==> db'.intents[i].state == Pending
    ensures RecordsMatch(db')
  {
    forall x ensures Announced(db'.outbox, x) <==> Announced(db.outbox, x) { SameAnnounced(db.outbox, db'.outbox, x); }
    forall x | x in db'.intents ensures Matches(db', x) {
      if x in db.intents {
        assert Matches(db, x);
      } else {
        NoEntryYet(db, CreditDepositRef(x));
        NoEntryYet(db, FxSwapRef(x));
        NoEntryYet(db, PayoutDisbursedRef(x));
      }
    }
  }

  lemma MatchStep(s: Sys, a: Action)
    requires Inv(s) && RecordsMatch(s.db) && Enabled(s, a)
    ensures RecordsMatch(Next(s, a).db)
  {
    if a.Run? {
      var c := s.inflight[a.worker];
      if RunStep(s.db, c.intent, c.step, a.env).outcome.Commit? { RunMatches(s.db, c.intent, c.step, a.env); }
    } else {
      QuietTables(s, a);
      QuietMatches(s.db, Next(s, a).db);
    }
  }

  /** In every state of every run each intent's state says exactly which of its records exist. */
  lemma {:induction false} RecordsAlwaysMatch(states: seq<Sys>, acts: seq<Action>, n: nat)
    requires IsRun(states, acts) && n < |states|
    ensures RecordsMatch(states[n].db)
  {
    if n > 0 {
      RecordsAlwaysMatch(states, acts, n - 1);
      Adversarial.Safe(states, acts, n - 1);
      assert ActsAt(states, acts, n - 1);
      MatchStep(states[n - 1], acts[n - 1]);
    }
  }

  // ---- Balances by intent ----

  /** Sum of `v` over the listed intents that satisfy `p`. */
  ghost function SumIf(order: seq<Id>, p: Id -> bool, v: Id -> int): int {
    if order == [] then 0
    else
      var i := order[|order| - 1];
      SumIf(order[..|order| - 1], p, v) + if p(i) then v(i) else 0
  }

  ghost predicate Listing(order: seq<Id>, db: DB) {
    && (forall i :: i in order <==> i in db.intents)
    && (forall j, k :: 0 <= j < k < |order| ==> order[j] != order[k])
  }

  lemma {:induction false} SumSame(order: seq<Id>, p: Id -> bool, p': Id -> bool, v: Id -> int, v': Id -> int)
    requires forall i :: i in order ==> p'(i) == p(i) && (p(i) ==> v'(i) == v(i))
    ensures SumIf(order, p', v') == SumIf(order, p, v)
  {
    if order != [] { SumSame(order[..|order| - 1], p, p', v, v'); }
  }

  /** One more intent satisfies the condition. */
  lemma {:induction false} SumToggle(order: seq<Id>, p: Id -> bool, p': Id -> bool, v: Id -> int, v': Id -> int, x: Id)
    requires forall j, k :: 0 <= j < k < |order| ==> order[j] != order[k]
    requires x in order && !p(x) && p'(x)
    requires forall i :: i in order && i != x ==> p'(i) == p(i) && (p(i) ==> v'(i) == v(i))
    ensures SumIf(order, p', v') == SumIf(order, p, v) + v'(x)
  {
    var n := |order| - 1;
    var rest := order[..n];
    assert order == rest + [order[n]];
    if order[n] == x {
      assert x !in rest;
      SumSame(rest, p, p', v, v');
    } else {
      SumToggle(rest, p, p', v, v', x);
    }
  }

  lemma {:induction false} SumNone(order: seq<Id>, p: Id -> bool, v: Id -> int)
    requires forall i :: i in order ==> !p(i)
    ensures SumIf(order, p, v) == 0
  {
    if order != [] { SumNone(order[..|order| - 1], p, v); }
  }

  ghost function Swapped(j: seq<JournalEntry>): Id -> bool { (i: Id) => HasEntry(j, FxSwapRef(i)) }

  ghost function PaidTo(j: seq<JournalEntry>): Id -> bool { (i: Id) => HasEntry(j, PayoutDisbursedRef(i)) }

  ghost function CreditedTo(j: seq<JournalEntry>): Id -> bool { (i: Id) => HasEntry(j, CreditDepositRef(i)) }

  /** What the intent's credit entry credited. */
  function CreditOf(db: DB, j: seq<JournalEntry>, i: Id): int {
    if j == [] then 0
    else
      var e := j[|j| - 1];
      if e.ref == CreditDepositRef(i) then
        if e.deposit.Some? then DepositAmount(db.onchain, e.deposit.value) else 0
      else CreditOf(db, j[..|j| - 1], i)
  }

  ghost function Quoted(db: DB): Id -> int { (i: Id) => QuotedOf(db, i) }

  ghost function Asked(db: DB): Id -> int { (i: Id) => AskedOf(db, i) }

  ghost function Credit(db: DB, j: seq<JournalEntry>): Id -> int { (i: Id) => CreditOf(db, j, i) }

  ghost predicate SumsAgree(db: DB, j: seq<JournalEntry>, order: seq<Id>) {
    && SwappedUsdc(db, j) == SumIf(order, Swapped(j), Quoted(db))
    && DisbursedIdr(db, j) == SumIf(order, PaidTo(j), Asked(db))
    && CreditedUsdc(db, j) == SumIf(order, CreditedTo(j), Credit(db, j))
  }

  /** Sums over a prefix of the journal are sums over the intents it has entries for. */
  lemma {:induction false} PrefixByIntent(db: DB, n: nat, order: seq<Id>)
    requires CoreOk(db) && n <= |db.journal| && Listing(order, db)
    ensures SumsAgree(db, db.journal[..n], order)
  {
    if n == 0 {
      SumNone(order, Swapped([]), Quoted(db));
      SumNone(order, PaidTo([]), Asked(db));
      SumNone(order, CreditedTo([]), Credit(db, []));
      assert db.journal[..0] == [];
    } else {
      PrefixByIntent(db, n - 1, order);
      EntryByIntent(db, n - 1, order);
    }
  }

  lemma EntryByIntent(db: DB, n: nat, order: seq<Id>)
    requires CoreOk(db) && n < |db.journal| && Listing(order, db) && SumsAgree(db, db.journal[..n], order)
    ensures SumsAgree(db, db.journal[..n + 1], order)
  {
    var j, e := db.journal[..n], db.journal[n];
    assert db.journal[..n + 1] == j + [e];
    assert EntryOk(db, e);
    assert RefOk(db.journal, n);
    SwapSnoc(db, j, e, order);
    PaidSnoc(db, j, e, order);
    CreditSnoc(db, j, e, order);
  }

  lemma SwapSnoc(db: DB, j: seq<JournalEntry>, e: JournalEntry, order: seq<Id>)
    requires Listing(order, db) && e.ref.intent in db.intents && !HasEntry(j, e.ref)
    requires SwappedUsdc(db, j) == SumIf(order, Swapped(j), Quoted(db))
    ensures SwappedUsdc(db, j + [e]) == SumIf(order, Swapped(j + [e]), Quoted(db))
  {
    var j' := j + [e];
    assert j'[..|j|] == j;
    forall i ensures HasEntry(j', FxSwapRef(i)) <==> HasEntry(j, FxSwapRef(i)) || e.ref == FxSwapRef(i) {
      ExactlyOnce.HasEntrySnoc(j, e, FxSwapRef(i));
    }
    var v := Quoted(db);
    if e.ref.FxSwapRef? {
      SumToggle(order, Swapped(j), Swapped(j'), v, v, e.ref.intent);
    } else {
      SumSame(order, Swapped(j), Swapped(j'), v, v);
    }
  }

  lemma PaidSnoc(db: DB, j: seq<JournalEntry>, e: JournalEntry, order: seq<Id>)
    requires Listing(order, db) && e.ref.intent in db.intents && !HasEntry(j, e.ref)
    requires DisbursedIdr(db, j) == SumIf(order, PaidTo(j), Asked(db))
    ensures DisbursedIdr(db, j + [e]) == SumIf(order, PaidTo(j + [e]), Asked(db))
  {
    var j' := j + [e];
    assert j'[..|j|] == j;
    forall i
      ensures HasEntry(j', PayoutDisbursedRef(i)) <==>
              HasEntry(j, PayoutDisbursedRef(i)) || e.ref == PayoutDisbursedRef(i)
    {
      ExactlyOnce.HasEntrySnoc(j, e, PayoutDisbursedRef(i));
    }
    var v := Asked(db);
    if e.ref.PayoutDisbursedRef? {
      SumToggle(order, PaidTo(j), PaidTo(j'), v, v, e.ref.intent);
    } else {
      SumSame(order, PaidTo(j), PaidTo(j'), v, v);
    }
  }

  lemma CreditSnoc(db: DB, j: seq<JournalEntry>, e: JournalEntry, order: seq<Id>)
    requires Listing(order, db) && e.ref.intent in db.intents && !HasEntry(j, e.ref)
    requires e.ref.CreditDepositRef? ==> e.deposit.Some?
    requires CreditedUsdc(db, j) == SumIf(order, CreditedTo(j), Credit(db, j))
    ensures CreditedUsdc(db, j + [e]) == SumIf(order, CreditedTo(j + [e]), Credit(db, j + [e]))
  {
    var j' := j + [e];
    assert j'[..|j|] == j;
    forall i
      ensures HasEntry(j', CreditDepositRef(i)) <==> HasEntry(j, CreditDepositRef(i)) || e.ref == CreditDepositRef(i)
    {
      ExactlyOnce.HasEntrySnoc(j, e, CreditDepositRef(i));
    }
    if e.ref.CreditDepositRef? {
      SumToggle(order, CreditedTo(j), CreditedTo(j'), Credit(db, j), Credit(db, j'), e.ref.intent);
    } else {
      SumSame(order, CreditedTo(j), CreditedTo(j'), Credit(db, j), Credit(db, j'));
    }
  }

  ghost function AtLeast(db: DB, rank: int): Id -> bool {
    (i: Id) => i in db.intents && rank <= Rank(db.intents[i].state)
  }

  /** In every reachable state the balances can be read off the intents table: the hot wallet holds the
      deposits of funded intents, FX settlement the quotes of paid-out ones, user funds the difference,
      and cash-out what those merchants asked for. */
  lemma BalancesByState(states: seq<Sys>, acts: seq<Action>, n: nat, order: seq<Id>)
    requires IsRun(states, acts) && n < |states| && Listing(order, states[n].db)
    ensures var db := states[n].db;
            var funded := SumIf(order, AtLeast(db, 1), Credit(db, db.journal));
            var settled := SumIf(order, AtLeast(db, 3), Quoted(db));
            && HOT_WALLET in db.accounts && FX_SETTLEMENT in db.accounts && USER_FUNDS in db.accounts
              && CASH_OUT in db.accounts
            && NaturalBalance(db, HOT_WALLET) == funded && NaturalBalance(db, FX_SETTLEMENT) == settled
            && NaturalBalance(db, USER_FUNDS) == funded - settled
            && NaturalBalance(db, CASH_OUT) == -SumIf(order, AtLeast(db, 3), Asked(db))
  {
    BalancesClosedForm(states, acts, n);
    Adversarial.Safe(states, acts, n);
    RecordsAlwaysMatch(states, acts, n);
    ByState(states[n].db, order);
  }

  lemma ByState(db: DB, order: seq<Id>)
    requires CoreOk(db) && RecordsMatch(db) && Listing(order, db)
    ensures CreditedUsdc(db, db.journal) == SumIf(order, AtLeast(db, 1), Credit(db, db.journal))
    ensures SwappedUsdc(db, db.journal) == SumIf(order, AtLeast(db, 3), Quoted(db))
    ensures DisbursedIdr(db, db.journal) == SumIf(order, AtLeast(db, 3), Asked(db))
  {
    var j := db.journal;
    assert j[..|j|] == j;
    PrefixByIntent(db, |j|, order);
    forall i | i in order ensures Matches(db, i) {}
    SumSame(order, CreditedTo(j), AtLeast(db, 1), Credit(db, j), Credit(db, j));
    SumSame(order, Swapped(j), AtLeast(db, 3), Quoted(db), Quoted(db));
    SumSame(order, PaidTo(j), AtLeast(db, 3), Asked(db), Asked(db));
  }

  /** The credited amount is that of a finalized deposit linked to the intent. */
  lemma {:induction false} CreditIsADeposit(db: DB, n: nat, i: Id) returns (d: Deposit)
    requires CoreOk(db) && n <= |db.journal| && HasEntry(db.journal[..n], CreditDepositRef(i))
    ensures d in db.onchain && FinalizedFor(d, i) && CreditOf(db, db.journal[..n], i) == d.amount
  {
    var e := db.journal[n - 1];
    assert db.journal[..n] == db.journal[..n - 1] + [e] && db.journal[..n][..n - 1] == db.journal[..n - 1];
    if e.ref == CreditDepositRef(i) {
      assert EntryOk(db, e);
      var k :| 0 <= k < |db.onchain| && FinalizedFor(db.onchain[k], i) && e == CreditEntry(i, db.onchain[k]);
      FindUnique(db, k);
      d := db.onchain[k];
    } else {
      ExactlyOnce.HasEntrySnoc(db.journal[..n - 1], e, CreditDepositRef(i));
      d := CreditIsADeposit(db, n - 1, i);
    }
  }
}
