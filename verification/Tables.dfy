/** The tables as mutable state, one method per statement the settlement code issues. Each is
    proved to do to the tables what `Steps` and `Protocol` say of the database as a value. */
module Tables {
  import opened Options
  import opened Schema
  import opened Steps
  import opened Protocol
  import Ledger
  import Outbox

  class Database {
    var accounts: Ledger.Chart
    var merchants: map<Id, Merchant>
    var quotes: map<Id, Quote>
    var intents: map<Id, Intent>
    var sagas: map<Id, Saga>
    var payouts: map<Id, Payout>
    var journal: seq<JournalEntry>
    var onchain: seq<Deposit>
    var outbox: seq<Outbox.Row<CompletedEvent>>

    function View(): DB
      reads this
    {
      DB(accounts, merchants, quotes, intents, sagas, payouts, journal, onchain, outbox)
    }

    constructor ()
      ensures View() == DB(SEEDED, map[], map[], map[], map[], map[], [], [], [])
    {
      accounts, merchants, quotes, intents := SEEDED, map[], map[], map[];
      sagas, payouts, journal, onchain, outbox := map[], map[], [], [], [];
    }

    /** ROLLBACK to the state the transaction began in. */
    method Rollback(snapshot: DB)
      modifies this
      ensures View() == snapshot
    {
      accounts, merchants, quotes, intents := snapshot.accounts, snapshot.merchants, snapshot.quotes, snapshot.intents;
      sagas, payouts := snapshot.sagas, snapshot.payouts;
      journal, onchain, outbox := snapshot.journal, snapshot.onchain, snapshot.outbox;
    }

    // ---- onchain_payments ----

    method LookupDeposit(signature: Id) returns (k: Option<nat>)
      ensures k == FindDeposit(onchain, signature)
    {
      var n := |onchain|;
      assert onchain[..n] == onchain;
      while n > 0
        invariant n <= |onchain| && FindDeposit(onchain, signature) == FindDeposit(onchain[..n], signature)
      {
        n := n - 1;
        assert onchain[..n + 1][..n] == onchain[..n];
        if onchain[n].signature == signature { return Some(n); }
      }
      return None;
    }

    /** INSERT ... ON CONFLICT (signature): raise the commitment, fill an empty link. */
    method UpsertOnchainPayment(d: Deposit) returns (row: Deposit)
      modifies this`onchain
      ensures onchain == UpsertDeposit(old(onchain), d) && row == UpsertedRow(old(onchain), d)
    {
      var k := LookupDeposit(d.signature);
      if k.None? {
        onchain := onchain + [d];
        return d;
      }
      row := onchain[k.value];
      if CommitmentRank(row.commitment) < CommitmentRank(d.commitment) { row := row.(commitment := d.commitment); }
      if row.intent.None? { row := row.(intent := d.intent); }
      onchain := onchain[k.value := row];
    }

    method GetFinalizedDeposit(intent: Id) returns (d: Option<Deposit>)
      ensures d == FinalizedDeposit(onchain, intent)
    {
      d := None;
      for n := 0 to |onchain|
        invariant d == FinalizedDeposit(onchain[..n], intent)
      {
        assert onchain[..n + 1][..n] == onchain[..n];
        if d.None? && onchain[n].intent == Some(intent) && onchain[n].commitment == Finalized { d := Some(onchain[n]); }
      }
      assert onchain[..|onchain|] == onchain;
    }

    // ---- saga_runs ----

    method EnqueueSagaRun(i: Id, now: Time)
      modifies this`sagas
      ensures View() == EnqueueSaga(old(View()), i, now)
    {
      if i !in sagas { sagas := sagas[i := Saga(FIRST_STEP, SagaPending, 0, now, None)]; }
    }

    /** The due saga with the earliest next_run_at. */
    method EarliestDue(now: Time) returns (best: Option<Id>)
      ensures best.None? ==> forall i :: i in sagas ==> !Due(sagas[i], now)
      ensures best.Some? ==>
                && best.value in sagas && Due(sagas[best.value], now)
                && forall i :: i in sagas && Due(sagas[i], now) ==> sagas[best.value].nextRunAt <= sagas[i].nextRunAt
    {
      best := None;
      var rest := sagas.Keys;
      while rest != {}
        invariant rest <= sagas.Keys
        invariant best.None? ==> forall i :: i in sagas && i !in rest ==> !Due(sagas[i], now)
        invariant best.Some? ==>
                    && best.value in sagas && Due(sagas[best.value], now)
                    && forall i :: i in sagas && i !in rest && Due(sagas[i], now) ==>
                      sagas[best.value].nextRunAt <= sagas[i].nextRunAt
        decreases rest
      {
        var i :| i in rest;
        rest := rest - {i};
        if Due(sagas[i], now) && (best.None? || sagas[i].nextRunAt < sagas[best.value].nextRunAt) { best := Some(i); }
      }
    }

    /** Nothing is claimed exactly when every saga is final, scheduled for later, or under a lease that
        has not run out; otherwise one that is none of these, of the earliest next_run_at. */
    method ClaimDueSagaRun(now: Time, lease: nat) returns (claimed: Option<Id>)
      modifies this`sagas
      ensures claimed.None? <==>
              forall i :: i in old(sagas) ==>
                || old(sagas)[i].state in {SagaCompleted, SagaFailed}
                || old(sagas)[i].nextRunAt > now
                || (old(sagas)[i].leaseUntil.Some? && old(sagas)[i].leaseUntil.value >= now)
      ensures claimed.Some? ==>
                && claimed.value in old(sagas)
                && var g := old(sagas)[claimed.value];
                   && g.state in {SagaPending, SagaRunning} && g.nextRunAt <= now
                   && (g.leaseUntil.Some? ==> g.leaseUntil.value < now)
                   && var g' := Saga(g.step, SagaRunning, g.attempts, g.nextRunAt, Some(now + lease));
                      sagas == old(sagas)[claimed.value := g']
      ensures claimed.None? ==> View() == old(View()) && forall i :: i in old(sagas) ==> !Due(old(sagas)[i], now)
      ensures claimed.Some? ==>
                && claimed.value in old(sagas) && Due(old(sagas)[claimed.value], now)
                && View() == ClaimSaga(old(View()), claimed.value, now + lease)
                && forall i :: i in old(sagas) && Due(old(sagas)[i], now) ==>
                     old(sagas)[claimed.value].nextRunAt <= old(sagas)[i].nextRunAt
    {
      claimed := EarliestDue(now);
      if claimed.Some? {
        var i := claimed.value;
        sagas := sagas[i := sagas[i].(state := SagaRunning, leaseUntil := Some(now + lease))];
      }
    }

    method AdvanceSagaStep(i: Id, next: Step, now: Time)
      requires i in sagas
      modifies this`sagas
      ensures View() == AdvanceSaga(old(View()), i, next, now)
    {
      sagas := sagas[i := Saga(next, SagaPending, 0, now, None)];
    }

    method CompleteSagaRun(i: Id)
      requires i in sagas
      modifies this`sagas
      ensures View() == CompleteSaga(old(View()), i)
    {
      sagas := sagas[i := sagas[i].(state := SagaCompleted, leaseUntil := None)];
    }

    method ScheduleSagaRetry(i: Id, nextRunAt: Time)
      requires i in sagas
      modifies this`sagas
      ensures View() == RetrySaga(old(View()), i, nextRunAt)
    {
      var s := sagas[i];
      s := s.(attempts := s.attempts + 1, state := SagaPending, nextRunAt := nextRunAt, leaseUntil := None);
      sagas := sagas[i := s];
    }

    method FailSagaRun(i: Id)
      requires i in sagas
      modifies this`sagas
      ensures View() == FailSaga(old(View()), i)
    {
      sagas := sagas[i := sagas[i].(state := SagaFailed, leaseUntil := None)];
    }

    // ---- payment_intents and payouts ----

    method UpdatePaymentIntentState(i: Id, state: IntentState)
      requires i in intents
      modifies this`intents
      ensures View() == SetIntentState(old(View()), i, state)
    {
      intents := intents[i := intents[i].(state := state)];
    }

    method UpsertPayoutRow(i: Id, id: Id, amountIdr: int) returns (po: Payout)
      modifies this`payouts
      ensures View() == UpsertPayout(old(View()), i, id, amountIdr) && i in payouts && po == payouts[i]
    {
      if i !in payouts { payouts := payouts[i := Payout(id, amountIdr, PayoutPending, 0)]; }
      po := payouts[i];
    }

    method MarkPayoutSubmitting(i: Id)
      requires i in payouts
      modifies this`payouts
      ensures View() == SetPayout(old(View()), i, PayoutSubmitting, old(payouts)[i].attempts + 1)
    {
      payouts := payouts[i := payouts[i].(state := PayoutSubmitting, attempts := payouts[i].attempts + 1)];
    }

    method MarkPayout(i: Id, state: PayoutState)
      requires i in payouts
      modifies this`payouts
      ensures View() == SetPayout(old(View()), i, state, old(payouts)[i].attempts)
    {
      payouts := payouts[i := payouts[i].(state := state)];
    }

    // ---- The ledger ----

    method KnownRef(ref: Ref) returns (known: bool)
      ensures known <==> HasEntry(journal, ref)
    {
      for k := 0 to |journal|
        invariant forall j :: 0 <= j < k ==> journal[j].ref != ref
      {
        if journal[k].ref == ref { return true; }
      }
      return false;
    }

    /** Insert an entry and then its postings, one at a time, each under the currency trigger. */
    method InsertEntry(e: JournalEntry) returns (ok: bool)
      modifies this`journal
      ensures ok <==> PostingsAllowed(old(View()), e.lines)
      ensures ok <==>
              forall k :: 0 <= k < |e.lines| ==>
                var l := e.lines[k];
                && l.account in accounts && l.currency == l.account.currency
                && l.amount > 0 && (l.direction == Ledger.Debit || l.direction == Ledger.Credit)
      ensures ok ==> journal == old(journal) + [e]
      ensures old(journal) <= journal
    {
      var n := |journal|;
      journal := journal + [e.(lines := [])];
      for k := 0 to |e.lines|
        invariant journal == old(journal) + [e.(lines := e.lines[..k])]
        invariant forall j :: 0 <= j < k ==> Ledger.PostingAllowed(accounts, e.lines[j])
      {
        if !Ledger.PostingAllowed(accounts, e.lines[k]) { return false; }
        assert e.lines[..k] + [e.lines[k]] == e.lines[..k + 1];
        journal := journal[n := journal[n].(lines := journal[n].lines + [e.lines[k]])];
      }
      assert e.lines[..|e.lines|] == e.lines;
      return true;
    }

    /** Post inside the caller's transaction. On failure the tables are half written and the caller
        rolls back. */
    method Post(e: JournalEntry) returns (ok: bool)
      modifies this`journal
      ensures ok ==> PostTx(old(View()), e) == Some(View())
      ensures !ok ==> PostTx(old(View()), e) == None
      ensures old(journal) <= journal
    {
      var error := Ledger.Validate(Ledger.Entry(e.ref.Text(), e.kind, e.lines));
      if error.Some? { return false; }
      var known := KnownRef(e.ref);
      if known { return true; }
      ok := InsertEntry(e);
    }

    /** The deferred trigger, at commit, over the entries added since `from`. */
    method CheckDeferred(from: nat) returns (ok: bool)
      requires from <= |journal|
      ensures ok <==> forall k :: from <= k < |journal| ==> Ledger.Balanced(journal[k].lines)
    {
      for k := from to |journal|
        invariant forall j :: from <= j < k ==> Ledger.Balanced(journal[j].lines)
      {
        var balanced := Ledger.CheckBalanced(journal[k].lines);
        if !balanced { return false; }
      }
      return true;
    }

    // ---- The outbox ----

    method PublishOutbox(topic: string, aggregate: Option<Id>, event: CompletedEvent, now: Time) returns (ok: bool)
      modifies this`outbox
      ensures ok <==> topic != ""
      ensures ok ==> outbox == old(outbox) + [Outbox.Row(topic, aggregate, event, true, 0, now, None)]
      ensures ok ==> Outbox.Publish(old(outbox), topic, aggregate, event, now) == Some(outbox)
      ensures !ok ==> Outbox.Publish(old(outbox), topic, aggregate, event, now) == None
    {
      if topic == "" { return false; }
      outbox := outbox + [Outbox.Row(topic, aggregate, event, true, 0, now, None)];
      return true;
    }
  }
}
