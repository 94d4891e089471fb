/** Reconciliation: the hot wallet's balance on chain against the ledger's view of it. */
module Recon {
  import opened Options
  import opened MachineInts
  import opened Schema
  import opened Steps
  import opened Protocol
  import opened Safety
  import opened Balances
  import Adversarial

  datatype Report = Report(onChain: int, ledger: int, difference: int, ok: bool)

  /** Walk, given the balance the RPC node returned. The subtraction is an int64 one. */
  function Walk(db: DB, onChain: int): Report
    requires HOT_WALLET in db.accounts
  {
    var ledger := NaturalBalance(db, HOT_WALLET);
    var difference := Wrap64(onChain - ledger);
    Report(onChain, ledger, difference, difference == 0)
  }

  /** Deposits whose signature some credit_deposit entry quotes. */
  ghost predicate Credited(journal: seq<JournalEntry>, signature: Id) {
    exists k :: 0 <= k < |journal| && journal[k].ref.CreditDepositRef? && journal[k].deposit == Some(signature)
  }

  function FinalizedTotal(onchain: seq<Deposit>): int {
    if onchain == [] then 0
    else
      var d := onchain[|onchain| - 1];
      FinalizedTotal(onchain[..|onchain| - 1]) + if d.commitment == Finalized then d.amount else 0
  }

  ghost function CreditedTotal(onchain: seq<Deposit>, journal: seq<JournalEntry>): int {
    if onchain == [] then 0
    else
      var d := onchain[|onchain| - 1];
      CreditedTotal(onchain[..|onchain| - 1], journal) + if Credited(journal, d.signature) then d.amount else 0
  }

  /** Finalized on chain, not yet in the books. */
  ghost function UncreditedTotal(onchain: seq<Deposit>, journal: seq<JournalEntry>): int {
    if onchain == [] then 0
    else
      var d := onchain[|onchain| - 1];
      UncreditedTotal(onchain[..|onchain| - 1], journal)
      + if d.commitment == Finalized && !Credited(journal, d.signature) then d.amount else 0
  }

  ghost predicate SignaturesDistinct(onchain: seq<Deposit>) {
    forall j, k :: 0 <= j < k < |onchain| ==> onchain[j].signature != onchain[k].signature
  }

  lemma CreditedSnoc(j: seq<JournalEntry>, e: JournalEntry, signature: Id)
    ensures Credited(j + [e], signature) <==>
            Credited(j, signature) || (e.ref.CreditDepositRef? && e.deposit == Some(signature))
  {
    var j' := j + [e];
    if Credited(j, signature) {
      var k :| 0 <= k < |j| && j[k].ref.CreditDepositRef? && j[k].deposit == Some(signature);
      assert j'[k] == j[k];
    }
    if e.ref.CreditDepositRef? && e.deposit == Some(signature) { assert j'[|j|] == e; }
    if Credited(j', signature) {
      var k :| 0 <= k < |j'| && j'[k].ref.CreditDepositRef? && j'[k].deposit == Some(signature);
      if k < |j| { assert j[k] == j'[k]; }
    }
  }

  /** One more credit, of a signature no earlier credit quotes, adds exactly its row. */
  lemma {:induction false} CreditedTotalSnoc(o: seq<Deposit>, j: seq<JournalEntry>, e: JournalEntry)
    requires SignaturesDistinct(o)
    requires e.ref.CreditDepositRef? ==> e.deposit.Some? && !Credited(j, e.deposit.value)
    ensures CreditedTotal(o, j + [e]) == CreditedTotal(o, j)
            + if e.ref.CreditDepositRef? then DepositAmount(o, e.deposit.value) else 0
  {
    if o != [] {
      var rest, d := o[..|o| - 1], o[|o| - 1];
      CreditedTotalSnoc(rest, j, e);
      CreditedSnoc(j, e, d.signature);
      if e.ref.CreditDepositRef? && e.deposit == Some(d.signature) {
        assert FindDeposit(rest, d.signature).None?;
      }
    }
  }

  /** Distinct intents credit distinct signatures, because a deposit is linked to one intent. */
  lemma FreshSignature(db: DB, n: nat)
    requires CoreOk(db) && n < |db.journal| && db.journal[n].ref.CreditDepositRef?
    ensures db.journal[n].deposit.Some? && !Credited(db.journal[..n], db.journal[n].deposit.value)
  {
    var e := db.journal[n];
    assert EntryOk(db, e);
    var m :| 0 <= m < |db.onchain| && FinalizedFor(db.onchain[m], e.ref.intent)
      && e == CreditEntry(e.ref.intent, db.onchain[m]);
    if Credited(db.journal[..n], e.deposit.value) {
      var k :| 0 <= k < n && db.journal[..n][k].ref.CreditDepositRef? && db.journal[..n][k].deposit == e.deposit;
      var e' := db.journal[k];
      assert db.journal[..n][k] == e';
      assert EntryOk(db, e');
      var m' :| 0 <= m' < |db.onchain| && FinalizedFor(db.onchain[m'], e'.ref.intent)
        && e' == CreditEntry(e'.ref.intent, db.onchain[m']);
      SameSignature(db, m, m');
      RefIsNew(db.journal, k, n);
    }
  }

  lemma SameSignature(db: DB, j: nat, k: nat)
    requires DepositsOk(db) && j < |db.onchain| && k < |db.onchain|
    requires db.onchain[j].signature == db.onchain[k].signature
    ensures j == k
  {
    FindUnique(db, j);
    FindUnique(db, k);
  }

  lemma RefIsNew(journal: seq<JournalEntry>, k: nat, n: nat)
    requires RefsOk(journal) && k < n < |journal|
    ensures journal[k].ref != journal[n].ref
  {
    assert RefOk(journal, n);
    assert journal[..n][k] == journal[k];
  }

  lemma {:induction false} CreditedBothWays(db: DB, n: nat)
    requires CoreOk(db) && n <= |db.journal| && SignaturesDistinct(db.onchain)
    ensures CreditedUsdc(db, db.journal[..n]) == CreditedTotal(db.onchain, db.journal[..n])
  {
    if n == 0 {
      NoneCredited(db.onchain);
    } else {
      var e := db.journal[n - 1];
      CreditedBothWays(db, n - 1);
      assert db.journal[..n] == db.journal[..n - 1] + [e];
      assert db.journal[..n][..n - 1] == db.journal[..n - 1];
      if e.ref.CreditDepositRef? { FreshSignature(db, n - 1); }
      CreditedTotalSnoc(db.onchain, db.journal[..n - 1], e);
    }
  }

  lemma {:induction false} NoneCredited(o: seq<Deposit>)
    ensures CreditedTotal(o, []) == 0
  {
    if o != [] { NoneCredited(o[..|o| - 1]); }
  }

  lemma CreditedIsFinalized(db: DB, k: nat)
    requires CoreOk(db) && k < |db.onchain| && Credited(db.journal, db.onchain[k].signature)
    ensures db.onchain[k].commitment == Finalized
  {
    var n :| 0 <= n < |db.journal| && db.journal[n].ref.CreditDepositRef?
      && db.journal[n].deposit == Some(db.onchain[k].signature);
    assert EntryOk(db, db.journal[n]);
    var m :| 0 <= m < |db.onchain| && FinalizedFor(db.onchain[m], db.journal[n].ref.intent)
             && db.journal[n] == CreditEntry(db.journal[n].ref.intent, db.onchain[m]);
    FindUnique(db, m);
    FindUnique(db, k);
  }

  lemma {:induction false} FinalizedSplits(db: DB, n: nat)
    requires CoreOk(db) && n <= |db.onchain|
    ensures FinalizedTotal(db.onchain[..n])
              == CreditedTotal(db.onchain[..n], db.journal) + UncreditedTotal(db.onchain[..n], db.journal)
    ensures 0 <= UncreditedTotal(db.onchain[..n], db.journal)
  {
    if n > 0 {
      FinalizedSplits(db, n - 1);
      assert db.onchain[..n][..n - 1] == db.onchain[..n - 1];
      assert DepositOk(db, n - 1);
      if Credited(db.journal, db.onchain[n - 1].signature) { CreditedIsFinalized(db, n - 1); }
    }
  }

  /** When the chain holds exactly the recorded finalized deposits, Walk's difference is the sum of
      those not yet credited: never negative, and zero exactly when nothing is waiting. */
  lemma DifferenceIsUncredited(states: seq<Sys>, acts: seq<Action>, n: nat, onChain: int)
    requires IsRun(states, acts) && n < |states|
    requires onChain == FinalizedTotal(states[n].db.onchain) && onChain < TWO_63
    ensures HOT_WALLET in states[n].db.accounts
    ensures var r := Walk(states[n].db, onChain);
            var waiting := UncreditedTotal(states[n].db.onchain, states[n].db.journal);
            r.difference == waiting && 0 <= r.difference && (r.ok <==> waiting == 0)
  {
    Adversarial.Safe(states, acts, n);
    BalancesClosedForm(states, acts, n);
    var db := states[n].db;
    WholeTotals(db);
  }

  lemma WholeTotals(db: DB)
    requires CoreOk(db)
    ensures CreditedUsdc(db, db.journal) + UncreditedTotal(db.onchain, db.journal) == FinalizedTotal(db.onchain)
    ensures 0 <= UncreditedTotal(db.onchain, db.journal) && 0 <= CreditedUsdc(db, db.journal)
  {
    forall j, k | 0 <= j < k < |db.onchain| ensures db.onchain[j].signature != db.onchain[k].signature {
      assert DepositOk(db, k);
    }
    CreditedBothWays(db, |db.journal|);
    FinalizedSplits(db, |db.onchain|);
    assert db.journal[..|db.journal|] == db.journal && db.onchain[..|db.onchain|] == db.onchain;
    NonNegative(db.onchain, db.journal, db);
  }

  lemma {:induction false} NonNegative(o: seq<Deposit>, j: seq<JournalEntry>, db: DB)
    requires DepositsOk(db) && o <= db.onchain
    ensures 0 <= CreditedTotal(o, j)
  {
    if o != [] {
      assert DepositOk(db, |o| - 1);
      assert o[|o| - 1] == db.onchain[|o| - 1];
      NonNegative(o[..|o| - 1], j, db);
    }
  }
}
