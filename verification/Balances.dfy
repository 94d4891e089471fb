/** Closed forms of the account balances in every reachable state, conservation across the books,
    and what reconciliation against the chain then reports. */
module Balances {
  import opened Options
  import opened MachineInts
  import opened Schema
  import opened Steps
  import opened Protocol
  import opened Safety
  import Adversarial
  import Decimal
  import Ledger

  // ---- Sums over the journal ----

  /** Amount of the deposit with this signature, 0 if it is not recorded. */
  function DepositAmount(onchain: seq<Deposit>, signature: Id): int {
    match FindDeposit(onchain, signature)
    case None => 0
    case Some(k) => onchain[k].amount
  }

  function QuotedOf(db: DB, i: Id): int { if i in db.intents then db.intents[i].quotedUsdc else 0 }

  function AskedOf(db: DB, i: Id): int { if i in db.intents then db.intents[i].amountIdr else 0 }

  /** The deposits credited so far. */
  function CreditedUsdc(db: DB, journal: seq<JournalEntry>): int {
    if journal == [] then 0
    else
      var e := journal[|journal| - 1];
      CreditedUsdc(db, journal[..|journal| - 1])
      + if e.ref.CreditDepositRef? && e.deposit.Some? then DepositAmount(db.onchain, e.deposit.value) else 0
  }

  /** The quoted amounts of the intents swapped so far. */
  function SwappedUsdc(db: DB, journal: seq<JournalEntry>): int {
    if journal == [] then 0
    else
      var e := journal[|journal| - 1];
      SwappedUsdc(db, journal[..|journal| - 1]) + if e.ref.FxSwapRef? then QuotedOf(db, e.ref.intent) else 0
  }

  /** The amounts merchants asked for, of the intents disbursed so far. */
  function DisbursedIdr(db: DB, journal: seq<JournalEntry>): int {
    if journal == [] then 0
    else
      var e := journal[|journal| - 1];
      DisbursedIdr(db, journal[..|journal| - 1]) + if e.ref.PayoutDisbursedRef? then AskedOf(db, e.ref.intent) else 0
  }

  /** The mid values of the payouts booked so far. */
  function BookedMid(journal: seq<JournalEntry>): int {
    if journal == [] then 0
    else
      var e := journal[|journal| - 1];
      BookedMid(journal[..|journal| - 1]) + if e.ref.PayoutDisbursedRef? && 2 <= |e.lines| then MidIn(e) else 0
  }

  // ---- One entry at a time ----

  lemma AccountsDistinct()
    ensures HOT_WALLET != USER_FUNDS && HOT_WALLET != FX_SETTLEMENT && USER_FUNDS != FX_SETTLEMENT
    ensures CASH_OUT != FX_REVENUE && CASH_OUT != FX_EXPENSE && FX_REVENUE != FX_EXPENSE
    ensures USDC != IDR
  {
    assert USDC[0] != IDR[0];
    assert HOT_WALLET.code[0] == 'a' && USER_FUNDS.code[0] == 'l' && FX_SETTLEMENT.code[0] == 'e';
    assert CASH_OUT.code[0] == 'a' && FX_REVENUE.code[0] == 'r' && FX_EXPENSE.code[0] == 'e';
  }

  lemma TwoLineBalance(t: Ledger.AccountType, account: Ledger.AccountId, a: Ledger.Line, b: Ledger.Line)
    ensures Ledger.Balance(t, account, [a, b])
         == (if a.account == account then Ledger.Natural(t, a) else 0)
            + if b.account == account then Ledger.Natural(t, b) else 0
  {
    assert [a, b][..1] == [a];
    assert [a][..0] == [];
    assert Ledger.Balance(t, account, [a]) == if a.account == account then Ledger.Natural(t, a) else 0;
  }

  lemma CreditBalances(amount: int)
    ensures Ledger.Balance(Ledger.Asset, HOT_WALLET, CreditLines(amount)) == amount
    ensures Ledger.Balance(Ledger.Liability, USER_FUNDS, CreditLines(amount)) == amount
    ensures Ledger.Balance(Ledger.Equity, FX_SETTLEMENT, CreditLines(amount)) == 0
    ensures Ledger.Balance(Ledger.Asset, CASH_OUT, CreditLines(amount)) == 0
  {
    AccountsDistinct();
    var l := CreditLines(amount);
    TwoLineBalance(Ledger.Asset, HOT_WALLET, l[0], l[1]);
    TwoLineBalance(Ledger.Liability, USER_FUNDS, l[0], l[1]);
    TwoLineBalance(Ledger.Equity, FX_SETTLEMENT, l[0], l[1]);
    TwoLineBalance(Ledger.Asset, CASH_OUT, l[0], l[1]);
  }

  lemma FxSwapBalances(amount: int)
    ensures Ledger.Balance(Ledger.Asset, HOT_WALLET, FxSwapLines(amount)) == 0
    ensures Ledger.Balance(Ledger.Liability, USER_FUNDS, FxSwapLines(amount)) == -amount
    ensures Ledger.Balance(Ledger.Equity, FX_SETTLEMENT, FxSwapLines(amount)) == amount
    ensures Ledger.Balance(Ledger.Asset, CASH_OUT, FxSwapLines(amount)) == 0
  {
    AccountsDistinct();
    var l := FxSwapLines(amount);
    TwoLineBalance(Ledger.Asset, HOT_WALLET, l[0], l[1]);
    TwoLineBalance(Ledger.Liability, USER_FUNDS, l[0], l[1]);
    TwoLineBalance(Ledger.Equity, FX_SETTLEMENT, l[0], l[1]);
    TwoLineBalance(Ledger.Asset, CASH_OUT, l[0], l[1]);
  }

  lemma DisbursedBalance(t: Ledger.AccountType, account: Ledger.AccountId, mid: int, paid: int)
    ensures Ledger.Balance(t, account, DisbursedLines(mid, paid)) ==
      (if account == FX_EXPENSE then (if Ledger.DebitNormal(t) then mid else -mid)
       else if account == CASH_OUT then (if Ledger.DebitNormal(t) then -paid else paid)
       else if account == FX_REVENUE && mid > paid then (if Ledger.DebitNormal(t) then paid - mid else mid - paid)
       else 0)
  {
    AccountsDistinct();
    var l := DisbursedLines(mid, paid);
    TwoLineBalance(t, account, l[0], l[1]);
    assert l[..2] == [l[0], l[1]];
    if mid > paid { assert l[..|l| - 1] == [l[0], l[1]]; } else { assert l == [l[0], l[1]]; }
  }

  lemma BalanceSnoc(t: Ledger.AccountType, account: Ledger.AccountId, j: seq<JournalEntry>)
    requires j != []
    ensures Ledger.Balance(t, account, Ledger.Postings(Groups(j)))
         == Ledger.Balance(t, account, Ledger.Postings(Groups(j[..|j| - 1])))
           + Ledger.Balance(t, account, j[|j| - 1].lines)
  {
    assert Groups(j)[..|j| - 1] == Groups(j[..|j| - 1]);
    Ledger.BalanceConcat(t, account, Ledger.Postings(Groups(j[..|j| - 1])), j[|j| - 1].lines);
  }

  lemma FindUnique(db: DB, k: nat)
    requires DepositsOk(db) && k < |db.onchain|
    ensures FindDeposit(db.onchain, db.onchain[k].signature) == Some(k)
  {
    assert DepositOk(db, k) && DepositOk(db, FindDeposit(db.onchain, db.onchain[k].signature).value);
  }

  /** Balances of a journal prefix in terms of the intents and deposits it settles. */
  ghost predicate ClosedForm(db: DB, j: seq<JournalEntry>) {
    var p := Ledger.Postings(Groups(j));
    && Ledger.Balance(Ledger.Asset, HOT_WALLET, p) == CreditedUsdc(db, j)
    && Ledger.Balance(Ledger.Equity, FX_SETTLEMENT, p) == SwappedUsdc(db, j)
    && Ledger.Balance(Ledger.Liability, USER_FUNDS, p) == CreditedUsdc(db, j) - SwappedUsdc(db, j)
    && Ledger.Balance(Ledger.Asset, CASH_OUT, p) == -DisbursedIdr(db, j)
  }

  lemma EntryContribution(db: DB, e: JournalEntry)
    requires CoreOk(db) && EntryOk(db, e)
    ensures Ledger.Balance(Ledger.Asset, HOT_WALLET, e.lines)
            == if e.ref.CreditDepositRef? && e.deposit.Some? then DepositAmount(db.onchain, e.deposit.value) else 0
    ensures Ledger.Balance(Ledger.Equity, FX_SETTLEMENT, e.lines)
              == if e.ref.FxSwapRef? then QuotedOf(db, e.ref.intent) else 0
    ensures Ledger.Balance(Ledger.Liability, USER_FUNDS, e.lines)
            == Ledger.Balance(Ledger.Asset, HOT_WALLET, e.lines) - Ledger.Balance(Ledger.Equity, FX_SETTLEMENT, e.lines)
    ensures Ledger.Balance(Ledger.Asset, CASH_OUT, e.lines)
            == -(if e.ref.PayoutDisbursedRef? then AskedOf(db, e.ref.intent) else 0)
  {
    match e.ref
    case CreditDepositRef(i) =>
      var k :| 0 <= k < |db.onchain| && FinalizedFor(db.onchain[k], i) && e == CreditEntry(i, db.onchain[k]);
      FindUnique(db, k);
      CreditBalances(db.onchain[k].amount);
    case FxSwapRef(i) => FxSwapBalances(db.intents[i].quotedUsdc);
    case PayoutDisbursedRef(i) =>
      AccountsDistinct();
      DisbursedBalance(Ledger.Asset, HOT_WALLET, MidIn(e), db.intents[i].amountIdr);
      DisbursedBalance(Ledger.Equity, FX_SETTLEMENT, MidIn(e), db.intents[i].amountIdr);
      DisbursedBalance(Ledger.Liability, USER_FUNDS, MidIn(e), db.intents[i].amountIdr);
      DisbursedBalance(Ledger.Asset, CASH_OUT, MidIn(e), db.intents[i].amountIdr);
  }

  lemma {:induction false} PrefixClosedForm(db: DB, n: nat)
    requires CoreOk(db) && n <= |db.journal|
    ensures ClosedForm(db, db.journal[..n])
  {
    if n > 0 {
      var j := db.journal[..n];
      PrefixClosedForm(db, n - 1);
      assert j[..n - 1] == db.journal[..n - 1];
      assert EntryOk(db, db.journal[n - 1]);
      EntryContribution(db, db.journal[n - 1]);
      ClosedFormSnoc(db, j);
    }
  }

  lemma ClosedFormSnoc(db: DB, j: seq<JournalEntry>)
    requires j != [] && ClosedForm(db, j[..|j| - 1])
    requires var e := j[|j| - 1];
             var credit := if e.ref.CreditDepositRef? && e.deposit.Some? then e.deposit else None;
             && Ledger.Balance(Ledger.Asset, HOT_WALLET, e.lines)
                == (if credit.Some? then DepositAmount(db.onchain, credit.value) else 0)
             && Ledger.Balance(Ledger.Equity, FX_SETTLEMENT, e.lines)
                == (if e.ref.FxSwapRef? then QuotedOf(db, e.ref.intent) else 0)
             && Ledger.Balance(Ledger.Liability, USER_FUNDS, e.lines)
                == Ledger.Balance(Ledger.Asset, HOT_WALLET, e.lines)
                   - Ledger.Balance(Ledger.Equity, FX_SETTLEMENT, e.lines)
             && Ledger.Balance(Ledger.Asset, CASH_OUT, e.lines)
                == -(if e.ref.PayoutDisbursedRef? then AskedOf(db, e.ref.intent) else 0)
    ensures ClosedForm(db, j)
  {
    BalanceSnoc(Ledger.Asset, HOT_WALLET, j);
    BalanceSnoc(Ledger.Equity, FX_SETTLEMENT, j);
    BalanceSnoc(Ledger.Liability, USER_FUNDS, j);
    BalanceSnoc(Ledger.Asset, CASH_OUT, j);
  }

  lemma SeededTypes(db: DB)
    requires db.accounts == SEEDED
    ensures HOT_WALLET in db.accounts && db.accounts[HOT_WALLET] == Ledger.Asset
    ensures FX_SETTLEMENT in db.accounts && db.accounts[FX_SETTLEMENT] == Ledger.Equity
    ensures USER_FUNDS in db.accounts && db.accounts[USER_FUNDS] == Ledger.Liability
    ensures CASH_OUT in db.accounts && db.accounts[CASH_OUT] == Ledger.Asset
    ensures FX_REVENUE in db.accounts && db.accounts[FX_REVENUE] == Ledger.Revenue
    ensures FX_EXPENSE in db.accounts && db.accounts[FX_EXPENSE] == Ledger.Expense
  {
    AccountsDistinct();
    var payable := Ledger.AccountId("merchant_payable_idr", IDR);
    var fee := Ledger.AccountId("expense_network_fee_usdc", USDC);
    assert payable.code[0] == 'm' && fee.code[0] == 'e' && fee.code[1] == 'x' && FX_SETTLEMENT.code[1] == 'q';
  }

  /** In every reachable state: the hot wallet holds the credited deposits, FX settlement the quoted
      amounts of the swapped intents, user funds their difference, and cash-out what merchants got. */
  lemma BalancesClosedForm(states: seq<Sys>, acts: seq<Action>, n: nat)
    requires IsRun(states, acts) && n < |states|
    ensures var db := states[n].db;
            && HOT_WALLET in db.accounts && FX_SETTLEMENT in db.accounts && USER_FUNDS in db.accounts
              && CASH_OUT in db.accounts
            && NaturalBalance(db, HOT_WALLET) == CreditedUsdc(db, db.journal)
            && NaturalBalance(db, FX_SETTLEMENT) == SwappedUsdc(db, db.journal)
            && NaturalBalance(db, USER_FUNDS) == CreditedUsdc(db, db.journal) - SwappedUsdc(db, db.journal)
            && NaturalBalance(db, CASH_OUT) == -DisbursedIdr(db, db.journal)
  {
    Adversarial.Safe(states, acts, n);
    var db := states[n].db;
    SeededTypes(db);
    PrefixClosedForm(db, |db.journal|);
    assert db.journal[..|db.journal|] == db.journal;
  }

  // ---- What the operator earns ----

  lemma EntryEarns(db: DB, e: JournalEntry)
    requires CoreOk(db) && EntryOk(db, e)
    ensures var mid := if e.ref.PayoutDisbursedRef? && 2 <= |e.lines| then MidIn(e) else 0;
            var paid := if e.ref.PayoutDisbursedRef? then AskedOf(db, e.ref.intent) else 0;
            && paid <= mid
            && Ledger.Balance(Ledger.Expense, FX_EXPENSE, e.lines) == mid
            && Ledger.Balance(Ledger.Revenue, FX_REVENUE, e.lines) == mid - paid
  {
    AccountsDistinct();
    match e.ref
    case CreditDepositRef(i) =>
      TwoLineBalance(Ledger.Expense, FX_EXPENSE, e.lines[0], e.lines[1]);
      TwoLineBalance(Ledger.Revenue, FX_REVENUE, e.lines[0], e.lines[1]);
    case FxSwapRef(i) =>
      TwoLineBalance(Ledger.Expense, FX_EXPENSE, e.lines[0], e.lines[1]);
      TwoLineBalance(Ledger.Revenue, FX_REVENUE, e.lines[0], e.lines[1]);
    case PayoutDisbursedRef(i) =>
      DisbursedBalance(Ledger.Expense, FX_EXPENSE, MidIn(e), db.intents[i].amountIdr);
      DisbursedBalance(Ledger.Revenue, FX_REVENUE, MidIn(e), db.intents[i].amountIdr);
  }

  lemma {:induction false} PrefixEarns(db: DB, n: nat)
    requires CoreOk(db) && n <= |db.journal|
    ensures var j := db.journal[..n];
            && DisbursedIdr(db, j) <= BookedMid(j)
            && Ledger.Balance(Ledger.Expense, FX_EXPENSE, Ledger.Postings(Groups(j))) == BookedMid(j)
            && Ledger.Balance(Ledger.Revenue, FX_REVENUE, Ledger.Postings(Groups(j)))
               == BookedMid(j) - DisbursedIdr(db, j)
  {
    if n > 0 {
      var j := db.journal[..n];
      PrefixEarns(db, n - 1);
      assert j[..n - 1] == db.journal[..n - 1];
      assert EntryOk(db, db.journal[n - 1]);
      EntryEarns(db, db.journal[n - 1]);
      BalanceSnoc(Ledger.Expense, FX_EXPENSE, j);
      BalanceSnoc(Ledger.Revenue, FX_REVENUE, j);
    }
  }

  /** In every reachable state the FX expense is the mid value of what was paid out, the FX revenue
      what that exceeds the payouts by, never negative, and the two differ by the cash that left. */
  lemma ProfitClosedForm(states: seq<Sys>, acts: seq<Action>, n: nat)
    requires IsRun(states, acts) && n < |states|
    ensures var db := states[n].db;
            && FX_EXPENSE in db.accounts && FX_REVENUE in db.accounts && CASH_OUT in db.accounts
            && NaturalBalance(db, FX_EXPENSE) == BookedMid(db.journal)
            && NaturalBalance(db, FX_REVENUE) == BookedMid(db.journal) - DisbursedIdr(db, db.journal)
            && 0 <= NaturalBalance(db, FX_REVENUE)
            && NaturalBalance(db, FX_EXPENSE) - NaturalBalance(db, FX_REVENUE) == -NaturalBalance(db, CASH_OUT)
  {
    Adversarial.Safe(states, acts, n);
    var db := states[n].db;
    SeededTypes(db);
    PrefixEarns(db, |db.journal|);
    assert db.journal[..|db.journal|] == db.journal;
    BalancesClosedForm(states, acts, n);
  }

  // ---- Conservation ----

  lemma EntryLinesAllowed(db: DB, e: JournalEntry)
    requires CoreOk(db) && EntryOk(db, e)
    ensures forall l :: l in e.lines ==> Ledger.PostingAllowed(db.accounts, l)
  {
    match e.ref
    case CreditDepositRef(i) =>
      var k :| 0 <= k < |db.onchain| && FinalizedFor(db.onchain[k], i) && e == CreditEntry(i, db.onchain[k]);
      assert DepositOk(db, k);
    case FxSwapRef(i) => assert IntentOk(db, i);
    case PayoutDisbursedRef(i) => assert IntentOk(db, i);
  }

  /** In every reachable state the entries are of three kinds, each named for its intent. */
  lemma EntriesAreNamed(states: seq<Sys>, acts: seq<Action>, n: nat, k: nat)
    requires IsRun(states, acts) && n < |states| && k < |states[n].db.journal|
    ensures var e := states[n].db.journal[k];
            || (e.kind == "deposit_credit" && e.ref.Text() == "credit_deposit:" + Decimal.Digits(e.ref.intent))
            || (e.kind == "fx_swap_usdc" && e.ref.Text() == "fx_swap_usdc:" + Decimal.Digits(e.ref.intent))
            || (e.kind == "payout_disbursed" && e.ref.Text() == "payout_disbursed:" + Decimal.Digits(e.ref.intent))
  {
    Adversarial.Safe(states, acts, n);
    assert EntryOk(states[n].db, states[n].db.journal[k]);
  }

  /** In every reachable state every posting is a positive debit or credit of a known account in that
      account's currency. */
  lemma PostingsAreSound(states: seq<Sys>, acts: seq<Action>, n: nat, k: nat, m: nat)
    requires IsRun(states, acts) && n < |states| && k < |states[n].db.journal| && m < |states[n].db.journal[k].lines|
    ensures var db := states[n].db;
            var l := db.journal[k].lines[m];
            && l.account in db.accounts && l.currency == l.account.currency
            && l.amount > 0 && (l.direction == Ledger.Debit || l.direction == Ledger.Credit)
  {
    Adversarial.Safe(states, acts, n);
    var db := states[n].db;
    assert EntryOk(db, db.journal[k]);
    EntryLinesAllowed(db, db.journal[k]);
    assert db.journal[k].lines[m] in db.journal[k].lines;
  }

  /** In every reachable state debit-normal and credit-normal balances agree, currency by currency. */
  lemma BooksBalance(states: seq<Sys>, acts: seq<Action>, n: nat, order: seq<Ledger.AccountId>, currency: string)
    requires IsRun(states, acts) && n < |states|
    requires Ledger.Distinct(order) && forall a :: a in order <==> a in states[n].db.accounts
    ensures var db := states[n].db;
            var p := Ledger.Postings(Groups(db.journal));
            Ledger.SideTotal(db.accounts, order, p, currency, true)
              == Ledger.SideTotal(db.accounts, order, p, currency, false)
  {
    Adversarial.Safe(states, acts, n);
    var db := states[n].db;
    var groups := Groups(db.journal);
    forall g | g in groups ensures Ledger.Balanced(g) && forall l :: l in g ==> Ledger.PostingAllowed(db.accounts, l) {
      var k :| 0 <= k < |groups| && groups[k] == g;
      assert EntryOk(db, db.journal[k]);
      EntryBalanced(db, db.journal[k]);
      EntryLinesAllowed(db, db.journal[k]);
    }
    Ledger.Conservation(db.accounts, order, groups, currency);
  }
}
