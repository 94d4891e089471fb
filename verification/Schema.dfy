/** The rows settlement reads and writes. Unique constraints decide the shape: saga_runs (one saga
    kind) and payouts are keyed by their intent; journal_entries, onchain_payments and outbox are
    listed in created_at order. */
module Schema {
  import opened Options
  import opened Decimal
  import Ledger
  import Outbox

  type Id = nat
  type Time = int

  datatype IntentState = Pending | Funded | Settling | PaidOut | Completed | Expired | IntentFailed

  datatype Intent = Intent(merchant: Id, amountIdr: int, quotedUsdc: int, quote: Id, state: IntentState)

  datatype Quote = Quote(rateNum: int, rateScale: nat, spreadBps: int)

  datatype Merchant = Merchant(bankCode: Option<string>, accountNumber: Option<string>, accountName: Option<string>)

  datatype PayoutState = PayoutPending | PayoutSubmitting | PayoutSucceeded | PayoutFailed

  /** `id` is random per insert and doubles as the rail's idempotency key. */
  datatype Payout = Payout(id: Id, amountIdr: int, state: PayoutState, attempts: nat)

  datatype Step = StepCreditDeposit | StepTriggerPayout | StepApplyPayoutResult | StepEmitCompleted
      | StepUnknown(name: string)

  const FIRST_STEP := StepCreditDeposit

  datatype SagaState = SagaPending | SagaRunning | SagaCompleted | SagaFailed

  datatype Saga = Saga(step: Step, state: SagaState, attempts: int, nextRunAt: Time, leaseUntil: Option<Time>)

  datatype Commitment = Processed | Confirmed | Finalized

  datatype Deposit = Deposit(signature: Id, amount: int, commitment: Commitment, intent: Option<Id>)

  /** external_ref of the three entries settlement posts. */
  datatype Ref = CreditDepositRef(intent: Id) | FxSwapRef(intent: Id) | PayoutDisbursedRef(intent: Id) {
    function Text(): string {
      match this
      case CreditDepositRef(i) => "credit_deposit:" + Digits(i)
      case FxSwapRef(i) => "fx_swap_usdc:" + Digits(i)
      case PayoutDisbursedRef(i) => "payout_disbursed:" + Digits(i)
    }
  }

  /** Distinct refs are distinct texts, so uniqueness of the text is uniqueness of the ref. */
  lemma RefTextInjective(a: Ref, b: Ref)
    requires a.Text() == b.Text()
    ensures a == b
  {
    assert a.Text()[0] == b.Text()[0];
    var prefix :=
      match a
      case CreditDepositRef(_) => "credit_deposit:"
      case FxSwapRef(_) => "fx_swap_usdc:"
      case PayoutDisbursedRef(_) => "payout_disbursed:";
    assert a.Text()[|prefix|..] == Digits(a.intent);
    assert b.Text()[|prefix|..] == Digits(b.intent);
    DigitsInjective(a.intent, b.intent);
  }

  /** `deposit` is the signature quoted in the description of a deposit credit. */
  datatype JournalEntry = JournalEntry(ref: Ref, kind: string, deposit: Option<Id>, lines: seq<Ledger.Line>)

  datatype CompletedEvent = CompletedEvent(intent: Id, merchant: Id, state: IntentState, amountIdr: int,
                                           amountUsdc: int)

  datatype DB = DB(
    accounts: Ledger.Chart,
    merchants: map<Id, Merchant>,
    quotes: map<Id, Quote>,
    intents: map<Id, Intent>,
    sagas: map<Id, Saga>,
    payouts: map<Id, Payout>,
    journal: seq<JournalEntry>,
    onchain: seq<Deposit>,
    outbox: seq<Outbox.Row<CompletedEvent>>)

  // ---- Chart of accounts seeded by the migrations ----

  const USDC := "USDC"
  const IDR := "IDR"
  const HOT_WALLET := Ledger.AccountId("asset_hot_wallet_usdc", USDC)
  const USER_FUNDS := Ledger.AccountId("liability_user_funds_usdc", USDC)
  const FX_SETTLEMENT := Ledger.AccountId("equity_fx_settlement_usdc", USDC)
  const CASH_OUT := Ledger.AccountId("asset_cash_out_idr", IDR)
  const FX_REVENUE := Ledger.AccountId("revenue_fx_spread_idr", IDR)
  const FX_EXPENSE := Ledger.AccountId("expense_fx_swap_idr", IDR)

  const SEEDED: Ledger.Chart := map[
    HOT_WALLET := Ledger.Asset,
    USER_FUNDS := Ledger.Liability,
    Ledger.AccountId("merchant_payable_idr", IDR) := Ledger.Liability,
    CASH_OUT := Ledger.Asset,
    FX_REVENUE := Ledger.Revenue,
    Ledger.AccountId("expense_network_fee_usdc", USDC) := Ledger.Expense,
    FX_EXPENSE := Ledger.Expense,
    FX_SETTLEMENT := Ledger.Equity]

  // ---- Queries ----

  function CommitmentRank(c: Commitment): nat {
    match c case Processed => 0 case Confirmed => 1 case Finalized => 2
  }

  predicate HasEntry(journal: seq<JournalEntry>, ref: Ref) {
    exists k :: 0 <= k < |journal| && journal[k].ref == ref
  }

  predicate FinalizedFor(d: Deposit, intent: Id) {
    d.intent == Some(intent) && d.commitment == Finalized
  }

  /** `onchain[k]` is the oldest finalized deposit linked to the intent. */
  ghost predicate OldestFor(onchain: seq<Deposit>, intent: Id, k: nat) {
    k < |onchain| && FinalizedFor(onchain[k], intent) && forall j :: 0 <= j < k ==> !FinalizedFor(onchain[j], intent)
  }

  /** GetFinalizedDepositForIntent: the oldest finalized deposit linked to the intent. */
  function FinalizedDeposit(onchain: seq<Deposit>, intent: Id): (d: Option<Deposit>)
    ensures d.Some? ==> d.value in onchain && FinalizedFor(d.value, intent)
    ensures d.Some? ==> exists k: nat :: OldestFor(onchain, intent, k) && d.value == onchain[k]
    ensures d.None? <==> forall r :: r in onchain ==> !FinalizedFor(r, intent)
  {
    if onchain == [] then None
    else
      var rest := FinalizedDeposit(onchain[..|onchain| - 1], intent);
      var last := onchain[|onchain| - 1];
      assert onchain == onchain[..|onchain| - 1] + [last];
      if rest.Some? then rest else if FinalizedFor(last, intent) then Some(last) else None
  }

  function Groups(journal: seq<JournalEntry>): (g: seq<seq<Ledger.Line>>)
    ensures |g| == |journal| && forall k :: 0 <= k < |g| ==> g[k] == journal[k].lines
  {
    seq(|journal|, k requires 0 <= k < |journal| => journal[k].lines)
  }

  function NaturalBalance(db: DB, account: Ledger.AccountId): int
    requires account in db.accounts
  {
    Ledger.Balance(db.accounts[account], account, Ledger.Postings(Groups(db.journal)))
  }
}
