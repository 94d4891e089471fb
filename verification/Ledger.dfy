/** The double-entry ledger: in-process validation of an entry, the two database triggers
    that guard postings, natural-direction balances and conservation across the books. */
module Ledger {
  import opened MachineInts
  import opened Options

  datatype AccountType = Asset | Liability | Equity | Revenue | Expense

  /** accounts are unique on (code, currency). */
  datatype AccountId = AccountId(code: string, currency: string)

  type Chart = map<AccountId, AccountType>

  datatype Direction = Debit | Credit | OtherDirection(text: string)

  datatype Line = Line(account: AccountId, amount: int, currency: string, direction: Direction)

  datatype Entry = Entry(externalRef: string, kind: string, lines: seq<Line>)

  datatype ValidateError =
    | EmptyExternalRef | EmptyKind | NoLines | NonPositiveAmount
    | EmptyCurrency | InvalidDirection | Unbalanced

  // ---- Sums ----

  /** Debit minus credit. */
  function Signed(l: Line): int {
    match l.direction
    case Debit => l.amount
    case Credit => -l.amount
    case OtherDirection(_) => 0
  }

  /** Debit minus credit over the lines in one currency. */
  function Net(lines: seq<Line>, currency: string): int {
    if lines == [] then 0
    else
      var last := lines[|lines| - 1];
      Net(lines[..|lines| - 1], currency) + if last.currency == currency then Signed(last) else 0
  }

  lemma {:induction false} NetConcat(a: seq<Line>, b: seq<Line>, currency: string)
    ensures Net(a + b, currency) == Net(a, currency) + Net(b, currency)
  {
    if b == [] {
      assert a + b == a;
    } else {
      assert (a + b)[..|a + b| - 1] == a + b[..|b| - 1];
      NetConcat(a, b[..|b| - 1], currency);
    }
  }

  /** A currency no line uses nets to zero. */
  lemma {:induction false} NetUnused(lines: seq<Line>, currency: string)
    requires forall l :: l in lines ==> l.currency != currency
    ensures Net(lines, currency) == 0
  {
    if lines != [] { NetUnused(lines[..|lines| - 1], currency); }
  }

  // ---- Validate ----

  /** unicode.IsSpace */
  predicate IsSpace(c: char) {
    c in {'\t', '\n', '\U{0B}', '\U{0C}', '\r', ' ', '\U{85}', '\U{A0}', '\U{1680}',
          '\U{2028}', '\U{2029}', '\U{202F}', '\U{205F}', '\U{3000}'}
    || '\U{2000}' <= c <= '\U{200A}'
  }

  /** strings.TrimSpace(s) == "" */
  predicate Blank(s: string) {
    forall i :: 0 <= i < |s| ==> IsSpace(s[i])
  }

  function LineError(l: Line): Option<ValidateError> {
    if l.amount <= 0 then Some(NonPositiveAmount)
    else if Blank(l.currency) then Some(EmptyCurrency)
    else if l.direction.OtherDirection? then Some(InvalidDirection)
    else None
  }

  /** The error of the first bad line, in order. */
  function FirstLineError(lines: seq<Line>): Option<ValidateError> {
    if lines == [] then None
    else
      var before := FirstLineError(lines[..|lines| - 1]);
      if before.Some? then before else LineError(lines[|lines| - 1])
  }

  lemma {:induction false} FirstLineErrorOfPrefix(lines: seq<Line>, n: nat)
    requires n <= |lines| && FirstLineError(lines[..n]).Some?
    ensures FirstLineError(lines) == FirstLineError(lines[..n])
  {
    if n == |lines| {
      assert lines[..n] == lines;
    } else {
      assert lines[..|lines| - 1][..n] == lines[..n];
      FirstLineErrorOfPrefix(lines[..|lines| - 1], n);
    }
  }

  lemma {:induction false} NoLineErrorMeansClean(lines: seq<Line>)
    requires FirstLineError(lines).None?
    ensures forall l :: l in lines ==> LineError(l).None?
  {
    if lines != [] {
      NoLineErrorMeansClean(lines[..|lines| - 1]);
      assert lines == lines[..|lines| - 1] + [lines[|lines| - 1]];
    }
  }

  /** Every currency sums to zero in an int64 accumulator, that is modulo 2^64. */
  ghost predicate BalancedModulo(lines: seq<Line>) {
    forall c :: Net(lines, c) % TWO_64 == 0
  }

  ghost function Validation(e: Entry): Option<ValidateError> {
    if Blank(e.externalRef) then Some(EmptyExternalRef)
    else if Blank(e.kind) then Some(EmptyKind)
    else if e.lines == [] then Some(NoLines)
    else if FirstLineError(e.lines).Some? then FirstLineError(e.lines)
    else if !BalancedModulo(e.lines) then Some(Unbalanced)
    else None
  }

  /** Something other than space. */
  predicate Given(s: string) { exists i :: 0 <= i < |s| && !IsSpace(s[i]) }

  predicate GoodLine(l: Line) { l.amount > 0 && Given(l.currency) && (l.direction == Debit || l.direction == Credit) }

  lemma {:induction false} FirstLineErrorExactly(lines: seq<Line>)
    ensures FirstLineError(lines).None? <==> forall k :: 0 <= k < |lines| ==> GoodLine(lines[k])
    ensures FirstLineError(lines).Some? ==>
              exists k :: 0 <= k < |lines| && !GoodLine(lines[k]) && (forall j :: 0 <= j < k ==> GoodLine(lines[j]))
                          && (FirstLineError(lines).value == NonPositiveAmount <==> lines[k].amount <= 0)
                          && (FirstLineError(lines).value == EmptyCurrency <==>
                                lines[k].amount > 0 && !Given(lines[k].currency))
                          && (FirstLineError(lines).value == InvalidDirection <==>
                                lines[k].amount > 0 && Given(lines[k].currency))
  {
    if lines != [] {
      var n := |lines| - 1;
      var init := lines[..n];
      FirstLineErrorExactly(init);
      assert forall k :: 0 <= k < n ==> lines[k] == init[k];
    }
  }

  /** An entry is accepted exactly when its reference and kind are given, it has lines, each of a
      positive amount in a given currency, debit or credit, and every currency nets to zero modulo
      2^64. Otherwise the error names the first thing wrong. */
  lemma ValidationExactly(e: Entry)
    ensures var v := Validation(e);
            var good := forall k :: 0 <= k < |e.lines| ==> GoodLine(e.lines[k]);
            var formed := Given(e.externalRef) && Given(e.kind) && e.lines != [] && good;
            && (v == None <==> formed && NetsToZero(e.lines))
            && (v == Some(Unbalanced) <==> formed && !NetsToZero(e.lines))
            && (v == Some(EmptyExternalRef) <==> !Given(e.externalRef))
            && (v == Some(EmptyKind) <==> Given(e.externalRef) && !Given(e.kind))
            && (v == Some(NoLines) <==> Given(e.externalRef) && Given(e.kind) && e.lines == [])
  {
    FirstLineErrorExactly(e.lines);
    if BalancedModulo(e.lines) {
      forall c ensures Net(e.lines, c) % 0x1_0000_0000_0000_0000 == 0 {}
    } else {
      var c :| Net(e.lines, c) % TWO_64 != 0;
    }
  }

  ghost predicate NetsToZero(lines: seq<Line>) {
    forall c :: Net(lines, c) % 0x1_0000_0000_0000_0000 == 0
  }

  /** The accumulator of the first loop: each currency's net, wrapped to an int64. */
  ghost predicate Accumulates(sums: map<string, int>, lines: seq<Line>) {
    forall c :: Wrap64(Net(lines, c)) == if c in sums then sums[c] else 0
  }

  lemma AccumulateLine(sums: map<string, int>, lines: seq<Line>, l: Line)
    requires Accumulates(sums, lines)
    ensures var before := if l.currency in sums then sums[l.currency] else 0;
            Accumulates(sums[l.currency := Wrap64(before + Signed(l))], lines + [l])
  {
    assert (lines + [l])[..|lines|] == lines;
    WrapAdd(Net(lines, l.currency), Signed(l));
    assert Wrap64(Net(lines, l.currency)) == if l.currency in sums then sums[l.currency] else 0;
    forall c ensures c != l.currency ==> Net(lines + [l], c) == Net(lines, c) {}
  }

  lemma AccumulatedZero(sums: map<string, int>, lines: seq<Line>)
    requires Accumulates(sums, lines)
    ensures BalancedModulo(lines) <==> forall c :: c in sums ==> sums[c] == 0
  {
    forall c ensures Net(lines, c) % TWO_64 == 0 <==> Wrap64(Net(lines, c)) == 0 { WrapZero(Net(lines, c)); }
    if forall c :: c in sums ==> sums[c] == 0 {
      assert forall c :: Wrap64(Net(lines, c)) == 0;
    }
  }

  method AllZero(sums: map<string, int>) returns (zero: bool)
    ensures zero <==> forall c :: c in sums ==> sums[c] == 0
  {
    var keys := sums.Keys;
    while keys != {}
      invariant keys <= sums.Keys
      invariant forall c :: c in sums && c !in keys ==> sums[c] == 0
      decreases keys
    {
      var c :| c in keys;
      if sums[c] != 0 { return false; }
      keys := keys - {c};
    }
    return true;
  }

  /** Validate accepts exactly the well-formed entries whose every currency nets to zero
      modulo 2^64, and reports the first problem otherwise. */
  method Validate(e: Entry) returns (error: Option<ValidateError>)
    ensures error == Validation(e)
  {
    if Blank(e.externalRef) { return Some(EmptyExternalRef); }
    if Blank(e.kind) { return Some(EmptyKind); }
    if e.lines == [] { return Some(NoLines); }
    var sums: map<string, int> := map[];
    for i := 0 to |e.lines|
      invariant FirstLineError(e.lines[..i]).None?
      invariant Accumulates(sums, e.lines[..i])
    {
      var l := e.lines[i];
      assert e.lines[..i + 1] == e.lines[..i] + [l];
      assert (e.lines[..i] + [l])[..i] == e.lines[..i];
      if l.amount <= 0 { FirstLineErrorOfPrefix(e.lines, i + 1); return Some(NonPositiveAmount); }
      if Blank(l.currency) { FirstLineErrorOfPrefix(e.lines, i + 1); return Some(EmptyCurrency); }
      AccumulateLine(sums, e.lines[..i], l);
      var before := if l.currency in sums then sums[l.currency] else 0;
      match l.direction {
        case Debit => sums := sums[l.currency := Wrap64(before + l.amount)];
        case Credit => sums := sums[l.currency := Wrap64(before - l.amount)];
        case OtherDirection(_) => FirstLineErrorOfPrefix(e.lines, i + 1); return Some(InvalidDirection);
      }
    }
    assert e.lines[..|e.lines|] == e.lines;
    AccumulatedZero(sums, e.lines);
    var zero := AllZero(sums);
    return if zero then None else Some(Unbalanced);
  }

  // ---- The deferred trigger is stricter than Validate ----

  /** ledger_check_entry_balanced: exact, in NUMERIC arithmetic. */
  ghost predicate Balanced(lines: seq<Line>) {
    forall c :: Net(lines, c) == 0
  }

  ghost predicate SumsExactly(sums: map<string, int>, lines: seq<Line>) {
    forall c :: Net(lines, c) == if c in sums then sums[c] else 0
  }

  /** The trigger's GROUP BY: per-currency sums of an entry's postings, none of which may differ
      from zero. */
  method CheckBalanced(lines: seq<Line>) returns (ok: bool)
    ensures ok <==> Balanced(lines)
  {
    var sums: map<string, int> := map[];
    for i := 0 to |lines|
      invariant SumsExactly(sums, lines[..i])
    {
      var l := lines[i];
      assert lines[..i + 1][..i] == lines[..i];
      var before := if l.currency in sums then sums[l.currency] else 0;
      assert Net(lines[..i], l.currency) == before;
      sums := sums[l.currency := before + Signed(l)];
    }
    assert lines[..|lines|] == lines;
    ok := AllZero(sums);
    if !ok {
      var c :| c in sums && sums[c] != 0;
      assert Net(lines, c) != 0;
    }
  }

  /** ledger_check_posting_currency */
  predicate PostingAllowed(chart: Chart, l: Line) {
    l.account in chart && l.currency == l.account.currency && l.amount > 0 && !l.direction.OtherDirection?
  }

  /** Sum of |amount|: a bound on every partial sum the loop can reach. */
  function Volume(lines: seq<Line>): int {
    if lines == [] then 0 else Volume(lines[..|lines| - 1]) + lines[|lines| - 1].amount
  }

  lemma {:induction false} NetWithinVolume(lines: seq<Line>, currency: string)
    requires forall l :: l in lines ==> l.amount > 0
    ensures -Volume(lines) <= Net(lines, currency) <= Volume(lines)
  {
    if lines != [] { NetWithinVolume(lines[..|lines| - 1], currency); }
  }

  /** Every currency's sum lies strictly within 2^64 of zero. */
  ghost predicate SumsWithin(lines: seq<Line>) {
    forall c :: -TWO_64 < Net(lines, c) < TWO_64
  }

  /** The trigger accepts exactly the entries whose sums vanish modulo 2^64 and stay within it. */
  lemma TriggerExactly(lines: seq<Line>)
    ensures Balanced(lines) <==> BalancedModulo(lines) && SumsWithin(lines)
  {
    forall c ensures Net(lines, c) == 0 <==> Net(lines, c) % TWO_64 == 0 && -TWO_64 < Net(lines, c) < TWO_64 {
      OnlyZeroFits(Net(lines, c));
    }
    if BalancedModulo(lines) && SumsWithin(lines) {
      forall c ensures Net(lines, c) == 0 { assert Net(lines, c) % TWO_64 == 0; }
    }
  }

  lemma OnlyZeroFits(x: int)
    ensures x == 0 <==> x % TWO_64 == 0 && -TWO_64 < x < TWO_64
  {
  }

  /** Every partial sum of the first loop, in every currency, is one an int64 holds. */
  ghost predicate PartialSumsFit(lines: seq<Line>) {
    forall c, n :: 0 <= n <= |lines| ==> IsInt64(Net(lines[..n], c))
  }

  /** When no partial sum overflows, what Validate accepts is exactly what the trigger accepts. */
  lemma ValidateAgreesWithTrigger(lines: seq<Line>)
    requires PartialSumsFit(lines)
    ensures BalancedModulo(lines) <==> Balanced(lines)
  {
    assert lines[..|lines|] == lines;
    forall c ensures -TWO_64 < Net(lines, c) < TWO_64 { assert IsInt64(Net(lines[..|lines|], c)); }
    TriggerExactly(lines);
  }

  /** So too when the amounts add up to less than 2^64, overflow on the way or not. */
  lemma SmallVolumeAgrees(lines: seq<Line>)
    requires FirstLineError(lines).None? && Volume(lines) < TWO_64
    ensures BalancedModulo(lines) <==> Balanced(lines)
  {
    NoLineErrorMeansClean(lines);
    forall c ensures -TWO_64 < Net(lines, c) < TWO_64 { NetWithinVolume(lines, c); }
    TriggerExactly(lines);
  }

  /** At 2^64 they part: three debits and no credit pass Validate and fail the trigger. */
  lemma ValidateWrapWitness(account: AccountId)
    ensures var d := (a: int) => Line(account, a, "USDC", Debit);
            var e := Entry("ref", "kind", [d(TWO_63 - 1), d(TWO_63 - 1), d(2)]);
            Validation(e) == None && !Balanced(e.lines)
  {
    var d := (a: int) => Line(account, a, "USDC", Debit);
    var lines := [d(TWO_63 - 1), d(TWO_63 - 1), d(2)];
    assert "ref"[0] == 'r' && "kind"[0] == 'k' && "USDC"[0] == 'U';
    assert lines[..2] == [d(TWO_63 - 1), d(TWO_63 - 1)];
    assert lines[..2][..1] == [d(TWO_63 - 1)];
    assert lines[..2][..1][..0] == [];
    assert forall l :: l in lines ==> LineError(l).None?;
    assert FirstLineError(lines[..2][..1]).None?;
    assert FirstLineError(lines[..2]).None?;
    forall c ensures Net(lines, c) == if c == "USDC" then TWO_64 else 0 {
      assert Net(lines[..2][..1], c) == if c == "USDC" then TWO_63 - 1 else 0;
      assert Net(lines[..2], c) == if c == "USDC" then TWO_64 - 2 else 0;
    }
    assert Net(lines, "USDC") == TWO_64;
  }

  // ---- Balances ----

  predicate DebitNormal(t: AccountType) { t == Asset || t == Expense }

  function Natural(t: AccountType, l: Line): int {
    if DebitNormal(t) then Signed(l) else -Signed(l)
  }

  /** AccountBalance: the postings of one account in its natural direction. */
  function Balance(t: AccountType, account: AccountId, postings: seq<Line>): int {
    if postings == [] then 0
    else
      var last := postings[|postings| - 1];
      Balance(t, account, postings[..|postings| - 1]) + if last.account == account then Natural(t, last) else 0
  }

  lemma {:induction false} BalanceConcat(t: AccountType, account: AccountId, a: seq<Line>, b: seq<Line>)
    ensures Balance(t, account, a + b) == Balance(t, account, a) + Balance(t, account, b)
  {
    if b == [] {
      assert a + b == a;
    } else {
      assert (a + b)[..|a + b| - 1] == a + b[..|b| - 1];
      BalanceConcat(t, account, a, b[..|b| - 1]);
    }
  }

  /** Total natural balance of the accounts of one normal side in one currency. */
  function SideTotal(chart: Chart, order: seq<AccountId>, postings: seq<Line>, currency: string, debitSide: bool): int
    requires forall a :: a in order ==> a in chart
  {
    if order == [] then 0
    else
      var a := order[|order| - 1];
      SideTotal(chart, order[..|order| - 1], postings, currency, debitSide)
      + if a.currency == currency && DebitNormal(chart[a]) == debitSide
        then Balance(chart[a], a, postings) else 0
  }

  predicate Distinct<T(==)>(s: seq<T>) {
    forall i, j :: 0 <= i < j < |s| ==> s[i] != s[j]
  }

  /** What one posting adds to (debit side - credit side). */
  lemma {:induction false} SideTotalStep(chart: Chart, order: seq<AccountId>, postings: seq<Line>, l: Line,
                                         currency: string)
    requires forall a :: a in order ==> a in chart
    requires Distinct(order) && l.currency == l.account.currency
    ensures SideTotal(chart, order, postings + [l], currency, true)
            - SideTotal(chart, order, postings + [l], currency, false)
         == SideTotal(chart, order, postings, currency, true) - SideTotal(chart, order, postings, currency, false)
            + if l.account in order && l.currency == currency then Signed(l) else 0
  {
    assert (postings + [l])[..|postings|] == postings;
    if order != [] {
      var rest, a := order[..|order| - 1], order[|order| - 1];
      assert order == rest + [a];
      SideTotalStep(chart, rest, postings, l, currency);
      assert l.account == a ==> l.account !in rest;
    }
  }

  /** Debit-normal and credit-normal balances differ by the net of all postings. */
  lemma {:induction false} SidesDifferByNet(chart: Chart, order: seq<AccountId>, postings: seq<Line>, currency: string)
    requires forall a :: a in order ==> a in chart
    requires Distinct(order)
    requires forall l :: l in postings ==> l.account in order && l.currency == l.account.currency
    ensures SideTotal(chart, order, postings, currency, true) - SideTotal(chart, order, postings, currency, false)
         == Net(postings, currency)
  {
    if postings == [] {
      EmptySideTotal(chart, order, currency, true);
      EmptySideTotal(chart, order, currency, false);
    } else {
      var rest, l := postings[..|postings| - 1], postings[|postings| - 1];
      assert postings == rest + [l];
      SidesDifferByNet(chart, order, rest, currency);
      SideTotalStep(chart, order, rest, l, currency);
    }
  }

  lemma {:induction false} EmptySideTotal(chart: Chart, order: seq<AccountId>, currency: string, side: bool)
    requires forall a :: a in order ==> a in chart
    ensures SideTotal(chart, order, [], currency, side) == 0
  {
    if order != [] { EmptySideTotal(chart, order[..|order| - 1], currency, side); }
  }

  /** The posting table of a journal: its entries' lines, in order. */
  function Postings(groups: seq<seq<Line>>): seq<Line> {
    if groups == [] then [] else Postings(groups[..|groups| - 1]) + groups[|groups| - 1]
  }

  lemma {:induction false} BalancedGroupsNetToZero(groups: seq<seq<Line>>, currency: string)
    requires forall g :: g in groups ==> Balanced(g)
    ensures Net(Postings(groups), currency) == 0
  {
    if groups != [] {
      var rest, last := groups[..|groups| - 1], groups[|groups| - 1];
      BalancedGroupsNetToZero(rest, currency);
      NetConcat(Postings(rest), last, currency);
      assert last in groups;
    }
  }

  lemma {:induction false} PostingsFrom(groups: seq<seq<Line>>, l: Line)
    requires l in Postings(groups)
    ensures exists g :: g in groups && l in g
  {
    var rest, last := groups[..|groups| - 1], groups[|groups| - 1];
    if l in last {
      assert last in groups;
    } else {
      PostingsFrom(rest, l);
      var g :| g in rest && l in g;
      assert g in groups;
    }
  }

  /** Conservation: when every entry passed both triggers, the debit-normal and the credit-normal
      balances of a currency are equal. */
  lemma Conservation(chart: Chart, order: seq<AccountId>, groups: seq<seq<Line>>, currency: string)
    requires forall a :: a in order <==> a in chart
    requires Distinct(order)
    requires forall g :: g in groups ==> Balanced(g)
    requires forall g, l :: g in groups && l in g ==> PostingAllowed(chart, l)
    ensures SideTotal(chart, order, Postings(groups), currency, true)
         == SideTotal(chart, order, Postings(groups), currency, false)
  {
    forall l | l in Postings(groups) ensures l.account in order && l.currency == l.account.currency {
      PostingsFrom(groups, l);
    }
    SidesDifferByNet(chart, order, Postings(groups), currency);
    BalancedGroupsNetToZero(groups, currency);
  }
}
