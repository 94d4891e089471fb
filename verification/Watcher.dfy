/** The chain watcher: which transfers it records, what the recorded rows say after any sequence of
    events, and when a settlement saga exists. */
module Watcher {
  import opened MachineInts
  import opened Options
  import opened Schema
  import opened Steps
  import opened Protocol
  import opened Safety
  import opened Tables
  import Adversarial

  type PubKey = nat

  datatype Transfer = Transfer(dest: PubKey, mint: PubKey, decimals: nat, amount: nat)

  /** What fetching, decoding and parsing a transaction comes to. */
  datatype Fetched = RpcError | Missing | TxFailed | Undecodable | NoTransfer | BadTransfer
      | Tx(transfer: Transfer, accounts: seq<PubKey>)

  datatype Config = Config(hotWallet: PubKey, mint: PubKey, decimals: nat)

  datatype RpcCommitment = RpcProcessed | RpcConfirmed | RpcFinalized | RpcOther

  function CommitmentToDb(c: RpcCommitment): Commitment {
    match c case RpcConfirmed => Confirmed case RpcFinalized => Finalized case _ => Processed
  }

  datatype Verdict = Ignore | Reject | Accept(deposit: Deposit)

  /** The account keys of a transaction name an intent by the first reference among them. */
  function FirstKnown(accounts: seq<PubKey>, refs: map<PubKey, Id>): (link: Option<Id>)
    ensures link.None? <==> forall k :: 0 <= k < |accounts| ==> accounts[k] !in refs
    ensures link.Some? ==>
              exists k :: 0 <= k < |accounts| && accounts[k] in refs && refs[accounts[k]] == link.value
                          && forall j :: 0 <= j < k ==> accounts[j] !in refs
  {
    if accounts == [] then None
    else if accounts[0] in refs then Some(refs[accounts[0]])
    else
      var rest := FirstKnown(accounts[1..], refs);
      assert rest.Some? ==>
          exists k :: 1 <= k < |accounts| && accounts[k] in refs && refs[accounts[k]] == rest.value
                      && forall j :: 0 <= j < k ==> accounts[j] !in refs by {
        if rest.Some? {
          var k :| 0 <= k < |accounts[1..]| && accounts[1..][k] in refs && refs[accounts[1..][k]] == rest.value
                   && forall j :: 0 <= j < k ==> accounts[1..][j] !in refs;
          assert accounts[k + 1] == accounts[1..][k];
          forall j | 0 <= j < k + 1 ensures accounts[j] !in refs {
            if j > 0 { assert accounts[j] == accounts[1..][j - 1]; }
          }
        }
      }
      rest
  }

  function Judge(cfg: Config, refs: map<PubKey, Id>, signature: Id, c: RpcCommitment, f: Fetched): Verdict {
    match f
    case RpcError => Reject
    case Missing => Ignore
    case TxFailed => Ignore
    case Undecodable => Reject
    case NoTransfer => Ignore
    case BadTransfer => Reject
    case Tx(t, accounts) =>
      if t.dest != cfg.hotWallet || t.mint != cfg.mint then Ignore
      else if t.decimals != cfg.decimals || t.amount >= TWO_63 then Reject
      else Accept(Deposit(signature, t.amount, CommitmentToDb(c), FirstKnown(accounts, refs)))
  }

  /** The column checks of onchain_payments: a positive amount and an existing intent. */
  predicate Storable(db: DB, d: Deposit) {
    0 < d.amount && (d.intent.Some? ==> d.intent.value in db.intents)
  }

  /** A signature to process: what the chain answers, and whether the database fails. */
  datatype Event = Event(signature: Id, commitment: RpcCommitment, fetched: Fetched, dbFails: bool)

  function AfterEvent(db: DB, cfg: Config, refs: map<PubKey, Id>, e: Event, now: Time): DB {
    match Judge(cfg, refs, e.signature, e.commitment, e.fetched)
    case Accept(d) => if e.dbFails || !Storable(db, d) then db else ObserveDeposit(db, d, now)
    case _ => db
  }

  function AfterEvents(db: DB, cfg: Config, refs: map<PubKey, Id>, events: seq<Event>, now: Time): DB {
    if events == [] then db
    else AfterEvent(AfterEvents(db, cfg, refs, events[..|events| - 1], now), cfg, refs, events[|events| - 1], now)
  }

  lemma AfterEventsSnoc(db: DB, cfg: Config, refs: map<PubKey, Id>, events: seq<Event>, e: Event, now: Time)
    ensures AfterEvents(db, cfg, refs, events + [e], now)
              == AfterEvent(AfterEvents(db, cfg, refs, events, now), cfg, refs, e, now)
  {
    assert (events + [e])[..|events|] == events;
  }

  function Polled(signature: Id, fetch: Id -> Fetched, dbFails: Id -> bool): Event {
    Event(signature, RpcConfirmed, fetch(signature), dbFails(signature))
  }

  /** A signature an address listing returns. */
  datatype Listed = Listed(signature: Id, failed: bool)

  /** Every listed signature that did not fail is among the events. */
  ghost predicate Covers(events: seq<Event>, sigs: seq<Listed>, fetch: Id -> Fetched, dbFails: Id -> bool) {
    forall k :: 0 <= k < |sigs| && !sigs[k].failed ==> Polled(sigs[k].signature, fetch, dbFails) in events
  }

  /** The signature is listed for a known reference, as one that did not fail. */
  ghost predicate IsListed(refs: map<PubKey, Id>, list: PubKey -> Option<seq<Listed>>, signature: Id) {
    exists ref :: ref in refs && list(ref).Some? && Listed(signature, false) in list(ref).value
  }

  /** A row of ListActiveReferenceIntents. */
  datatype Reference = Reference(id: Id, pubkey: Option<string>)

  /** The references that decode; a later row overrides an earlier one. */
  function RefsOf(rows: seq<Reference>, decode: string -> Option<PubKey>): map<PubKey, Id> {
    if rows == [] then map[]
    else
      var refs, r := RefsOf(rows[..|rows| - 1], decode), rows[|rows| - 1];
      if r.pubkey.Some? && decode(r.pubkey.value).Some? then refs[decode(r.pubkey.value).value := r.id] else refs
  }

  predicate Names(r: Reference, decode: string -> Option<PubKey>, pub: PubKey) {
    r.pubkey.Some? && decode(r.pubkey.value) == Some(pub)
  }

  /** A key is known exactly when some active intent names it, and stands for the last that does. */
  lemma {:induction false} RefsExactly(rows: seq<Reference>, decode: string -> Option<PubKey>, pub: PubKey)
    ensures pub in RefsOf(rows, decode) <==> exists k :: 0 <= k < |rows| && Names(rows[k], decode, pub)
    ensures forall k :: 0 <= k < |rows| && Names(rows[k], decode, pub)
                        && (forall j :: k < j < |rows| ==> !Names(rows[j], decode, pub))
              ==> RefsOf(rows, decode)[pub] == rows[k].id
  {
    if rows != [] {
      var n := |rows| - 1;
      var init := rows[..n];
      RefsExactly(init, decode, pub);
      assert rows == init + [rows[n]];
      if exists k :: 0 <= k < n && Names(init[k], decode, pub) {
        var k :| 0 <= k < n && Names(init[k], decode, pub);
        assert Names(rows[k], decode, pub);
      }
    }
  }

  /** ListUnfinalizedOnchainPayments: the signatures of the oldest rows not finalized. */
  function Unfinalized(rows: seq<Deposit>, limit: nat): (s: seq<Id>)
    ensures |s| <= limit
  {
    if rows == [] then []
    else
      var before, last := Unfinalized(rows[..|rows| - 1], limit), rows[|rows| - 1];
      if last.commitment != Finalized && |before| < limit then before + [last.signature] else before
  }

  /** Each signature at finalized commitment, in order. */
  function Promotions(sigs: seq<Id>, fetch: Id -> Fetched, dbFails: Id -> bool): (events: seq<Event>)
    ensures |events| == |sigs|
    ensures forall k :: 0 <= k < |sigs| ==> events[k] == Event(sigs[k], RpcFinalized, fetch(sigs[k]), dbFails(sigs[k]))
  {
    seq(|sigs|, k requires 0 <= k < |sigs| => Event(sigs[k], RpcFinalized, fetch(sigs[k]), dbFails(sigs[k])))
  }

  function CountUnfinalized(rows: seq<Deposit>): nat {
    if rows == [] then 0
    else CountUnfinalized(rows[..|rows| - 1]) + if rows[|rows| - 1].commitment == Finalized then 0 else 1
  }

  /** The list is the unfinalized rows in order, cut at the limit: every unfinalized row is listed, at the
      place its age gives it, unless `limit` older ones are. */
  lemma {:induction false} UnfinalizedExactly(rows: seq<Deposit>, limit: nat, k: nat)
    ensures var n := CountUnfinalized(rows); |Unfinalized(rows, limit)| == if n < limit then n else limit
    ensures k < |rows| && rows[k].commitment != Finalized ==>
              var older := CountUnfinalized(rows[..k]);
              older < limit ==>
                older < |Unfinalized(rows, limit)| && Unfinalized(rows, limit)[older] == rows[k].signature
  {
    if rows != [] {
      var n := |rows| - 1;
      UnfinalizedExactly(rows[..n], limit, k);
      if k < n { assert rows[..n][..k] == rows[..k]; }
    }
  }

  class ChainWatcher {
    const cfg: Config
    const db: Database
    var refs: map<PubKey, Id>

    constructor (cfg: Config, db: Database)
      ensures this.cfg == cfg && this.db == db && refs == map[]
    {
      this.cfg, this.db, refs := cfg, db, map[];
    }

    /** The whole map is replaced, or on a query error kept. */
    method RefreshReferences(rows: seq<Reference>, decode: string -> Option<PubKey>, fails: bool)
      modifies this`refs
      ensures refs == if fails then old(refs) else RefsOf(rows, decode)
    {
      if fails { return; }
      var next: map<PubKey, Id> := map[];
      for n := 0 to |rows|
        invariant next == RefsOf(rows[..n], decode)
      {
        assert rows[..n + 1][..n] == rows[..n];
        if rows[n].pubkey.Some? {
          var pub := decode(rows[n].pubkey.value);
          if pub.Some? { next := next[pub.value := rows[n].id]; }
        }
      }
      assert rows[..|rows|] == rows;
      refs := next;
    }

    method MatchReference(accounts: seq<PubKey>) returns (link: Option<Id>)
      ensures link == FirstKnown(accounts, refs)
    {
      var n := 0;
      assert accounts[0..] == accounts;
      while n < |accounts|
        invariant n <= |accounts| && FirstKnown(accounts, refs) == FirstKnown(accounts[n..], refs)
      {
        if accounts[n] in refs { return Some(refs[accounts[n]]); }
        assert accounts[n..][1..] == accounts[n + 1..];
        n := n + 1;
      }
      return None;
    }

    /** Record one transaction; the upsert and the enqueue are one transaction. */
    method ProcessSignature(e: Event, now: Time) returns (ok: bool)
      modifies db
      ensures db.View() == AfterEvent(old(db.View()), cfg, refs, e, now)
      ensures ok <==>
              match Judge(cfg, refs, e.signature, e.commitment, e.fetched)
              case Ignore => true
              case Reject => false
              case Accept(d) => !e.dbFails && Storable(old(db.View()), d)
      ensures ok <==>
              match e.fetched
              case RpcError => false
              case Undecodable => false
              case BadTransfer => false
              case Tx(t, _) => t.dest != cfg.hotWallet || t.mint != cfg.mint || Records(old(db.View()), cfg, refs, e)
              case _ => true
      ensures !Records(old(db.View()), cfg, refs, e) ==> db.View() == old(db.View())
      ensures Records(old(db.View()), cfg, refs, e) && RowOf(old(db.onchain), e.signature).None? ==>
                && db.onchain == old(db.onchain) + [db.onchain[|old(db.onchain)|]]
                && var row := db.onchain[|old(db.onchain)|];
                   && row.signature == e.signature && row.amount == e.fetched.transfer.amount
                   && row.intent == FirstKnown(e.fetched.accounts, refs)
                   && (row.commitment == Finalized <==> e.commitment == RpcFinalized)
                   && (row.commitment == Confirmed <==> e.commitment == RpcConfirmed)
      ensures forall i :: i in db.sagas && i !in old(db.sagas) ==>
                || e.commitment == RpcFinalized
                || exists d :: d in old(db.onchain) && d.signature == e.signature && d.commitment == Finalized
    {
      RecordsIsAccept(db.View(), cfg, refs, e);
      EventExactly(db.View(), cfg, refs, e, now);
      CommitmentsExactly(e, refs);
      forall i | i in AfterEvent(db.View(), cfg, refs, e, now).sagas && i !in db.sagas
        ensures e.commitment == RpcFinalized
             || exists d :: d in db.onchain && d.signature == e.signature && d.commitment == Finalized
      {
        FinalizedBy(db.View(), refs, e, i);
      }
      match e.fetched {
        case RpcError => return false;
        case Missing => return true;
        case TxFailed => return true;
        case Undecodable => return false;
        case NoTransfer => return true;
        case BadTransfer => return false;
        case Tx(t, accounts) =>
          if t.dest != cfg.hotWallet { return true; }
          if t.mint != cfg.mint { return true; }
          if t.decimals != cfg.decimals { return false; }
          if t.amount > TWO_63 - 1 { return false; }
          var link := MatchReference(accounts);
          ok := Upsert(Deposit(e.signature, t.amount, CommitmentToDb(e.commitment), link), e.dbFails, now);
      }
    }

    method Upsert(d: Deposit, fails: bool, now: Time) returns (ok: bool)
      modifies db
      ensures ok <==> !fails && Storable(old(db.View()), d)
      ensures db.View() == if ok then ObserveDeposit(old(db.View()), d, now) else old(db.View())
    {
      if fails || d.amount <= 0 || (d.intent.Some? && d.intent.value !in db.intents) { return false; }
      var row := db.UpsertOnchainPayment(d);
      if row.commitment == Finalized && row.intent.Some? { db.EnqueueSagaRun(row.intent.value, now); }
      return true;
    }

    method ProcessEach(events: seq<Event>, now: Time)
      modifies db
      ensures db.View() == AfterEvents(old(db.View()), cfg, refs, events, now)
    {
      for n := 0 to |events|
        invariant db.View() == AfterEvents(old(db.View()), cfg, refs, events[..n], now)
      {
        assert events[..n + 1] == events[..n] + [events[n]];
        AfterEventsSnoc(old(db.View()), cfg, refs, events[..n], events[n], now);
        var _ := ProcessSignature(events[n], now);
      }
      assert events[..|events|] == events;
    }

    /** Re-examine the oldest unfinalized rows at finalized commitment; errors are only logged. */
    method PromoteUnfinalized(limit: nat, fetch: Id -> Fetched, dbFails: Id -> bool, now: Time)
      modifies db
      ensures var sigs := Unfinalized(old(db.onchain), limit);
              db.View() == AfterEvents(old(db.View()), cfg, refs,
                Promotions(sigs, fetch, dbFails), now)
    {
      var sigs: seq<Id> := [];
      for n := 0 to |db.onchain|
        invariant sigs == Unfinalized(db.onchain[..n], limit)
      {
        assert db.onchain[..n + 1][..n] == db.onchain[..n];
        if db.onchain[n].commitment != Finalized && |sigs| < limit { sigs := sigs + [db.onchain[n].signature]; }
      }
      assert db.onchain[..|db.onchain|] == db.onchain;
      ProcessEach(Promotions(sigs, fetch, dbFails), now);
    }

    /** Sweep the known references, in any order, at confirmed commitment: every signature listed for
        one and not marked as failed is processed. A listing that fails is skipped. */
    method PollReferences(list: PubKey -> Option<seq<Listed>>, fetch: Id -> Fetched, dbFails: Id -> bool, now: Time)
      returns (ghost events: seq<Event>)
      modifies db
      ensures db.View() == AfterEvents(old(db.View()), cfg, refs, events, now)
      ensures forall e :: e in events ==> e == Polled(e.signature, fetch, dbFails) && IsListed(refs, list, e.signature)
      ensures forall ref :: ref in refs && list(ref).Some? ==> Covers(events, list(ref).value, fetch, dbFails)
    {
      events := [];
      var rest := refs.Keys;
      while rest != {}
        invariant rest <= refs.Keys
        invariant db.View() == AfterEvents(old(db.View()), cfg, refs, events, now)
        invariant forall e :: e in events ==>
                    e == Polled(e.signature, fetch, dbFails) && IsListed(refs, list, e.signature)
        invariant forall ref :: ref in refs && ref !in rest && list(ref).Some? ==>
                    Covers(events, list(ref).value, fetch, dbFails)
        decreases rest
      {
        var ref :| ref in rest;
        rest := rest - {ref};
        var sigs := list(ref);
        if sigs.None? { continue; }
        for k := 0 to |sigs.value|
          invariant db.View() == AfterEvents(old(db.View()), cfg, refs, events, now)
          invariant forall e :: e in events ==>
                      e == Polled(e.signature, fetch, dbFails) && IsListed(refs, list, e.signature)
          invariant forall r :: r in refs && r !in rest && r != ref && list(r).Some? ==>
                      Covers(events, list(r).value, fetch, dbFails)
          invariant Covers(events, sigs.value[..k], fetch, dbFails)
        {
          assert sigs.value[..k + 1] == sigs.value[..k] + [sigs.value[k]];
          var sig := sigs.value[k].signature;
          if sigs.value[k].failed { continue; }
          assert IsListed(refs, list, sig) by { assert sigs.value[k] == Listed(sig, false); }
          var e := Polled(sig, fetch, dbFails);
          AfterEventsSnoc(old(db.View()), cfg, refs, events, e, now);
          var _ := ProcessSignature(e, now);
          events := events + [e];
        }
        assert sigs.value[..|sigs.value|] == sigs.value;
      }
    }
  }

  // ---- What one event records ----

  /** A transfer to the hot wallet of the right mint and scale, of an amount an int64 holds. */
  predicate PaysUs(cfg: Config, f: Fetched) {
    && f.Tx? && f.transfer.dest == cfg.hotWallet && f.transfer.mint == cfg.mint && f.transfer.decimals == cfg.decimals
    && 0 < f.transfer.amount < 0x8000_0000_0000_0000
  }

  /** ... that the database takes. */
  predicate Records(db: DB, cfg: Config, refs: map<PubKey, Id>, e: Event) {
    && PaysUs(cfg, e.fetched) && !e.dbFails
    && (forall k :: 0 <= k < |e.fetched.accounts| && e.fetched.accounts[k] in refs
                    && (forall j :: 0 <= j < k ==> e.fetched.accounts[j] !in refs) ==>
          refs[e.fetched.accounts[k]] in db.intents)
  }

  lemma RecordsIsAccept(db: DB, cfg: Config, refs: map<PubKey, Id>, e: Event)
    ensures var v := Judge(cfg, refs, e.signature, e.commitment, e.fetched);
            && (Records(db, cfg, refs, e) <==> v.Accept? && !e.dbFails && Storable(db, v.deposit))
            && (v.Accept? ==> v.deposit == EventDeposit(e, refs))
  {
    if e.fetched.Tx? { LinkStorable(db, refs, e.fetched.accounts); }
  }

  /** What one event does to the deposits and the sagas: nothing unless it records; then its own row and
      no other, and a saga only for a finalized row. */
  lemma EventExactly(db: DB, cfg: Config, refs: map<PubKey, Id>, e: Event, now: Time)
    ensures var db' := AfterEvent(db, cfg, refs, e, now);
            && (!Records(db, cfg, refs, e) ==> db' == db)
            && (Records(db, cfg, refs, e) ==>
                  && db'.onchain == UpsertDeposit(db.onchain, EventDeposit(e, refs))
                  && db' == db.(onchain := db'.onchain, sagas := db'.sagas))
            && (forall i :: i in db'.sagas && i !in db.sagas ==>
                  FinalizedFor(UpsertedRow(db.onchain, EventDeposit(e, refs)), i))
  {
    RecordsIsAccept(db, cfg, refs, e);
  }

  /** ... which it was already, unless the event was at finalized commitment. */
  lemma FinalizedBy(db: DB, refs: map<PubKey, Id>, e: Event, i: Id)
    requires FinalizedFor(UpsertedRow(db.onchain, EventDeposit(e, refs)), i)
    ensures || e.commitment == RpcFinalized
            || (var row := RowOf(db.onchain, e.signature); row.Some? && row.value.commitment == Finalized)
  {
    CommitmentsExactly(e, refs);
  }

  lemma CommitmentsExactly(e: Event, refs: map<PubKey, Id>)
    ensures EventDeposit(e, refs).commitment == Finalized ==> e.commitment == RpcFinalized
    ensures e.fetched.Tx? ==> (EventDeposit(e, refs).commitment == Finalized <==> e.commitment == RpcFinalized)
    ensures e.fetched.Tx? ==> (EventDeposit(e, refs).commitment == Confirmed <==> e.commitment == RpcConfirmed)
  {
  }

  function EventDeposit(e: Event, refs: map<PubKey, Id>): Deposit {
    if e.fetched.Tx? then
      Deposit(e.signature, e.fetched.transfer.amount, CommitmentToDb(e.commitment),
              FirstKnown(e.fetched.accounts, refs))
    else Deposit(e.signature, 0, Processed, None)
  }

  lemma LinkStorable(db: DB, refs: map<PubKey, Id>, accounts: seq<PubKey>)
    ensures (FirstKnown(accounts, refs).Some? ==> FirstKnown(accounts, refs).value in db.intents) <==>
            (forall k :: 0 <= k < |accounts| && accounts[k] in refs
                         && (forall j :: 0 <= j < k ==> accounts[j] !in refs) ==>
               refs[accounts[k]] in db.intents)
  {
    var link := FirstKnown(accounts, refs);
    if link.Some? {
      var k :| 0 <= k < |accounts| && accounts[k] in refs && refs[accounts[k]] == link.value
               && forall j :: 0 <= j < k ==> accounts[j] !in refs;
      forall m | 0 <= m < |accounts| && accounts[m] in refs && (forall j :: 0 <= j < m ==> accounts[j] !in refs)
        ensures m == k {}
    }
  }

  /** Polling and the subscription, which look at confirmed commitment, start no settlement of a deposit
      that was not finalized before. */
  lemma ConfirmedStartsNothing(db: DB, cfg: Config, refs: map<PubKey, Id>, e: Event, now: Time, i: Id)
    requires EnqueuedOk(db) && e.commitment != RpcFinalized
    requires i !in db.sagas && i in AfterEvent(db, cfg, refs, e, now).sagas
    ensures exists d :: d in db.onchain && d.signature == e.signature && d.commitment == Finalized && d.intent.None?
  {
    EventExactly(db, cfg, refs, e, now);
    FinalizedBy(db, refs, e, i);
    var k := FindDeposit(db.onchain, e.signature).value;
    assert db.onchain[k] in db.onchain;
    assert !HasFinalized(db.onchain, i);
    assert !FinalizedFor(db.onchain[k], i);
  }

  // ---- Rows after any sequence of upserts ----

  function RowOf(rows: seq<Deposit>, signature: Id): Option<Deposit> {
    match FindDeposit(rows, signature) case None => None case Some(k) => Some(rows[k])
  }

  function Upserted(rows: seq<Deposit>, ds: seq<Deposit>): seq<Deposit> {
    if ds == [] then rows else UpsertDeposit(Upserted(rows, ds[..|ds| - 1]), ds[|ds| - 1])
  }

  lemma {:induction false} FindSame(rows: seq<Deposit>, rows': seq<Deposit>, signature: Id)
    requires |rows| == |rows'| && forall k :: 0 <= k < |rows| ==> rows[k].signature == rows'[k].signature
    ensures FindDeposit(rows, signature) == FindDeposit(rows', signature)
  {
    if rows != [] { FindSame(rows[..|rows| - 1], rows'[..|rows| - 1], signature); }
  }

  /** An upsert touches the row of its signature and no other. */
  lemma UpsertTouchesOne(rows: seq<Deposit>, d: Deposit, signature: Id)
    ensures RowOf(UpsertDeposit(rows, d), signature)
         == if signature == d.signature then Some(UpsertedRow(rows, d)) else RowOf(rows, signature)
  {
    var at, rows' := FindDeposit(rows, d.signature), UpsertDeposit(rows, d);
    if at.None? {
      assert rows'[..|rows'| - 1] == rows;
    } else {
      FindSame(rows, rows', signature);
    }
  }

  predicate Seen(ds: seq<Deposit>, signature: Id) {
    exists k :: 0 <= k < |ds| && ds[k].signature == signature
  }

  /** The highest commitment seen for a signature. */
  ghost predicate IsHighest(ds: seq<Deposit>, signature: Id, c: Commitment) {
    && (exists k :: 0 <= k < |ds| && ds[k].signature == signature && ds[k].commitment == c)
    && forall k :: 0 <= k < |ds| && ds[k].signature == signature ==>
      CommitmentRank(ds[k].commitment) <= CommitmentRank(c)
  }

  /** The first link seen for a signature. */
  function FirstLink(ds: seq<Deposit>, signature: Id): Option<Id> {
    if ds == [] then None
    else
      var before := FirstLink(ds[..|ds| - 1], signature);
      if before.Some? || ds[|ds| - 1].signature != signature then before else ds[|ds| - 1].intent
  }

  function FirstAmount(ds: seq<Deposit>, signature: Id): Option<int> {
    if ds == [] then None
    else
      var before := FirstAmount(ds[..|ds| - 1], signature);
      if before.Some? || ds[|ds| - 1].signature != signature then before else Some(ds[|ds| - 1].amount)
  }

  ghost predicate RowIs(row: Option<Deposit>, ds: seq<Deposit>, signature: Id) {
    && (row.Some? <==> Seen(ds, signature))
    && (row.Some? ==>
          && row.value.signature == signature && IsHighest(ds, signature, row.value.commitment)
          && row.value.intent == FirstLink(ds, signature) && Some(row.value.amount) == FirstAmount(ds, signature))
    && (row.None? ==> FirstLink(ds, signature) == None && FirstAmount(ds, signature) == None)
  }

  /** After any order and repetition of events: a row exists for each signature seen, with the highest
      commitment seen, the first amount and the first link. */
  lemma {:induction false} RowExactly(ds: seq<Deposit>, signature: Id)
    ensures RowIs(RowOf(Upserted([], ds), signature), ds, signature)
  {
    if ds != [] {
      RowExactly(ds[..|ds| - 1], signature);
      RowUpserted(ds, signature);
    }
  }

  lemma RowUpserted(ds: seq<Deposit>, signature: Id)
    requires ds != []
    requires var init := ds[..|ds| - 1]; RowIs(RowOf(Upserted([], init), signature), init, signature)
    ensures RowIs(RowOf(Upserted([], ds), signature), ds, signature)
  {
    var init, d := ds[..|ds| - 1], ds[|ds| - 1];
    assert init + [d] == ds;
    RowFollows(Upserted([], init), init, d, signature);
  }

  lemma RowFollows(rows: seq<Deposit>, init: seq<Deposit>, d: Deposit, signature: Id)
    requires RowIs(RowOf(rows, signature), init, signature)
    ensures RowIs(RowOf(UpsertDeposit(rows, d), signature), init + [d], signature)
  {
    UpsertTouchesOne(rows, d, signature);
    RowSnoc(init, d, signature, RowOf(rows, signature));
  }

  lemma RowSnoc(init: seq<Deposit>, d: Deposit, signature: Id, row: Option<Deposit>)
    requires RowIs(row, init, signature)
    ensures var merged := if row.None? then d else MergeDeposit(row.value, d);
            RowIs(if d.signature != signature then row else Some(merged), init + [d], signature)
  {
    HighestSnoc(init, d, signature);
    assert (init + [d])[..|init|] == init;
  }

  lemma HighestSnoc(init: seq<Deposit>, d: Deposit, signature: Id)
    ensures var ds := init + [d];
            && (Seen(ds, signature) <==> Seen(init, signature) || d.signature == signature)
            && (d.signature != signature ==> forall c :: IsHighest(init, signature, c) ==> IsHighest(ds, signature, c))
            && (d.signature == signature ==>
                  && (forall c :: IsHighest(init, signature, c) ==>
                    IsHighest(ds, signature, HigherCommitment(c, d.commitment)))
                  && (!Seen(init, signature) ==> IsHighest(ds, signature, d.commitment)))
  {
    var ds := init + [d];
    assert ds[|init|] == d && forall k :: 0 <= k < |init| ==> ds[k] == init[k];
    forall c | IsHighest(init, signature, c)
      ensures d.signature != signature ==> IsHighest(ds, signature, c)
      ensures d.signature == signature ==> IsHighest(ds, signature, HigherCommitment(c, d.commitment))
    {
      var k :| 0 <= k < |init| && init[k].signature == signature && init[k].commitment == c;
      assert ds[k] == init[k];
    }
  }

  lemma {:induction false} FirstLinkStays(ds: seq<Deposit>, m: nat, signature: Id)
    requires m <= |ds| && FirstLink(ds[..m], signature).Some?
    ensures FirstLink(ds, signature) == FirstLink(ds[..m], signature)
  {
    if m < |ds| {
      assert ds[..|ds| - 1][..m] == ds[..m];
      FirstLinkStays(ds[..|ds| - 1], m, signature);
    } else {
      assert ds[..m] == ds;
    }
  }

  /** The link of a stored row, once written, is never changed by later events. */
  lemma LinkIsWriteOnce(ds: seq<Deposit>, m: nat, signature: Id)
    requires m <= |ds| && RowOf(Upserted([], ds[..m]), signature).Some?
    requires RowOf(Upserted([], ds[..m]), signature).value.intent.Some?
    ensures RowOf(Upserted([], ds), signature).Some?
    ensures RowOf(Upserted([], ds), signature).value.intent == RowOf(Upserted([], ds[..m]), signature).value.intent
  {
    RowExactly(ds[..m], signature);
    RowExactly(ds, signature);
    FirstLinkStays(ds, m, signature);
    var k :| 0 <= k < m && ds[..m][k].signature == signature;
    assert ds[k].signature == signature;
  }

  /** For a fixed chain and a fixed reference map, the rows do not depend on the order of events or
      on how often each is seen. */
  ghost predicate OneChain(ds: seq<Deposit>, amount: Id -> int, link: Id -> Option<Id>) {
    forall k :: 0 <= k < |ds| ==> ds[k].amount == amount(ds[k].signature) && ds[k].intent == link(ds[k].signature)
  }

  lemma {:induction false} OneChainRow(ds: seq<Deposit>, amount: Id -> int, link: Id -> Option<Id>, signature: Id)
    requires OneChain(ds, amount, link)
    ensures Seen(ds, signature) ==>
              FirstLink(ds, signature) == link(signature) && FirstAmount(ds, signature) == Some(amount(signature))
    ensures !Seen(ds, signature) ==> FirstLink(ds, signature) == None && FirstAmount(ds, signature) == None
  {
    if ds != [] {
      var n := |ds| - 1;
      OneChainRow(ds[..n], amount, link, signature);
      HighestSnoc(ds[..n], ds[n], signature);
      assert ds == ds[..n] + [ds[n]];
    }
  }

  lemma OrderDoesNotMatter(a: seq<Deposit>, b: seq<Deposit>, amount: Id -> int, link: Id -> Option<Id>, signature: Id)
    requires OneChain(a, amount, link) && OneChain(b, amount, link)
    requires forall d :: d in a <==> d in b
    ensures RowOf(Upserted([], a), signature) == RowOf(Upserted([], b), signature)
  {
    RowExactly(a, signature);
    RowExactly(b, signature);
    OneChainRow(a, amount, link, signature);
    OneChainRow(b, amount, link, signature);
    SameSeen(a, b, signature);
    SameSeen(b, a, signature);
  }

  lemma SameSeen(a: seq<Deposit>, b: seq<Deposit>, signature: Id)
    requires forall d :: d in a ==> d in b
    ensures Seen(a, signature) ==> Seen(b, signature)
    ensures forall c, c' :: IsHighest(a, signature, c) && IsHighest(b, signature, c') ==>
              CommitmentRank(c) <= CommitmentRank(c')
  {
    forall k | 0 <= k < |a| ensures exists j :: 0 <= j < |b| && b[j] == a[k] { assert a[k] in a; }
  }

  // ---- In every reachable state ----

  /** ProcessSignature's transaction is the protocol's Observe, or nothing. */
  lemma ProcessIsObserve(s: Sys, cfg: Config, refs: map<PubKey, Id>, e: Event)
    ensures AfterEvent(s.db, cfg, refs, e, s.now) == s.db
         || exists a: Action :: a.Observe? && Enabled(s, a) && Next(s, a).db == AfterEvent(s.db, cfg, refs, e, s.now)
  {
    var v := Judge(cfg, refs, e.signature, e.commitment, e.fetched);
    if v.Accept? && !e.dbFails && Storable(s.db, v.deposit) {
      var d := v.deposit;
      var a := Observe(d.signature, d.amount, d.commitment, d.intent);
      assert Enabled(s, a) && Next(s, a).db == AfterEvent(s.db, cfg, refs, e, s.now);
    }
  }

  /** No committed state shows a finalized linked deposit without its saga, or a saga without one. */
  lemma SagaExistsExactly(states: seq<Sys>, acts: seq<Action>, n: nat, i: Id)
    requires IsRun(states, acts) && n < |states|
    ensures i in states[n].db.sagas <==> exists d :: d in states[n].db.onchain && FinalizedFor(d, i)
  {
    Adversarial.Safe(states, acts, n);
    var o := states[n].db.onchain;
    assert i in states[n].db.sagas <==> HasFinalized(o, i);
    if d :| d in o && FinalizedFor(d, i) {
      var k :| 0 <= k < |o| && o[k] == d;
    }
  }
}
