/** The idempotency middleware: capturing a response, deciding between replay, refusal and execution,
    and what every interleaving of requests guarantees. */
module Replays {
  import opened Hex
  import opened Idempotency
  import opened Options

  type Status = s: int | 100 <= s <= 999 witness 200

  // ---- Capturing a response ----

  /** What a handler does with its writer. */
  datatype Op = WriteHeader(status: Status) | Write(bytes: Bytes)

  datatype Response = Response(header: Option<Status>, body: Bytes) {
    function Status(): Status { if header.Some? then header.value else 200 }

    function After(op: Op): Response {
      match op
      case WriteHeader(s) => if header.None? then this.(header := Some(s)) else this
      case Write(p) => Response(Some(Status()), body + p)
    }
  }

  /** What a client receives: the first header wins, and a body without one means 200. */
  function Received(ops: seq<Op>): Response {
    if ops == [] then Response(None, []) else Received(ops[..|ops| - 1]).After(ops[|ops| - 1])
  }

  /** All that was written, in order. */
  function Written(ops: seq<Op>): Bytes {
    if ops == [] then []
    else Written(ops[..|ops| - 1]) + if ops[|ops| - 1].Write? then ops[|ops| - 1].bytes else []
  }

  /** The first thing a handler does settles the status, and the body is all it writes. */
  lemma {:induction false} ReceivedExactly(ops: seq<Op>)
    ensures Received(ops).body == Written(ops)
    ensures Received(ops).header
         == if ops == [] then None else Some(if ops[0].WriteHeader? then ops[0].status else 200)
  {
    if ops != [] { ReceivedExactly(ops[..|ops| - 1]); }
  }

  /** The connection to the client. */
  class ResponseWriter {
    var sent: Response

    constructor ()
      ensures sent == Response(None, [])
    {
      sent := Response(None, []);
    }

    method WriteHeader(status: Status)
      modifies this
      ensures sent == old(sent).After(Op.WriteHeader(status))
    {
      if sent.header.None? { sent := sent.(header := Some(status)); }
    }

    method Write(p: Bytes)
      modifies this
      ensures sent == old(sent).After(Op.Write(p))
    {
      if sent.header.None? { sent := sent.(header := Some(200)); }
      sent := sent.(body := sent.body + p);
    }
  }

  class CaptureWriter {
    const client: ResponseWriter
    var status: Status
    var wroteHeader: bool
    var buf: Bytes

    /** What was captured is what the client got. */
    ghost predicate Valid()
      reads this, client
    {
      client.sent == Response(if wroteHeader then Some(status) else None, buf) && (!wroteHeader ==> status == 200)
    }

    constructor (client: ResponseWriter)
      requires client.sent == Response(None, [])
      ensures Valid() && this.client == client
    {
      this.client, status, wroteHeader, buf := client, 200, false, [];
    }

    method WriteHeader(s: Status)
      requires Valid()
      modifies this, client
      ensures Valid() && client.sent == old(client.sent).After(Op.WriteHeader(s))
    {
      if wroteHeader { return; }
      status, wroteHeader := s, true;
      client.WriteHeader(s);
    }

    method Write(p: Bytes)
      requires Valid()
      modifies this, client
      ensures Valid() && client.sent == old(client.sent).After(Op.Write(p))
    {
      if !wroteHeader { WriteHeader(200); }
      buf := buf + p;
      client.Write(p);
    }

    /** A handler writes through the capture. */
    method Serve(ops: seq<Op>)
      requires Valid() && client.sent == Response(None, [])
      modifies this, client
      ensures Valid() && client.sent == Received(ops)
    {
      var i := 0;
      while i < |ops|
        invariant 0 <= i <= |ops| && Valid() && client.sent == Received(ops[..i])
      {
        assert ops[..i + 1][..i] == ops[..i];
        match ops[i] {
          case WriteHeader(s) => WriteHeader(s);
          case Write(p) => Write(p);
        }
        i := i + 1;
      }
      assert ops[..i] == ops;
    }
  }

  // ---- One request ----

  datatype Decision = Replay(record: Record) | Refuse | GiveUp | Execute

  function Decide(found: Result<Record, StoreError>, hash: Bytes): Decision {
    match found
    case Ok(r) => if r.hash == hash then Replay(r) else Refuse
    case Err(NotFound) => Execute
    case Err(Unavailable) => GiveUp
  }

  /** The record a response leaves. Server errors leave none; a body never written is nil. */
  function Captured(id: Key, hash: Bytes, resp: Response): Option<Record> {
    if resp.Status() >= 500 then None
    else Some(Record(id, hash, resp.Status(), if resp.body == [] then None else Some(resp.body)))
  }

  function RowsAfter(rows: Table, id: Key, hash: Bytes, resp: Response, f: PutFaults): Table {
    match Captured(id, hash, resp) case None => rows case Some(r) => PutRows(rows, r, f)
  }

  /** Whatever is stored is a full response below 500. */
  ghost predicate RowsOk(rows: Table) {
    forall id :: id in rows ==> 100 <= rows[id].status < 500 && rows[id].body != []
  }

  lemma RowsAfterOk(rows: Table, id: Key, hash: Bytes, resp: Response, f: PutFaults)
    requires RowsOk(rows)
    ensures RowsOk(RowsAfter(rows, id, hash, resp, f))
  {
  }

  datatype Faults = Faults(get: GetFaults, put: PutFaults, cacheWrite: bool)

  class Middleware {
    const store: CachedStore

    constructor (store: CachedStore)
      ensures this.store == store
    {
      this.store := store;
    }

    /** A mutating request with a key and a merchant, handled alone. Returns what was decided and
        what the client received. */
    method Handle(id: Key, hash: Bytes, ops: seq<Op>, f: Faults) returns (d: Decision, sent: Response)
      requires Coherent(store.inner.rows, store.cache) && RowsOk(store.inner.rows)
      modifies store`cache, store.inner
      ensures Coherent(store.inner.rows, store.cache) && RowsOk(store.inner.rows)
      ensures d == Decide(CachedReply(old(store.inner.rows), old(store.cache), id, f.get), hash)
      ensures !f.get.table ==> d == Decide(Lookup(old(store.inner.rows), id), hash)
      ensures match d
              case Replay(_) =>
                && id in old(store.inner.rows)
                && var row := old(store.inner.rows)[id];
                   row.hash == hash && sent == Response(Some(row.status), row.body)
              case Refuse => sent.Status() == 409
              case GiveUp => sent.Status() == 500
              case Execute => sent == Received(ops)
      ensures store.inner.rows ==
              if d.Execute? then RowsAfter(old(store.inner.rows), id, hash, Received(ops), f.put)
              else old(store.inner.rows)
    {
      CacheIsTransparent(store.inner.rows, store.cache, id, f.get);
      var client := new ResponseWriter();
      var found := store.Get(id, f.get);
      d := Decide(found, hash);
      match d {
        case Replay(r) =>
          client.WriteHeader(r.status);
          client.Write(r.body.value);
        case Refuse => client.WriteHeader(409);
        case GiveUp => client.WriteHeader(500);
        case Execute =>
          RowsAfterOk(store.inner.rows, id, hash, Received(ops), f.put);
          var cap := new CaptureWriter(client);
          cap.Serve(ops);
          if cap.status < 500 {
            var body := if cap.buf == [] then None else Some(cap.buf);
            var _ := store.Put(Record(id, hash, cap.status, body), f.put, f.cacheWrite);
          }
      }
      sent := client.sent;
    }
  }

  // ---- Every interleaving ----

  /** A request past its lookup: running the handler, or holding the record to store. */
  datatype Active = Executing(id: Key, hash: Bytes) | Saving(record: Record)

  datatype Event =
    | Replayed(id: Key, hash: Bytes, status: int, body: Option<Bytes>)
    | Refused(id: Key, hash: Bytes)
    | LookupFailed(id: Key)
    | Started(id: Key, hash: Bytes)
    | Answered(id: Key, hash: Bytes, resp: Response)
    | Created(id: Key)

  /** `warming` are cache writes on their way. */
  datatype World = World(rows: Table, cache: Cache, warming: seq<Record>, active: map<nat, Active>, log: seq<Event>)

  datatype Action =
    | Arrive(req: nat, id: Key, hash: Bytes, get: GetFaults)
    | Respond(req: nat, resp: Response)
    | Save(req: nat, put: PutFaults)
    | WarmUp(k: nat)
    | Lose(lost: set<string>, garbled: set<string>)

  predicate Enabled(w: World, a: Action) {
    match a
    case Arrive(req, _, _, _) => req !in w.active
    case Respond(req, _) => req in w.active && w.active[req].Executing?
    case Save(req, _) => req in w.active && w.active[req].Saving?
    case WarmUp(k) => k < |w.warming|
    case Lose(_, _) => true
  }

  function OnArrive(w: World, req: nat, id: Key, hash: Bytes, f: GetFaults): World {
    var found := CachedReply(w.rows, w.cache, id, f);
    var w1 := if found.Ok? && !Hit(w.cache, id, f) then w.(warming := w.warming + [found.value]) else w;
    match Decide(found, hash)
    case Replay(r) => w1.(log := w.log + [Replayed(id, hash, r.status, r.body)])
    case Refuse => w1.(log := w.log + [Refused(id, hash)])
    case GiveUp => w1.(log := w.log + [LookupFailed(id)])
    case Execute => w1.(active := w.active[req := Executing(id, hash)], log := w.log + [Started(id, hash)])
  }

  function OnRespond(w: World, req: nat, resp: Response): World
    requires req in w.active && w.active[req].Executing?
  {
    var Executing(id, hash) := w.active[req];
    var w1 := w.(log := w.log + [Answered(id, hash, resp)]);
    match Captured(id, hash, resp)
    case None => w1.(active := w.active - {req})
    case Some(r) => w1.(active := w.active[req := Saving(r)])
  }

  function OnSave(w: World, req: nat, f: PutFaults): World
    requires req in w.active && w.active[req].Saving?
  {
    var r := w.active[req].record;
    var w1 := w.(rows := PutRows(w.rows, r, f), active := w.active - {req});
    match PutReply(w.rows, r, f)
    case Err(_) => w1
    case Ok(s) => w1.(warming := w.warming + [s.record], log := if s.created then w.log + [Created(r.id)] else w.log)
  }

  function Next(w: World, a: Action): World
    requires Enabled(w, a)
  {
    match a
    case Arrive(req, id, hash, f) => OnArrive(w, req, id, hash, f)
    case Respond(req, resp) => OnRespond(w, req, resp)
    case Save(req, f) => OnSave(w, req, f)
    case WarmUp(k) => w.(cache := w.cache[CacheKey(w.warming[k].id) := PayloadOf(w.warming[k])])
    case Lose(lost, garbled) => w.(cache := (w.cache - lost) + map k | k in garbled :: Garbage)
  }

  ghost predicate IsRun(worlds: seq<World>, acts: seq<Action>) {
    && |worlds| == |acts| + 1
    && worlds[0] == World(map[], map[], [], map[], [])
    && forall n :: 0 <= n < |acts| ==> Enabled(worlds[n], acts[n]) && worlds[n + 1] == Next(worlds[n], acts[n])
  }

  // ---- The invariant ----

  ghost predicate EventOk(rows: Table, e: Event) {
    match e
    case Replayed(id, hash, status, body) => id in rows && rows[id].hash == hash
      && RecordOf(id, rows[id]) == Record(id, hash, status, body)
    case Refused(id, hash) => id in rows && rows[id].hash != hash
    case Created(id) => id in rows
    case _ => true
  }

  ghost predicate LogOk(rows: Table, log: seq<Event>) {
    forall k {:trigger EventOk(rows, log[k])} :: 0 <= k < |log| ==> EventOk(rows, log[k])
  }

  ghost predicate WarmOk(rows: Table, warming: seq<Record>) {
    forall k :: 0 <= k < |warming| ==>
      warming[k].id in rows && warming[k] == RecordOf(warming[k].id, rows[warming[k].id])
  }

  ghost predicate SavingOk(active: map<nat, Active>) {
    forall q :: q in active && active[q].Saving? ==>
      100 <= active[q].record.status < 500 && active[q].record.body != Some([])
  }

  function Creations(log: seq<Event>, id: Key): nat {
    if log == [] then 0 else Creations(log[..|log| - 1], id) + if log[|log| - 1] == Created(id) then 1 else 0
  }

  ghost predicate CreatedOk(rows: Table, log: seq<Event>) {
    forall id :: Creations(log, id) <= if id in rows then 1 else 0
  }

  ghost predicate Inv(w: World) {
    && Coherent(w.rows, w.cache) && RowsOk(w.rows) && WarmOk(w.rows, w.warming) && SavingOk(w.active)
    && LogOk(w.rows, w.log) && CreatedOk(w.rows, w.log)
  }

  /** No row is ever changed or lost. */
  ghost predicate Extends(rows: Table, rows': Table) {
    forall id :: id in rows ==> id in rows' && rows'[id] == rows[id]
  }

  lemma LogSnoc(rows: Table, rows': Table, log: seq<Event>, e: Event)
    requires LogOk(rows, log) && Extends(rows, rows') && EventOk(rows', e)
    ensures LogOk(rows', log + [e])
  {
    var log' := log + [e];
    forall k | 0 <= k < |log'| ensures EventOk(rows', log'[k]) {
      if k < |log| { assert EventOk(rows, log[k]); }
    }
  }

  lemma LogExtends(rows: Table, rows': Table, log: seq<Event>)
    requires LogOk(rows, log) && Extends(rows, rows')
    ensures LogOk(rows', log)
  {
    forall k | 0 <= k < |log| ensures EventOk(rows', log[k]) { assert EventOk(rows, log[k]); }
  }

  lemma CreationsSnoc(log: seq<Event>, e: Event, id: Key)
    ensures Creations(log + [e], id) == Creations(log, id) + if e == Created(id) then 1 else 0
  {
    assert (log + [e])[..|log|] == log;
  }

  /** Logging anything but a creation. */
  lemma LogKeeps(w: World, w': World, e: Event)
    requires LogOk(w.rows, w.log) && CreatedOk(w.rows, w.log)
    requires w'.rows == w.rows && w'.log == w.log + [e] && EventOk(w.rows, e) && !e.Created?
    ensures LogOk(w'.rows, w'.log) && CreatedOk(w'.rows, w'.log)
  {
    LogSnoc(w.rows, w.rows, w.log, e);
    forall x ensures Creations(w'.log, x) <= if x in w.rows then 1 else 0 {
      CreationsSnoc(w.log, e, x);
    }
  }

  lemma ArriveKeeps(w: World, req: nat, id: Key, hash: Bytes, f: GetFaults)
    requires Inv(w)
    ensures var w' := OnArrive(w, req, id, hash, f); Inv(w') && w'.rows == w.rows
  {
    CacheIsTransparent(w.rows, w.cache, id, f);
    var e := ArriveEvent(w, req, id, hash, f);
    LogKeeps(w, OnArrive(w, req, id, hash, f), e);
  }

  lemma ArriveEvent(w: World, req: nat, id: Key, hash: Bytes, f: GetFaults) returns (e: Event)
    requires Coherent(w.rows, w.cache)
    ensures OnArrive(w, req, id, hash, f).log == w.log + [e] && EventOk(w.rows, e) && !e.Created?
  {
    CacheIsTransparent(w.rows, w.cache, id, f);
    e := OnArrive(w, req, id, hash, f).log[|w.log|];
  }

  lemma RespondKeeps(w: World, req: nat, resp: Response)
    requires Inv(w) && req in w.active && w.active[req].Executing?
    ensures var w' := OnRespond(w, req, resp); Inv(w') && w'.rows == w.rows
  {
    LogKeeps(w, OnRespond(w, req, resp), Answered(w.active[req].id, w.active[req].hash, resp));
  }

  lemma SaveKeeps(w: World, req: nat, f: PutFaults)
    requires Inv(w) && req in w.active && w.active[req].Saving?
    ensures var w' := OnSave(w, req, f); Inv(w') && Extends(w.rows, w'.rows)
  {
    var r, w' := w.active[req].record, OnSave(w, req, f);
    PutKeepsCoherent(w.rows, w.cache, r, f);
    LogExtends(w.rows, w'.rows, w.log);
    if w'.log != w.log {
      LogSnoc(w.rows, w'.rows, w.log, Created(r.id));
      forall x ensures Creations(w'.log, x) <= if x in w'.rows then 1 else 0 {
        CreationsSnoc(w.log, Created(r.id), x);
      }
    }
  }

  lemma StepKeeps(w: World, a: Action)
    requires Inv(w) && Enabled(w, a)
    ensures Inv(Next(w, a)) && Extends(w.rows, Next(w, a).rows)
  {
    match a
    case Arrive(req, id, hash, f) => ArriveKeeps(w, req, id, hash, f);
    case Respond(req, resp) => RespondKeeps(w, req, resp);
    case Save(req, f) => SaveKeeps(w, req, f);
    case WarmUp(k) => WarmKeepsCoherent(w.rows, w.cache, w.warming[k].id);
    case Lose(_, _) =>
  }

  lemma {:induction false} Safe(worlds: seq<World>, acts: seq<Action>, n: nat)
    requires IsRun(worlds, acts) && n < |worlds|
    ensures Inv(worlds[n])
  {
    if n > 0 {
      Safe(worlds, acts, n - 1);
      StepKeeps(worlds[n - 1], acts[n - 1]);
    }
  }

  // ---- What merchants see ----

  lemma {:induction false} StoredForever(worlds: seq<World>, acts: seq<Action>, m: nat, n: nat)
    requires IsRun(worlds, acts) && m <= n < |worlds|
    ensures Extends(worlds[m].rows, worlds[n].rows)
    decreases n
  {
    if m < n {
      StoredForever(worlds, acts, m, n - 1);
      StoredAt(worlds, acts, n - 1);
    }
  }

  lemma StoredAt(worlds: seq<World>, acts: seq<Action>, n: nat)
    requires IsRun(worlds, acts) && n < |acts|
    ensures Extends(worlds[n].rows, worlds[n + 1].rows)
  {
    Safe(worlds, acts, n);
    StepKeeps(worlds[n], acts[n]);
  }

  /** Across all interleavings and cache losses at most one Put per key reports that it created. */
  lemma CreatedAtMostOnce(worlds: seq<World>, acts: seq<Action>, n: nat, id: Key)
    requires IsRun(worlds, acts) && n < |worlds|
    ensures Creations(worlds[n].log, id) <= 1
    ensures 0 < Creations(worlds[n].log, id) ==> id in worlds[n].rows
  {
    Safe(worlds, acts, n);
    assert Creations(worlds[n].log, id) <= if id in worlds[n].rows then 1 else 0;
  }

  /** All replays of a key are the same response to the same request, and none is a server error. */
  lemma ReplaysAgree(worlds: seq<World>, acts: seq<Action>, n: nat, j: nat, k: nat)
    requires IsRun(worlds, acts) && n < |worlds| && j < |worlds[n].log| && k < |worlds[n].log|
    requires worlds[n].log[j].Replayed? && worlds[n].log[k].Replayed? && worlds[n].log[j].id == worlds[n].log[k].id
    ensures worlds[n].log[j] == worlds[n].log[k] && worlds[n].log[j].status < 500
  {
    Safe(worlds, acts, n);
    assert EventOk(worlds[n].rows, worlds[n].log[j]) && EventOk(worlds[n].rows, worlds[n].log[k]);
  }

  /** Once a response is stored, every later request under its key gets exactly that response, or a
      conflict if its body hashes differently; the handler never runs for it again. */
  lemma StoredAnswersAll(worlds: seq<World>, acts: seq<Action>, m: nat, n: nat, req: nat, id: Key, hash: Bytes,
                         f: GetFaults)
    requires IsRun(worlds, acts) && m <= n < |acts| && id in worlds[m].rows
    requires acts[n] == Arrive(req, id, hash, f) && !f.table
    ensures var row := worlds[m].rows[id];
            worlds[n + 1].log == worlds[n].log
              + [if hash == row.hash then Replayed(id, hash, row.status, Some(row.body)) else Refused(id, hash)]
    ensures worlds[n + 1].active == worlds[n].active
  {
    Safe(worlds, acts, n);
    StoredForever(worlds, acts, m, n);
    CacheIsTransparent(worlds[n].rows, worlds[n].cache, id, f);
  }

  /** The handler runs exactly when nothing is stored yet at the lookup. */
  lemma RunsExactly(worlds: seq<World>, acts: seq<Action>, n: nat, req: nat, id: Key, hash: Bytes, f: GetFaults)
    requires IsRun(worlds, acts) && n < |acts| && acts[n] == Arrive(req, id, hash, f) && !f.table
    ensures req in worlds[n + 1].active <==> id !in worlds[n].rows
  {
    Safe(worlds, acts, n);
    CacheIsTransparent(worlds[n].rows, worlds[n].cache, id, f);
  }

  /** Somewhere in the log the handler gave this answer to this request. */
  ghost predicate WasAnswered(log: seq<Event>, id: Key, hash: Bytes, status: int, body: Bytes) {
    exists k :: 0 <= k < |log| && log[k].Answered? && log[k].id == id && log[k].hash == hash
                && log[k].resp.Status() == status && log[k].resp.body == body
  }

  ghost predicate RowAnswered(w: World, id: Key)
    requires id in w.rows
  {
    WasAnswered(w.log, id, w.rows[id].hash, w.rows[id].status, w.rows[id].body)
  }

  ghost predicate SavingAnswered(w: World, q: nat)
    requires q in w.active && w.active[q].Saving?
  {
    var r := w.active[q].record;
    r.body.Some? ==> WasAnswered(w.log, r.id, r.hash, r.status, r.body.value)
  }

  /** What is stored, or about to be, is what the handler answered. */
  ghost predicate AnswersKept(w: World) {
    && (forall id {:trigger RowAnswered(w, id)} :: id in w.rows ==> RowAnswered(w, id))
    && (forall q {:trigger SavingAnswered(w, q)} :: q in w.active && w.active[q].Saving? ==> SavingAnswered(w, q))
  }

  lemma AnsweredStays(log: seq<Event>, log': seq<Event>, id: Key, hash: Bytes, status: int, body: Bytes)
    requires log <= log' && WasAnswered(log, id, hash, status, body)
    ensures WasAnswered(log', id, hash, status, body)
  {
    var k :| 0 <= k < |log| && log[k].Answered? && log[k].id == id && log[k].hash == hash
             && log[k].resp.Status() == status && log[k].resp.body == body;
    assert log'[k] == log[k];
  }

  lemma LogGrows(w: World, a: Action)
    requires Enabled(w, a)
    ensures w.log <= Next(w, a).log
  {
  }

  lemma RespondAnswers(w: World, req: nat, resp: Response)
    requires req in w.active && w.active[req].Executing?
    ensures var w' := OnRespond(w, req, resp); req in w'.active ==> w'.active[req].Saving? && SavingAnswered(w', req)
  {
    var w' := OnRespond(w, req, resp);
    assert w'.log[|w.log|] == Answered(w.active[req].id, w.active[req].hash, resp);
  }

  lemma SaveAnswers(w: World, req: nat, f: PutFaults, id: Key)
    requires SavingOk(w.active) && AnswersKept(w) && req in w.active && w.active[req].Saving?
    requires id in OnSave(w, req, f).rows && id !in w.rows
    ensures RowAnswered(OnSave(w, req, f), id)
  {
    assert SavingAnswered(w, req);
    var r, w' := w.active[req].record, OnSave(w, req, f);
    AnsweredStays(w.log, w'.log, r.id, r.hash, r.status, r.body.value);
  }

  lemma RowsStayAnswered(w: World, a: Action, id: Key)
    requires Inv(w) && AnswersKept(w) && Enabled(w, a) && Extends(w.rows, Next(w, a).rows) && id in Next(w, a).rows
    ensures RowAnswered(Next(w, a), id)
  {
    LogGrows(w, a);
    if id in w.rows {
      assert RowAnswered(w, id);
      AnsweredStays(w.log, Next(w, a).log, id, w.rows[id].hash, w.rows[id].status, w.rows[id].body);
    } else {
      SaveAnswers(w, a.req, a.put, id);
    }
  }

  lemma SavingStaysAnswered(w: World, a: Action, q: nat)
    requires AnswersKept(w) && Enabled(w, a) && q in Next(w, a).active && Next(w, a).active[q].Saving?
    ensures SavingAnswered(Next(w, a), q)
  {
    LogGrows(w, a);
    if q in w.active && w.active[q].Saving? {
      assert SavingAnswered(w, q);
      var r := w.active[q].record;
      if r.body.Some? { AnsweredStays(w.log, Next(w, a).log, r.id, r.hash, r.status, r.body.value); }
    } else {
      RespondAnswers(w, a.req, a.resp);
    }
  }

  lemma StepAnswers(w: World, a: Action)
    requires Inv(w) && AnswersKept(w) && Enabled(w, a)
    ensures AnswersKept(Next(w, a))
  {
    var w' := Next(w, a);
    StepKeeps(w, a);
    forall id | id in w'.rows ensures RowAnswered(w', id) { RowsStayAnswered(w, a, id); }
    forall q | q in w'.active && w'.active[q].Saving? ensures SavingAnswered(w', q) { SavingStaysAnswered(w, a, q); }
  }

  lemma {:induction false} AnswersAlwaysKept(worlds: seq<World>, acts: seq<Action>, n: nat)
    requires IsRun(worlds, acts) && n < |worlds|
    ensures AnswersKept(worlds[n])
  {
    if n > 0 {
      AnswersAlwaysKept(worlds, acts, n - 1);
      Safe(worlds, acts, n - 1);
      StepAnswers(worlds[n - 1], acts[n - 1]);
    }
  }

  /** Every replay repeats, byte for byte, an answer the handler gave before to the same request. */
  lemma ReplayRepeatsAnAnswer(worlds: seq<World>, acts: seq<Action>, n: nat, e: Event)
    requires IsRun(worlds, acts) && n < |acts| && e.Replayed? && worlds[n + 1].log == worlds[n].log + [e]
    ensures e.body.Some? && WasAnswered(worlds[n].log, e.id, e.hash, e.status, e.body.value)
  {
    Safe(worlds, acts, n);
    Safe(worlds, acts, n + 1);
    AnswersAlwaysKept(worlds, acts, n);
    var w, w' := worlds[n], worlds[n + 1];
    assert EventOk(w'.rows, w'.log[|w.log|]);
    ReplayNeedsRow(w, acts[n], e);
    assert RowAnswered(w, e.id);
  }

  lemma ReplayNeedsRow(w: World, a: Action, e: Event)
    requires Inv(w) && Enabled(w, a) && e.Replayed? && Next(w, a).log == w.log + [e]
    ensures e.id in w.rows && e == Replayed(e.id, w.rows[e.id].hash, w.rows[e.id].status, Some(w.rows[e.id].body))
  {
    assert Next(w, a).log[|w.log|] == e;
    if a.Arrive? { CacheIsTransparent(w.rows, w.cache, a.id, a.get); }
  }

  /** How often the handler was started for a key. */
  function Starts(log: seq<Event>, id: Key): nat {
    if log == [] then 0
    else
      var e := log[|log| - 1];
      Starts(log[..|log| - 1], id) + if e.Started? && e.id == id then 1 else 0
  }

  /** The action is a request under the key that finds a working table without it. */
  predicate ArrivesUnstored(w: World, a: Action, id: Key) {
    a.Arrive? && a.id == id && !a.get.table && id !in w.rows
  }

  function UnstoredArrivals(worlds: seq<World>, acts: seq<Action>, n: nat, id: Key): nat
    requires |worlds| == |acts| + 1 && n <= |acts|
  {
    if n == 0 then 0
    else UnstoredArrivals(worlds, acts, n - 1, id) + if ArrivesUnstored(worlds[n - 1], acts[n - 1], id) then 1 else 0
  }

  lemma StartsSnoc(log: seq<Event>, e: Event, id: Key)
    ensures Starts(log + [e], id) == Starts(log, id) + if e.Started? && e.id == id then 1 else 0
  {
    assert (log + [e])[..|log|] == log;
  }

  lemma StepStarts(w: World, a: Action, id: Key)
    requires Inv(w) && Enabled(w, a)
    ensures Starts(Next(w, a).log, id) == Starts(w.log, id) + if ArrivesUnstored(w, a, id) then 1 else 0
  {
    if a.Arrive? { ArriveStarts(w, a, id); } else { OtherStarts(w, a, id); }
  }

  lemma ArriveStarts(w: World, a: Action, id: Key)
    requires Inv(w) && Enabled(w, a) && a.Arrive?
    ensures Starts(Next(w, a).log, id) == Starts(w.log, id) + if ArrivesUnstored(w, a, id) then 1 else 0
  {
    var log' := Next(w, a).log;
    CacheIsTransparent(w.rows, w.cache, a.id, a.get);
    if log' != w.log {
      assert log' == w.log + [log'[|w.log|]];
      StartsSnoc(w.log, log'[|w.log|], id);
    }
  }

  lemma OtherStarts(w: World, a: Action, id: Key)
    requires Enabled(w, a) && !a.Arrive?
    ensures Starts(Next(w, a).log, id) == Starts(w.log, id)
  {
    var log' := Next(w, a).log;
    if log' != w.log {
      assert log' == w.log + [log'[|w.log|]];
      StartsSnoc(w.log, log'[|w.log|], id);
    }
  }

  /** In every run the handler ran for a key exactly as often as a request under it found a working
      table with nothing stored: overlapping requests, and retries after a server error, a response
      without a body or a lost Put. So at most once exactly when at most one did. */
  lemma {:induction false} ExecutionCount(worlds: seq<World>, acts: seq<Action>, n: nat, id: Key)
    requires IsRun(worlds, acts) && n < |worlds|
    ensures Starts(worlds[n].log, id) == UnstoredArrivals(worlds, acts, n, id)
  {
    if n > 0 {
      ExecutionCount(worlds, acts, n - 1, id);
      Safe(worlds, acts, n - 1);
      StepStarts(worlds[n - 1], acts[n - 1], id);
    }
  }

  /** A response below 500 with a body is stored by a Put that meets no fault, and no other is. */
  lemma StoredExactly(w: World, id: Key, hash: Bytes, resp: Response, f: PutFaults)
    requires id !in w.rows
    ensures id in RowsAfter(w.rows, id, hash, resp, f) <==> resp.Status() < 500 && resp.body != [] && !f.insert
  {
  }

  /** So two overlapping requests both run it: there is no in-progress mark. */
  lemma OverlapRunsTwice(id: Key, hash: Bytes) returns (worlds: seq<World>, acts: seq<Action>)
    ensures IsRun(worlds, acts) && worlds[|acts|].log == [Started(id, hash), Started(id, hash)]
  {
    var f := GetFaults(false, false, false);
    var w0 := World(map[], map[], [], map[], []);
    var w1 := OnArrive(w0, 0, id, hash, f);
    var w2 := OnArrive(w1, 1, id, hash, f);
    worlds, acts := [w0, w1, w2], [Arrive(0, id, hash, f), Arrive(1, id, hash, f)];
  }
}
