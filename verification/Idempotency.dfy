/** The idempotency store: a table keyed by merchant and key whose first writer wins, and a
    read-through cache in front of it that may lose, refuse or garble anything. */
module Idempotency {
  import opened Hex
  import opened Options

  type Uuid = b: Bytes | |b| == 16 witness [0, 0, 0, 0, 0, 0, 0, 0, 0, 0, 0, 0, 0, 0, 0, 0]

  datatype Key = Key(merchant: Uuid, text: string)

  /** A response to replay. A nil byte slice is None. */
  datatype Record = Record(id: Key, hash: Bytes, status: int, body: Option<Bytes>)

  /** A row; every column is NOT NULL. */
  datatype Row = Row(hash: Bytes, status: int, body: Bytes)

  type Table = map<Key, Row>

  datatype StoreError = NotFound | Unavailable

  datatype Stored = Stored(record: Record, created: bool)

  // ---- The table ----

  /** The int32 the status is cast to. */
  function Int32(x: int): int {
    (x + 0x8000_0000) % 0x1_0000_0000 - 0x8000_0000
  }

  function RowOf(r: Record): Row
    requires r.body.Some?
  {
    Row(r.hash, Int32(r.status), r.body.value)
  }

  function RecordOf(id: Key, row: Row): Record {
    Record(id, row.hash, row.status, Some(row.body))
  }

  function Lookup(rows: Table, id: Key): Result<Record, StoreError> {
    if id in rows then Ok(RecordOf(id, rows[id])) else Err(NotFound)
  }

  /** INSERT ... ON CONFLICT DO NOTHING */
  function Inserted(rows: Table, r: Record): Table
    requires r.body.Some?
  {
    if r.id in rows then rows else rows[r.id := RowOf(r)]
  }

  /** Where a Put fails: before the insert, after it with the acknowledgement lost, or reading the winner. */
  datatype PutFaults = PutFaults(insert: bool, ack: bool, read: bool)

  function PutRows(rows: Table, r: Record, f: PutFaults): Table {
    if f.insert || r.body.None? then rows else Inserted(rows, r)
  }

  function PutReply(rows: Table, r: Record, f: PutFaults): Result<Stored, StoreError> {
    if f.insert || r.body.None? || f.ack then Err(Unavailable)
    else if r.id !in rows then Ok(Stored(RecordOf(r.id, RowOf(r)), true))
    else if f.read then Err(Unavailable)
    else Ok(Stored(RecordOf(r.id, rows[r.id]), false))
  }

  class PgStore {
    var rows: Table

    constructor ()
      ensures rows == map[]
    {
      rows := map[];
    }

    method Get(id: Key, fails: bool) returns (r: Result<Record, StoreError>)
      ensures r == if fails then Err(Unavailable) else Lookup(rows, id)
    {
      if fails { return Err(Unavailable); }
      if id !in rows { return Err(NotFound); }
      return Ok(RecordOf(id, rows[id]));
    }

    /** Insert, or fetch the winner. */
    method Put(r: Record, f: PutFaults) returns (reply: Result<Stored, StoreError>)
      modifies this
      ensures rows == PutRows(old(rows), r, f)
      ensures reply == PutReply(old(rows), r, f)
    {
      if f.insert || r.body.None? { return Err(Unavailable); }
      var conflict := r.id in rows;
      if !conflict { rows := rows[r.id := RowOf(r)]; }
      if f.ack { return Err(Unavailable); }
      if !conflict { return Ok(Stored(RecordOf(r.id, rows[r.id]), true)); }
      var winner := Get(r.id, f.read);
      if winner.Err? { return Err(Unavailable); }
      return Ok(Stored(winner.value, false));
    }
  }

  // ---- Cache keys ----

  function Dashed(h: string): (s: string)
    requires |h| == 32
    ensures |s| == 36
  {
    h[..8] + "-" + h[8..12] + "-" + h[12..16] + "-" + h[16..20] + "-" + h[20..]
  }

  /** The 36 characters of a UUID. */
  function UuidText(u: Uuid): (s: string)
    ensures |s| == 36
  {
    Dashed(HexEncode(u))
  }

  const PREFIX := "idemp:"

  function CacheKey(id: Key): string {
    PREFIX + UuidText(id.merchant) + ":" + id.text
  }

  lemma Undashed(h: string)
    requires |h| == 32
    ensures var s := Dashed(h); s[..8] + s[9..13] + s[14..18] + s[19..23] + s[24..] == h
  {
    var s := Dashed(h);
    assert s[..8] == h[..8] && s[9..13] == h[8..12] && s[14..18] == h[12..16]
      && s[19..23] == h[16..20] && s[24..] == h[20..];
  }

  lemma UuidTextInjective(a: Uuid, b: Uuid)
    requires UuidText(a) == UuidText(b)
    ensures a == b
  {
    Undashed(HexEncode(a));
    Undashed(HexEncode(b));
    HexRoundTrip(a);
    HexRoundTrip(b);
  }

  /** No two requests share a cache entry, whatever characters the key holds. */
  lemma CacheKeyInjective(a: Key, b: Key)
    requires CacheKey(a) == CacheKey(b)
    ensures a == b
  {
    var s, t := CacheKey(a), CacheKey(b);
    assert s[6..42] == UuidText(a.merchant) && t[6..42] == UuidText(b.merchant);
    assert s[43..] == a.text && t[43..] == b.text;
    UuidTextInjective(a.merchant, b.merchant);
  }

  // ---- The cache ----

  /** What a cache slot holds: a payload that decodes, or something that does not. */
  datatype Entry = Payload(hash: Bytes, status: int, body: Option<Bytes>) | Garbage

  type Cache = map<string, Entry>

  function PayloadOf(r: Record): Entry { Payload(r.hash, r.status, r.body) }

  /** Every entry that decodes repeats the table. */
  ghost predicate Coherent(rows: Table, cache: Cache) {
    forall id {:trigger CacheKey(id)} :: CacheKey(id) in cache && cache[CacheKey(id)].Payload? ==>
      id in rows && cache[CacheKey(id)] == PayloadOf(RecordOf(id, rows[id]))
  }

  /** The cache refuses the read or the write, the table is unreachable. */
  datatype GetFaults = GetFaults(cacheRead: bool, cacheWrite: bool, table: bool)

  predicate Hit(cache: Cache, id: Key, f: GetFaults) {
    !f.cacheRead && CacheKey(id) in cache && cache[CacheKey(id)].Payload?
  }

  function CachedReply(rows: Table, cache: Cache, id: Key, f: GetFaults): Result<Record, StoreError> {
    if Hit(cache, id, f) then
      var p := cache[CacheKey(id)];
      Ok(Record(id, p.hash, p.status, p.body))
    else if f.table then Err(Unavailable)
    else Lookup(rows, id)
  }

  /** A hit answers what the table would: the cache is invisible, except that it can still answer
      when the table is unreachable. */
  lemma CacheIsTransparent(rows: Table, cache: Cache, id: Key, f: GetFaults)
    requires Coherent(rows, cache)
    ensures !f.table ==> CachedReply(rows, cache, id, f) == Lookup(rows, id)
    ensures CachedReply(rows, cache, id, f) in {Lookup(rows, id), Err(Unavailable)}
    ensures CachedReply(rows, cache, id, f) == Err(Unavailable) <==> f.table && !Hit(cache, id, f)
  {
    var _ := CacheKey(id);
  }

  lemma WarmKeepsCoherent(rows: Table, cache: Cache, id: Key)
    requires Coherent(rows, cache) && id in rows
    ensures Coherent(rows, cache[CacheKey(id) := PayloadOf(RecordOf(id, rows[id]))])
  {
    var cache' := cache[CacheKey(id) := PayloadOf(RecordOf(id, rows[id]))];
    forall x | CacheKey(x) in cache' && cache'[CacheKey(x)].Payload?
      ensures x in rows && cache'[CacheKey(x)] == PayloadOf(RecordOf(x, rows[x]))
    {
      if CacheKey(x) == CacheKey(id) { CacheKeyInjective(x, id); }
    }
  }

  /** The table only gains rows, so what the cache repeats stays true. */
  lemma PutKeepsCoherent(rows: Table, cache: Cache, r: Record, f: PutFaults)
    requires Coherent(rows, cache)
    ensures Coherent(PutRows(rows, r, f), cache)
  {
  }

  /** Deleting rows, as the expiry query would, is safe exactly when none of them is still cached. */
  lemma DeletionExactly(rows: Table, cache: Cache, expired: set<Key>)
    requires Coherent(rows, cache)
    ensures (forall id, f: GetFaults :: !f.table ==>
              CachedReply(rows - expired, cache, id, f) == Lookup(rows - expired, id))
       <==> (forall id :: id in expired ==> !(CacheKey(id) in cache && cache[CacheKey(id)].Payload?))
  {
    var rows' := rows - expired;
    if id :| id in expired && CacheKey(id) in cache && cache[CacheKey(id)].Payload? {
      var f := GetFaults(false, false, false);
      assert CachedReply(rows', cache, id, f) != Lookup(rows', id);
    } else {
      assert Coherent(rows', cache);
      forall id, f: GetFaults | !f.table ensures CachedReply(rows', cache, id, f) == Lookup(rows', id) {
        CacheIsTransparent(rows', cache, id, f);
      }
    }
  }

  class CachedStore {
    const inner: PgStore
    var cache: Cache

    constructor (inner: PgStore)
      ensures this.inner == inner && cache == map[] && Coherent(inner.rows, cache)
    {
      this.inner := inner;
      cache := map[];
    }

    method Warm(id: Key, r: Record, fails: bool)
      modifies this`cache
      ensures cache == if fails then old(cache) else old(cache)[CacheKey(id) := PayloadOf(r)]
    {
      if !fails { cache := cache[CacheKey(id) := PayloadOf(r)]; }
    }

    method Get(id: Key, f: GetFaults) returns (r: Result<Record, StoreError>)
      requires Coherent(inner.rows, cache)
      modifies this`cache
      ensures Coherent(inner.rows, cache)
      ensures !f.table ==> r == Lookup(inner.rows, id)
      ensures r == CachedReply(inner.rows, old(cache), id, f)
      ensures cache == if f.cacheWrite || Hit(old(cache), id, f) || r.Err? then old(cache)
                       else old(cache)[CacheKey(id) := PayloadOf(r.value)]
    {
      CacheIsTransparent(inner.rows, cache, id, f);
      var ck := CacheKey(id);
      if !f.cacheRead && ck in cache && cache[ck].Payload? {
        return Ok(Record(id, cache[ck].hash, cache[ck].status, cache[ck].body));
      }
      r := inner.Get(id, f.table);
      if r.Err? { return; }
      WarmKeepsCoherent(inner.rows, cache, id);
      Warm(id, r.value, f.cacheWrite);
    }

    method Put(r: Record, f: PutFaults, cacheWrite: bool) returns (reply: Result<Stored, StoreError>)
      requires Coherent(inner.rows, cache)
      modifies this`cache, inner
      ensures Coherent(inner.rows, cache)
      ensures inner.rows == PutRows(old(inner.rows), r, f)
      ensures reply == PutReply(old(inner.rows), r, f)
      ensures cache == if cacheWrite || reply.Err? then old(cache)
                       else old(cache)[CacheKey(r.id) := PayloadOf(reply.value.record)]
    {
      PutKeepsCoherent(inner.rows, cache, r, f);
      reply := inner.Put(r, f);
      if reply.Err? { return; }
      WarmKeepsCoherent(inner.rows, cache, reply.value.record.id);
      Warm(reply.value.record.id, reply.value.record, cacheWrite);
    }

    /** Eviction, expiry, flush: anything the cache forgets or garbles on its own. */
    method Lose(lost: set<string>, garbled: set<string>)
      requires Coherent(inner.rows, cache)
      modifies this`cache
      ensures Coherent(inner.rows, cache)
      ensures cache == (old(cache) - lost) + map k | k in garbled :: Garbage
    {
      cache := (cache - lost) + map k | k in garbled :: Garbage;
    }
  }
}
