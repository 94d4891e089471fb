/** The transactional outbox: rows published by business transactions and drained in batches by
    a dispatcher that may fail, roll back or die at any point of a batch. */
module Outbox {
  import opened MachineInts
  import opened Options
  import Backoff

  /** `headersOk` is whether toMessage can decode the row. Times are nanoseconds. */
  datatype Row<+P> = Row(topic: string, aggregate: Option<nat>, payload: P, headersOk: bool,
                         attempts: nat, nextAttemptAt: int, deliveredAt: Option<int>)

  datatype Config = Config(topic: string, batchSize: nat, maxAttempts: int, backoff: Backoff.Policy)

  /** A row out of attempts is parked this far in the future. */
  const PARK: int := 100 * 365 * 24 * 3600 * 1_000_000_000

  /** outbox.Publish; the row's defaults come from the table definition. */
  function Publish<P>(rows: seq<Row<P>>, topic: string, aggregate: Option<nat>, payload: P,
                      now: int): Option<seq<Row<P>>> {
    if topic == "" then None
    else Some(rows + [Row(topic, aggregate, payload, true, 0, now, None)])
  }

  predicate Due<P>(r: Row<P>, topic: string, now: int) {
    r.topic == topic && r.deliveredAt.None? && r.nextAttemptAt <= now
  }

  /** Everything outside the dispatcher's control, per claimed row: what Send returned, when it
      returned, the jitter drawn, and whether the following UPDATE failed. */
  datatype Env = Env(sent: nat -> bool, at: nat -> int, random: nat -> nat, updateFails: nat -> bool, commitFails: bool)

  function RetryDelay(cfg: Config, attempt: int, random: nat): int {
    if attempt >= cfg.maxAttempts then PARK
    else
      var w := Backoff.Window(cfg.backoff, attempt - 1);
      if w == 0 then 0 else Backoff.Draw(random, w)
  }

  /** One claimed row, resolved. */
  function Resolve<P>(r: Row<P>, i: nat, env: Env, cfg: Config): Row<P> {
    if !r.headersOk then r
    else if env.sent(i) then r.(deliveredAt := Some(env.at(i)))
    else r.(attempts := r.attempts + 1, nextAttemptAt := env.at(i) + RetryDelay(cfg, r.attempts + 1, env.random(i)))
  }

  predicate InRange<P>(rows: seq<Row<P>>, batch: seq<nat>) {
    forall n :: 0 <= n < |batch| ==> batch[n] < |rows|
  }

  /** No resolution of a claimed row fails to be written; rows with unreadable headers are left alone. */
  predicate UpdatesPass<P>(rows: seq<Row<P>>, batch: seq<nat>, env: Env)
    requires InRange(rows, batch)
  {
    forall n :: 0 <= n < |batch| ==> !(rows[batch[n]].headersOk && env.updateFails(batch[n]))
  }

  ghost predicate Distinct(batch: seq<nat>) {
    forall i, j :: 0 <= i < j < |batch| ==> batch[i] != batch[j]
  }

  function Resolved<P>(rows: seq<Row<P>>, batch: seq<nat>, env: Env, cfg: Config): (r: seq<Row<P>>)
    requires InRange(rows, batch)
    ensures |r| == |rows|
  {
    if batch == [] then rows
    else
      var before := Resolved(rows, batch[..|batch| - 1], env, cfg);
      var i := batch[|batch| - 1];
      before[i := Resolve(before[i], i, env, cfg)]
  }

  // ---- Runs ----

  /** A Send that returned, and whether the batch it belongs to committed. */
  datatype Event = Event(index: nat, sent: bool, committed: bool)

  datatype State<+P> = State(rows: seq<Row<P>>, log: seq<Event>)

  /** `Drain` resolves the first `upto` rows of a claimed batch; a batch that does not commit leaves
      only its sends behind. */
  datatype Action<+P> =
    | Published(topic: string, aggregate: Option<nat>, payload: P, headersOk: bool, now: int)
    | Drain(now: int, batch: seq<nat>, env: Env, upto: nat, committed: bool)

  /** The sends of a batch; rows that do not decode are skipped without one. */
  function Events<P>(rows: seq<Row<P>>, batch: seq<nat>, env: Env, committed: bool): seq<Event>
    requires InRange(rows, batch)
  {
    if batch == [] then []
    else
      var i := batch[|batch| - 1];
      Events(rows, batch[..|batch| - 1], env, committed)
      + if rows[i].headersOk then [Event(i, env.sent(i), committed)] else []
  }

  ghost predicate Enabled<P>(s: State<P>, a: Action<P>, cfg: Config) {
    match a
    case Published(topic, _, _, _, _) => topic != ""
    case Drain(now, batch, env, upto, committed) =>
      && Distinct(batch) && InRange(s.rows, batch)
      && (forall n :: 0 <= n < |batch| ==> Due(s.rows[batch[n]], cfg.topic, now) && now <= env.at(batch[n]))
      && upto <= |batch| && (committed ==> upto == |batch|)
  }

  ghost function Next<P>(s: State<P>, a: Action<P>, cfg: Config): State<P>
    requires Enabled(s, a, cfg)
  {
    match a
    case Published(topic, aggregate, payload, headersOk, now) =>
      State(s.rows + [Row(topic, aggregate, payload, headersOk, 0, now, None)], s.log)
    case Drain(_, batch, env, upto, committed) =>
      State(if committed then Resolved(s.rows, batch, env, cfg) else s.rows,
            s.log + Events(s.rows, batch[..upto], env, committed))
  }

  ghost predicate IsRun<P>(states: seq<State<P>>, acts: seq<Action<P>>, cfg: Config) {
    && |states| == |acts| + 1
    && states[0].log == []
    && (forall k :: 0 <= k < |states[0].rows| ==>
      states[0].rows[k].attempts == 0 && states[0].rows[k].deliveredAt.None?)
    && forall n :: 0 <= n < |acts| ==>
      Enabled(states[n], acts[n], cfg) && states[n + 1] == Next(states[n], acts[n], cfg)
  }

  /** Committed sends of row `k` with the given result. */
  function Count(log: seq<Event>, k: nat, sent: bool): nat {
    if log == [] then 0
    else Count(log[..|log| - 1], k, sent) + if log[|log| - 1] == Event(k, sent, true) then 1 else 0
  }

  /** Sends of row `k`, committed or not. */
  function Sends(log: seq<Event>, k: nat): nat {
    if log == [] then 0 else Sends(log[..|log| - 1], k) + if log[|log| - 1].index == k then 1 else 0
  }

  lemma CountSnoc(log: seq<Event>, e: Event, k: nat, sent: bool)
    ensures Count(log + [e], k, sent) == Count(log, k, sent) + if e == Event(k, sent, true) then 1 else 0
    ensures Sends(log + [e], k) == Sends(log, k) + if e.index == k then 1 else 0
  {
    assert (log + [e])[..|log|] == log;
  }

  /** The committed row agrees with the committed sends. */
  ghost predicate Accounted<P>(rows: seq<Row<P>>, log: seq<Event>) {
    && (forall e :: e in log ==> e.index < |rows|)
    && forall k :: 0 <= k < |rows| ==>
         && rows[k].attempts == Count(log, k, false)
         && Count(log, k, true) == if rows[k].deliveredAt.Some? then 1 else 0
  }

  /** Row `k` before and after a batch prefix. */
  lemma {:induction false} ResolvedAt<P>(rows: seq<Row<P>>, batch: seq<nat>, env: Env, cfg: Config, k: nat)
    requires InRange(rows, batch) && Distinct(batch) && k < |rows|
    ensures Resolved(rows, batch, env, cfg)[k] == if k in batch then Resolve(rows[k], k, env, cfg) else rows[k]
  {
    if batch != [] {
      var rest, i := batch[..|batch| - 1], batch[|batch| - 1];
      assert batch == rest + [i];
      assert i !in rest;
      ResolvedAt(rows, rest, env, cfg, k);
    }
  }

  /** What a batch adds to the counts of row `k`. */
  lemma {:induction false} EventCounts<P>(rows: seq<Row<P>>, log: seq<Event>, batch: seq<nat>, env: Env,
                                          committed: bool, k: nat, sent: bool)
    requires InRange(rows, batch) && Distinct(batch) && k < |rows|
    ensures Count(log + Events(rows, batch, env, committed), k, sent)
         == Count(log, k, sent) + if committed && k in batch && rows[k].headersOk && env.sent(k) == sent then 1 else 0
    ensures k !in batch ==> Sends(log + Events(rows, batch, env, committed), k) == Sends(log, k)
  {
    if batch == [] {
      assert log + [] == log;
    } else {
      var rest, i := batch[..|batch| - 1], batch[|batch| - 1];
      assert batch == rest + [i];
      assert i !in rest;
      EventCounts(rows, log, rest, env, committed, k, sent);
      EventsSnoc(rows, log, rest, i, env, committed);
      if rows[i].headersOk {
        CountSnoc(log + Events(rows, rest, env, committed), Event(i, env.sent(i), committed), k, sent);
      }
    }
  }

  lemma EventsSnoc<P>(rows: seq<Row<P>>, log: seq<Event>, rest: seq<nat>, i: nat, env: Env, committed: bool)
    requires InRange(rows, rest) && i < |rows|
    ensures log + Events(rows, rest + [i], env, committed)
         == if rows[i].headersOk then (log + Events(rows, rest, env, committed)) + [Event(i, env.sent(i), committed)]
            else log + Events(rows, rest, env, committed)
  {
    assert (rest + [i])[..|rest|] == rest;
  }

  lemma {:induction false} EventsInRange<P>(rows: seq<Row<P>>, batch: seq<nat>, env: Env, committed: bool)
    requires InRange(rows, batch)
    ensures forall e :: e in Events(rows, batch, env, committed) ==> e.index < |rows|
  {
    if batch != [] { EventsInRange(rows, batch[..|batch| - 1], env, committed); }
  }

  lemma {:induction false} CountBeyond(log: seq<Event>, k: nat, sent: bool)
    requires forall e :: e in log ==> e.index != k
    ensures Count(log, k, sent) == 0
  {
    if log != [] { CountBeyond(log[..|log| - 1], k, sent); }
  }

  lemma StepAccounted<P>(s: State<P>, a: Action<P>, cfg: Config)
    requires Accounted(s.rows, s.log) && Enabled(s, a, cfg)
    ensures Accounted(Next(s, a, cfg).rows, Next(s, a, cfg).log)
  {
    var s' := Next(s, a, cfg);
    match a
    case Published(_, _, _, _, _) =>
      CountBeyond(s.log, |s.rows|, false);
      CountBeyond(s.log, |s.rows|, true);
    case Drain(now, batch, env, upto, committed) =>
      var prefix := batch[..upto];
      assert committed ==> prefix == batch;
      forall i | i in prefix ensures i in batch {}
      forall k | 0 <= k < |s'.rows|
        ensures s'.rows[k].attempts == Count(s'.log, k, false)
        ensures Count(s'.log, k, true) == if s'.rows[k].deliveredAt.Some? then 1 else 0
      {
        EventCounts(s.rows, s.log, prefix, env, committed, k, false);
        EventCounts(s.rows, s.log, prefix, env, committed, k, true);
        ResolvedAt(s.rows, batch, env, cfg, k);
      }
      EventsInRange(s.rows, prefix, env, committed);
  }

  /** In every run, with crashes and rolled-back batches anywhere: `attempts` is the number of
      committed failed sends, and a row is delivered exactly when one committed send succeeded. */
  lemma {:induction false} AttemptsAreCommittedFailures<P>(states: seq<State<P>>, acts: seq<Action<P>>, cfg: Config,
                                                           n: nat)
    requires IsRun(states, acts, cfg) && n < |states|
    ensures Accounted(states[n].rows, states[n].log)
  {
    if n == 0 {
    } else {
      AttemptsAreCommittedFailures(states, acts, cfg, n - 1);
      StepAccounted(states[n - 1], acts[n - 1], cfg);
    }
  }

  /** A published row keeps its identity; a delivered one is final and never sent again. */
  ghost predicate Carries<P>(s: State<P>, s': State<P>) {
    && |s.rows| <= |s'.rows|
    && forall k :: 0 <= k < |s.rows| ==>
         && s'.rows[k].topic == s.rows[k].topic && s'.rows[k].aggregate == s.rows[k].aggregate
         && s'.rows[k].payload == s.rows[k].payload && s'.rows[k].headersOk == s.rows[k].headersOk
         && s.rows[k].attempts <= s'.rows[k].attempts
         && (s.rows[k].deliveredAt.Some? ==> s'.rows[k] == s.rows[k] && Sends(s'.log, k) == Sends(s.log, k))
  }

  lemma StepCarries<P>(s: State<P>, a: Action<P>, cfg: Config)
    requires Enabled(s, a, cfg)
    ensures Carries(s, Next(s, a, cfg))
  {
    var s' := Next(s, a, cfg);
    if a.Drain? {
      var prefix := a.batch[..a.upto];
      forall i | i in prefix ensures i in a.batch {}
      forall k | 0 <= k < |s.rows|
        ensures s'.rows[k] == if a.committed && k in a.batch then Resolve(s.rows[k], k, a.env, cfg) else s.rows[k]
        ensures k !in a.batch ==> Sends(s'.log, k) == Sends(s.log, k)
      {
        ResolvedAt(s.rows, a.batch, a.env, cfg, k);
        EventCounts(s.rows, s.log, prefix, a.env, a.committed, k, true);
      }
    }
  }

  /** Nothing published is ever lost, and delivery is final, over every run. */
  lemma {:induction false} NothingLost<P>(states: seq<State<P>>, acts: seq<Action<P>>, cfg: Config, m: nat, n: nat)
    requires IsRun(states, acts, cfg) && m <= n < |states|
    ensures Carries(states[m], states[n])
    decreases n
  {
    if m < n {
      NothingLost(states, acts, cfg, m, n - 1);
      StepCarries(states[n - 1], acts[n - 1], cfg);
    }
  }

  /** Every drain of the run claims before the parking horizon, and time starts at `start`. */
  ghost predicate WithinHorizon<P>(acts: seq<Action<P>>, start: int) {
    forall a :: a in acts && a.Drain? ==> start <= a.now < start + PARK
  }

  ghost predicate Budgeted<P>(rows: seq<Row<P>>, cfg: Config, start: int) {
    forall k :: 0 <= k < |rows| ==>
      && rows[k].attempts <= cfg.maxAttempts
      && (rows[k].attempts == cfg.maxAttempts ==> start + PARK <= rows[k].nextAttemptAt)
  }

  /** Within the parking horizon no row is attempted more than maxAttempts times. */
  lemma {:induction false} AttemptsWithinBudget<P>(states: seq<State<P>>, acts: seq<Action<P>>, cfg: Config,
                                                   start: int, n: nat)
    requires IsRun(states, acts, cfg) && n < |states|
    requires 1 <= cfg.maxAttempts && WithinHorizon(acts, start)
    ensures Budgeted(states[n].rows, cfg, start)
  {
    if n == 0 {
    } else {
      AttemptsWithinBudget(states, acts, cfg, start, n - 1);
      var s, a := states[n - 1], acts[n - 1];
      assert a in acts;
      if a.Drain? && a.committed {
        forall k | 0 <= k < |s.rows|
          ensures states[n].rows[k] == if k in a.batch then Resolve(s.rows[k], k, a.env, cfg) else s.rows[k]
        {
          ResolvedAt(s.rows, a.batch, a.env, cfg, k);
        }
      }
    }
  }

  // ---- What a drain does to a row, and when the row is sent again ----

  /** How long a row that failed `attempts` times before waits after failing again: parked for a hundred
      years once out of attempts, else a draw below min(base * 2^attempts, max). */
  function Wait(attempts: nat, cfg: Config, random: nat): int
    requires 0 < cfg.backoff.base && 0 < cfg.backoff.max
  {
    if attempts + 1 >= cfg.maxAttempts then 100 * 365 * 24 * 3600 * 1_000_000_000
    else
      Backoff.WindowPositive(cfg.backoff.base, attempts);
      random % Backoff.Min(cfg.backoff.base * Pow(2, attempts), cfg.backoff.max)
  }

  lemma DelayIsWait(attempts: nat, cfg: Config, random: nat)
    requires Backoff.Sound(cfg.backoff)
    ensures RetryDelay(cfg, attempts + 1, random) == Wait(attempts, cfg, random) && 0 <= Wait(attempts, cfg, random)
  {
    Backoff.WindowClosedForm(cfg.backoff, attempts);
    Backoff.TermIsProduct(cfg.backoff.base, attempts);
    Backoff.WindowPositive(cfg.backoff.base, attempts);
  }

  /** Exactly what a committed drain does to row `k`: a claimed row whose headers decode is delivered at
      the time its send returned, or counts the failure and waits from that time; any other is left. */
  lemma DrainedExactly<P>(s: State<P>, a: Action<P>, cfg: Config, k: nat)
    requires Backoff.Sound(cfg.backoff) && a.Drain? && a.committed && Enabled(s, a, cfg) && k < |s.rows|
    ensures |Next(s, a, cfg).rows| == |s.rows|
    ensures var r, r' := s.rows[k], Next(s, a, cfg).rows[k];
            && (k !in a.batch || !r.headersOk ==> r' == r)
            && (k in a.batch && r.headersOk && a.env.sent(k) ==> r' == r.(deliveredAt := Some(a.env.at(k))))
            && (k in a.batch && r.headersOk && !a.env.sent(k) ==>
                  && r'.attempts == r.attempts + 1 && r'.deliveredAt.None?
                  && r'.nextAttemptAt == a.env.at(k) + Wait(r.attempts, cfg, a.env.random(k)))
  {
    ResolvedAt(s.rows, a.batch, a.env, cfg, k);
    if k in a.batch {
      DelayIsWait(s.rows[k].attempts, cfg, a.env.random(k));
      var n :| 0 <= n < |a.batch| && a.batch[n] == k;
    }
  }

  /** A dispatcher touches only undelivered rows of its own topic whose time has come. */
  lemma ClaimsAreDue<P>(s: State<P>, a: Action<P>, cfg: Config, k: nat)
    requires a.Drain? && Enabled(s, a, cfg) && k in a.batch
    ensures k < |s.rows| && s.rows[k].topic == cfg.topic && s.rows[k].deliveredAt.None?
    ensures s.rows[k].nextAttemptAt <= a.now <= a.env.at(k)
  {
    var n :| 0 <= n < |a.batch| && a.batch[n] == k;
  }

  /** Row `k` is claimed by the action, decodes, and its send fails, and that is committed. */
  ghost predicate FailsIn<P>(s: State<P>, a: Action<P>, k: nat) {
    a.Drain? && a.committed && k in a.batch && k < |s.rows| && s.rows[k].headersOk && !a.env.sent(k)
  }

  /** When row `k` may be sent again after failing in the action. */
  function AgainAt<P>(s: State<P>, a: Action<P>, cfg: Config, k: nat): int
    requires 0 < cfg.backoff.base && 0 < cfg.backoff.max && a.Drain? && k < |s.rows|
  {
    a.env.at(k) + Wait(s.rows[k].attempts, cfg, a.env.random(k))
  }

  lemma NotSooner<P>(s: State<P>, a: Action<P>, cfg: Config, k: nat, t: int)
    requires Backoff.Sound(cfg.backoff) && Enabled(s, a, cfg) && k < |s.rows| && t <= s.rows[k].nextAttemptAt
    ensures k < |Next(s, a, cfg).rows| && t <= Next(s, a, cfg).rows[k].nextAttemptAt
  {
    if a.Drain? && a.committed {
      DrainedExactly(s, a, cfg, k);
      if k in a.batch {
        ClaimsAreDue(s, a, cfg, k);
        DelayIsWait(s.rows[k].attempts, cfg, a.env.random(k));
      }
    }
  }

  lemma {:induction false} WaitsFrom<P>(states: seq<State<P>>, acts: seq<Action<P>>, cfg: Config, m: nat, n: nat,
                                        k: nat)
    requires IsRun(states, acts, cfg) && Backoff.Sound(cfg.backoff)
    requires m < n < |states| && FailsIn(states[m], acts[m], k)
    ensures k < |states[n].rows| && AgainAt(states[m], acts[m], cfg, k) <= states[n].rows[k].nextAttemptAt
    decreases n
  {
    if m + 1 < n {
      WaitsFrom(states, acts, cfg, m, n - 1, k);
      NotSooner(states[n - 1], acts[n - 1], cfg, k, AgainAt(states[m], acts[m], cfg, k));
    } else {
      DrainedExactly(states[m], acts[m], cfg, k);
    }
  }

  /** In every run, after a send of a row failed and that was committed, the row is not sent again, by any
      batch, before its wait is over. */
  lemma SendsAreSpaced<P>(states: seq<State<P>>, acts: seq<Action<P>>, cfg: Config, m: nat, n: nat, k: nat)
    requires IsRun(states, acts, cfg) && Backoff.Sound(cfg.backoff) && m < n < |acts|
    requires FailsIn(states[m], acts[m], k) && acts[n].Drain? && k in acts[n].batch
    ensures AgainAt(states[m], acts[m], cfg, k) <= acts[n].now <= acts[n].env.at(k)
  {
    WaitsFrom(states, acts, cfg, m, n, k);
    ClaimsAreDue(states[n], acts[n], cfg, k);
  }

  /** A due row that decodes can be claimed alone, and is then sent. */
  lemma DrainsOne<P>(s: State<P>, cfg: Config, env: Env, now: int, k: nat)
    requires k < |s.rows| && s.rows[k].topic == cfg.topic && s.rows[k].deliveredAt.None? && s.rows[k].headersOk
    requires s.rows[k].nextAttemptAt <= now <= env.at(k)
    ensures var a: Action<P> := Drain(now, [k], env, 1, true);
            Enabled(s, a, cfg) && Next(s, a, cfg).log == s.log + [Event(k, env.sent(k), true)]
  {
    assert [k][..0] == [] && [k][..1] == [k];
    assert Events(s.rows, [k], env, true) == [Event(k, env.sent(k), true)];
  }

  // ---- Past the horizon ----

  /** Every send fails, at `now`. */
  function FailAt(now: int): Env { Env(_ => false, _ => now, _ => 0, _ => false, false) }

  /** A run that publishes one row and fails it `k` times, each time as soon as it is due. */
  lemma {:induction false} FailsTimes<P>(cfg: Config, payload: P, k: nat)
    returns (states: seq<State<P>>, acts: seq<Action<P>>)
    requires cfg.topic != ""
    ensures IsRun(states, acts, cfg)
    ensures var rows := states[|acts|].rows;
            && |rows| == 1 && rows[0].attempts == k
              && rows[0].topic == cfg.topic && rows[0].headersOk && rows[0].deliveredAt.None?
  {
    if k == 0 {
      var s0: State<P> := State([], []);
      var a := Published(cfg.topic, None, payload, true, 0);
      states, acts := [s0, Next(s0, a, cfg)], [a];
    } else {
      states, acts := FailsTimes(cfg, payload, k - 1);
      var s := states[|acts|];
      var now := s.rows[0].nextAttemptAt;
      var a: Action<P> := Drain(now, [0], FailAt(now), 1, true);
      var s' := Next(s, a, cfg);
      ResolvedAt(s.rows, [0], FailAt(now), cfg, 0);
      states, acts := states + [s'], acts + [a];
    }
  }

  /** Whatever the configured budget, it ends at the horizon: there is a run in which the parked row
      comes due again and is attempted once more than maxAttempts. */
  lemma BudgetEndsAtHorizon<P>(cfg: Config, payload: P) returns (states: seq<State<P>>, acts: seq<Action<P>>)
    requires cfg.topic != "" && 1 <= cfg.maxAttempts
    ensures IsRun(states, acts, cfg)
    ensures |states[|acts|].rows| == 1 && states[|acts|].rows[0].attempts == cfg.maxAttempts + 1
  {
    states, acts := FailsTimes(cfg, payload, cfg.maxAttempts + 1);
  }

  // ---- The dispatcher ----

  /** The batch holds due rows of the topic, by next_attempt_at, none of them after one left out. */
  ghost predicate Foremost<P>(rows: seq<Row<P>>, batch: seq<nat>, topic: string, now: int)
    requires InRange(rows, batch)
  {
    && (forall n :: 0 <= n < |batch| ==> Due(rows[batch[n]], topic, now))
    && (forall i, j :: 0 <= i < j < |batch| ==> rows[batch[i]].nextAttemptAt <= rows[batch[j]].nextAttemptAt)
    && (forall n, k :: 0 <= n < |batch| && 0 <= k < |rows| && Due(rows[k], topic, now) && k !in batch ==>
          rows[batch[n]].nextAttemptAt <= rows[k].nextAttemptAt)
  }

  /** Every row outside the batch is of another topic, delivered, or scheduled for later. */
  ghost predicate NoneLeft<P>(rows: seq<Row<P>>, batch: seq<nat>, topic: string, now: int) {
    forall k :: 0 <= k < |rows| && k !in batch ==>
      rows[k].topic != topic || rows[k].deliveredAt.Some? || now < rows[k].nextAttemptAt
  }

  lemma ForemostSnoc<P>(rows: seq<Row<P>>, batch: seq<nat>, topic: string, now: int, best: nat)
    requires Distinct(batch) && InRange(rows, batch) && Foremost(rows, batch, topic, now)
    requires best < |rows| && best !in batch && Due(rows[best], topic, now)
    requires forall k :: 0 <= k < |rows| && Due(rows[k], topic, now) && k !in batch ==>
               rows[best].nextAttemptAt <= rows[k].nextAttemptAt
    ensures Distinct(batch + [best]) && InRange(rows, batch + [best]) && Foremost(rows, batch + [best], topic, now)
  {
  }

  /** One topic's dispatcher, holding the topic lock. `log` records its sends. */
  class Dispatcher<P> {
    const cfg: Config
    var rows: seq<Row<P>>
    ghost var log: seq<Event>

    constructor (cfg: Config, rows: seq<Row<P>>)
      ensures this.cfg == cfg && this.rows == rows && log == []
    {
      this.cfg, this.rows, this.log := cfg, rows, [];
    }

    /** The due row with the earliest next_attempt_at among those not yet taken. */
    method Earliest(now: int, taken: set<nat>) returns (best: Option<nat>)
      ensures best.None? <==> forall k :: 0 <= k < |rows| && Due(rows[k], cfg.topic, now) ==> k in taken
      ensures best.Some? ==>
        && best.value < |rows| && best.value !in taken && Due(rows[best.value], cfg.topic, now)
        && forall k :: 0 <= k < |rows| && Due(rows[k], cfg.topic, now) && k !in taken ==>
             rows[best.value].nextAttemptAt <= rows[k].nextAttemptAt
    {
      best := None;
      for i := 0 to |rows|
        invariant best.None? <==> forall k :: 0 <= k < i && Due(rows[k], cfg.topic, now) ==> k in taken
        invariant best.Some? ==>
          && best.value < i && best.value !in taken && Due(rows[best.value], cfg.topic, now)
          && forall k :: 0 <= k < i && Due(rows[k], cfg.topic, now) && k !in taken ==>
               rows[best.value].nextAttemptAt <= rows[k].nextAttemptAt
      {
        if Due(rows[i], cfg.topic, now) && i !in taken
           && (best.None? || rows[i].nextAttemptAt < rows[best.value].nextAttemptAt) {
          best := Some(i);
        }
      }
    }

    /** ClaimDueOutbox: the earliest due rows of the topic, in order, up to the batch size. */
    method ClaimDue(now: int) returns (batch: seq<nat>)
      ensures Distinct(batch) && InRange(rows, batch) && |batch| <= cfg.batchSize
      ensures Foremost(rows, batch, cfg.topic, now)
      ensures forall n :: 0 <= n < |batch| ==>
                var r := rows[batch[n]]; r.topic == cfg.topic && r.deliveredAt.None? && r.nextAttemptAt <= now
      ensures |batch| < cfg.batchSize ==> NoneLeft(rows, batch, cfg.topic, now)
    {
      batch := [];
      var taken: set<nat> := {};
      while |batch| < cfg.batchSize
        invariant |batch| <= cfg.batchSize
        invariant forall k :: k in taken <==> k in batch
        invariant Distinct(batch) && InRange(rows, batch) && Foremost(rows, batch, cfg.topic, now)
      {
        var best := Earliest(now, taken);
        if best.None? { return; }
        ForemostSnoc(rows, batch, cfg.topic, now, best.value);
        batch := batch + [best.value];
        taken := taken + {best.value};
      }
    }

    /** Send one claimed row and write its outcome; `failed` when that UPDATE fails. */
    method SendOne(row: Row<P>, i: nat, env: Env) returns (row': Row<P>, failed: bool)
      ensures failed <==> row.headersOk && env.updateFails(i)
      ensures !failed ==> row' == Resolve(row, i, env, cfg)
    {
      row' := row;
      if !row.headersOk { return row, false; }
      if env.sent(i) {
        row' := row.(deliveredAt := Some(env.at(i)));
      } else {
        var attempt := row.attempts + 1;
        var delay := PARK;
        if attempt < cfg.maxAttempts { delay := Backoff.ComputeBackoff(cfg.backoff, attempt, env.random(i)); }
        row' := row.(attempts := attempt, nextAttemptAt := env.at(i) + delay);
      }
      failed := env.updateFails(i);
    }

    /** The loop of drainOnce: `view` is the table as the transaction sees it, `upto` the number of
        rows sent before the first failed write, that row's own included. */
    method SendBatch(batch: seq<nat>, env: Env) returns (view: seq<Row<P>>, upto: nat, failed: bool)
      requires InRange(rows, batch) && Distinct(batch)
      ensures upto <= |batch| && (failed <==> !UpdatesPass(rows, batch, env))
      ensures failed ==> 0 < upto && UpdatesPass(rows, batch[..upto - 1], env) && !UpdatesPass(rows, batch[..upto], env)
      ensures !failed ==> upto == |batch| && view == Resolved(rows, batch, env, cfg)
    {
      view, upto, failed := rows, 0, false;
      while upto < |batch|
        invariant upto <= |batch| && UpdatesPass(rows, batch[..upto], env)
        invariant view == Resolved(rows, batch[..upto], env, cfg)
      {
        var i := batch[upto];
        assert batch[..upto + 1][..upto] == batch[..upto];
        ResolvedAt(rows, batch[..upto], env, cfg, i);
        var row', updateFailed := SendOne(view[i], i, env);
        upto := upto + 1;
        if updateFailed {
          assert batch[..upto][upto - 1] == i;
          return view, upto, true;
        }
        view := view[i := row'];
      }
      assert batch[..|batch|] == batch;
    }

    /** drainOnce: one transaction over a claimed batch. It is one `Drain` of the run model: either
        every claimed row is resolved and committed, or the table is as it was. */
    method DrainOnce(now: int, env: Env) returns (didWork: bool, failed: bool, ghost act: Action<P>)
      requires forall i :: now <= env.at(i)
      modifies this
      ensures act.Drain? && act.now == now && act.env == env
      ensures Enabled(State(old(rows), old(log)), act, cfg)
      ensures State(rows, log) == Next(State(old(rows), old(log)), act, cfg)
      ensures didWork <==> act.committed && act.batch != []
      ensures failed <==> !act.committed
      ensures failed <==> (env.commitFails && act.batch != []) || !UpdatesPass(old(rows), act.batch, env)
      ensures 0 < act.upto ==> UpdatesPass(old(rows), act.batch[..act.upto - 1], env)
      ensures act.upto < |act.batch| ==> !UpdatesPass(old(rows), act.batch[..act.upto], env)
      ensures |act.batch| <= cfg.batchSize && Foremost(old(rows), act.batch, cfg.topic, now)
      ensures |act.batch| < cfg.batchSize ==> NoneLeft(old(rows), act.batch, cfg.topic, now)
    {
      var batch := ClaimDue(now);
      var view, upto, updateFailed := SendBatch(batch, env);
      assert batch[..|batch|] == batch;
      var committed := !updateFailed && !(env.commitFails && batch != []);
      log := log + Events(rows, batch[..upto], env, committed);
      if committed { rows := view; }
      return committed && batch != [], !committed, Drain(now, batch, env, upto, committed);
    }
  }
}
