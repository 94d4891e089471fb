/** Exponential backoff with full jitter, as the saga runner and the outbox dispatcher each
    implement it. Durations are int64 nanoseconds. */
module Backoff {
  import opened MachineInts

  const DEFAULT_BASE: int := 500_000_000
  const DEFAULT_MAX: int := 300_000_000_000

  datatype Policy = Policy(base: int, max: int)

  function NewBackoff(base: int, max: int): (p: Policy)
    ensures 0 < p.base && 0 < p.max
    ensures 0 < base <= max ==> p == Policy(base, max)
    ensures p.base == if base <= 0 then 500_000_000 else base
    ensures max < p.base ==> p.max == 300_000_000_000
  {
    var b := if base <= 0 then DEFAULT_BASE else base;
    Policy(b, if max <= 0 || max < b then DEFAULT_MAX else max)
  }

  /** The base exceeds the maximum exactly when it exceeds the default that replaces a bad maximum. */
  lemma PolicyIsOrdered(base: int, max: int)
    ensures var p := NewBackoff(base, max);
            p.base <= p.max <==> base <= 300_000_000_000 || base <= max
  {
  }

  /** At most `n` doublings, stopping once `max` is reached; each doubling wraps. */
  function Doubled(c: int, max: int, n: int): int
    decreases n
  {
    if n <= 0 || c >= max then c else Doubled(Wrap64(c * 2), max, n - 1)
  }

  /** The jitter window: the delay is drawn from [0, Window), and is 0 when the window is empty. */
  function Window(p: Policy, n: int): int {
    var c := Doubled(p.base, p.max, n);
    var clamped := if c > p.max then p.max else c;
    if clamped <= 0 then 0 else clamped
  }

  /** rand.Int64N */
  function Draw(random: nat, n: int): (r: int)
    requires 0 < n
    ensures 0 <= r < n
  {
    random % n
  }

  /** The saga runner's Delay. */
  method Delay(p: Policy, attempt: int, random: nat) returns (delay: int)
    ensures delay == if Window(p, attempt) == 0 then 0 else Draw(random, Window(p, attempt))
  {
    var n := if attempt < 0 then 0 else attempt;
    var candidate := p.base;
    var i := 0;
    while i < n && candidate < p.max
      invariant 0 <= i <= n
      invariant Doubled(p.base, p.max, n) == Doubled(candidate, p.max, n - i)
    {
      candidate := Wrap64(candidate * 2);
      i := i + 1;
    }
    if candidate > p.max { candidate := p.max; }
    if candidate <= 0 { return 0; }
    delay := Draw(random, candidate);
  }

  /** The dispatcher's computeBackoff counts its attempts from one: the window of attempt `a` is
      the runner's window of attempt `a - 1`. */
  method ComputeBackoff(p: Policy, attempt: int, random: nat) returns (delay: int)
    ensures delay == if Window(p, attempt - 1) == 0 then 0 else Draw(random, Window(p, attempt - 1))
  {
    var candidate := p.base;
    var i := 1;
    while i < attempt && candidate < p.max
      invariant 1 <= i && (i <= attempt || i == 1)
      invariant Doubled(p.base, p.max, attempt - 1) == Doubled(candidate, p.max, attempt - i)
    {
      candidate := Wrap64(candidate * 2);
      i := i + 1;
    }
    if candidate > p.max { candidate := p.max; }
    if candidate <= 0 { return 0; }
    delay := Draw(random, candidate);
  }

  function Min(a: int, b: int): int { if a <= b then a else b }

  /** base * 2^n */
  function Term(base: int, n: nat): int {
    if n == 0 then base else 2 * Term(base, n - 1)
  }

  lemma {:induction false} TermIsProduct(base: int, n: nat)
    ensures Term(base, n) == base * Pow(2, n)
  {
    if n > 0 {
      TermIsProduct(base, n - 1);
      assert base * (2 * Pow(2, n - 1)) == 2 * (base * Pow(2, n - 1));
    }
  }

  lemma {:induction false} TermMonotone(base: int, a: nat, b: nat)
    requires 0 < base && a <= b
    ensures 0 < Term(base, a) <= Term(base, b)
  {
    if a == b {
      if a > 0 { TermMonotone(base, a - 1, a - 1); }
    } else {
      TermMonotone(base, a, b - 1);
    }
  }

  /** No doubling the loop performs leaves int64. */
  ghost predicate NoOverflow(p: Policy) {
    forall k: nat :: Term(p.base, k) < p.max ==> 2 * Term(p.base, k) < TWO_63
  }

  /** A maximum of at most 2^62 ns (146 years) is enough for that. */
  lemma SmallMaxNeverOverflows(p: Policy)
    requires 0 < p.base && p.max <= TWO_62
    ensures NoOverflow(p)
  {
  }

  lemma {:induction false} DoubledClosedForm(p: Policy, k: nat, n: nat)
    requires 0 < p.base && 0 < p.max < TWO_63 && NoOverflow(p)
    ensures Min(Doubled(Term(p.base, k), p.max, n), p.max) == Min(Term(p.base, k + n), p.max)
    ensures 0 < Doubled(Term(p.base, k), p.max, n)
    decreases n
  {
    TermMonotone(p.base, k, k + n);
    if n == 0 || Term(p.base, k) >= p.max {
    } else {
      assert Term(p.base, k + 1) == Wrap64(Term(p.base, k) * 2);
      DoubledClosedForm(p, k + 1, n - 1);
    }
  }

  /** The promised schedule, min(base * 2^n, max), for every attempt. */
  lemma WindowClosedForm(p: Policy, n: nat)
    requires 0 < p.base && 0 < p.max < TWO_63 && NoOverflow(p)
    ensures Window(p, n) == Min(Term(p.base, n), p.max)
  {
    DoubledClosedForm(p, 0, n);
    TermMonotone(p.base, 0, n);
  }

  /** ... and the schedule holds at every attempt only if no doubling overflows. */
  lemma ScheduleExactly(p: Policy)
    requires 0 < p.base < TWO_63 && 0 < p.max < TWO_63
    ensures NoOverflow(p) <==> forall n: nat :: Window(p, n) == Min(Term(p.base, n), p.max)
  {
    if NoOverflow(p) {
      forall n: nat ensures Window(p, n) == Min(Term(p.base, n), p.max) { WindowClosedForm(p, n); }
    } else {
      var k: nat :| Term(p.base, k) < p.max && 2 * Term(p.base, k) >= TWO_63;
      OverflowBreaksSchedule(p, k);
    }
  }

  lemma OverflowBreaksSchedule(p: Policy, k: nat)
    requires 0 < p.base && 0 < p.max < TWO_63
    requires Term(p.base, k) < p.max && 2 * Term(p.base, k) >= TWO_63
    ensures Window(p, k + 1) == 0 < Min(Term(p.base, k + 1), p.max)
  {
    ReachesUnwrapped(p, k, 1);
    var c := Term(p.base, k);
    WrapHigh(c * 2);
    assert Doubled(c, p.max, 1) == Doubled(Wrap64(c * 2), p.max, 0);
  }

  /** While the product stays below `max` the loop just doubles. */
  lemma {:induction false} ReachesUnwrapped(p: Policy, k: nat, extra: nat)
    requires 0 < p.base && p.max < TWO_63
    requires Term(p.base, k) < p.max
    ensures Doubled(p.base, p.max, k + extra) == Doubled(Term(p.base, k), p.max, extra)
    decreases k
  {
    if k > 0 {
      TermMonotone(p.base, 0, k - 1);
      assert Wrap64(Term(p.base, k - 1) * 2) == Term(p.base, k);
      ReachesUnwrapped(p, k - 1, extra + 1);
    }
  }

  /** A policy NewBackoff can build and whose doublings fit. */
  ghost predicate Sound(p: Policy) {
    0 < p.base && 0 < p.max < TWO_63 && NoOverflow(p)
  }

  lemma WindowPositive(base: int, n: nat)
    requires 0 < base
    ensures 0 < base * Pow(2, n)
  {
    TermMonotone(base, 0, n);
    TermIsProduct(base, n);
  }

  /** The draw for attempt `n` is one below min(base * 2^n, max). */
  lemma DrawInWindow(p: Policy, n: nat, random: nat)
    requires Sound(p)
    ensures 0 < Window(p, n) == Min(p.base * Pow(2, n), p.max)
    ensures Draw(random, Window(p, n)) == random % Min(p.base * Pow(2, n), p.max)
  {
    WindowClosedForm(p, n);
    TermIsProduct(p.base, n);
    WindowPositive(p.base, n);
  }
}
