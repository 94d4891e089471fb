/** The FX leg: pricing an IDR request in USDC and, after the payout, pricing
    the same USDC back at the mid rate to find the spread that was earned. */
module Fx {
  import opened MachineInts
  import opened Options

  /** `num` rupiah per USDC, with a decimal scale. */
  datatype Rate = Rate(num: int, scale: int)

  datatype QuoteError = AmountNonPositive | InvalidRate | InvalidSpread | Overflows | RoundsToZero

  const USDC_DECIMALS: nat := 6
  const BPS: int := 10000
  const USDC_UNIT: int := 1000000

  /** big.Int.Quo: division that truncates toward zero. */
  function Quo(a: int, b: int): int
    requires b != 0
  {
    if 0 <= a && 0 < b then a / b
    else if 0 <= a then -(a / -b)
    else if 0 < b then -((-a) / b)
    else (-a) / (-b)
  }

  /** 10^n computed in an int64, overflow included. */
  function Pow10Wrapped(n: int): int {
    if n <= 0 then 1 else Wrap64(Pow(10, n))
  }

  method Pow10(n: int) returns (r: int)
    ensures r == Pow10Wrapped(n)
  {
    r := 1;
    var i := 0;
    while i < n
      invariant 0 <= i && (i <= n || i == 0)
      invariant r == Wrap64(Pow(10, i))
    {
      WrapTimesTen(Pow(10, i));
      r := Wrap64(r * 10);
      i := i + 1;
    }
  }

  lemma WrapTimesTen(x: int)
    ensures Wrap64(Wrap64(x) * 10) == Wrap64(10 * x)
  {
  }

  /** The powers of ten an int64 holds exactly; rate_scale is at most 18. */
  lemma SmallPowersAreExact(n: nat)
    requires n <= 18
    ensures Pow10Wrapped(n) == Pow(10, n)
  {
    PowMonotone(10, n, 18);
    TenToThe18();
  }

  lemma TenToThe18()
    ensures Pow(10, 18) == 1_000_000_000_000_000_000
  {
    assert Pow(10, 6) == USDC_UNIT;
    assert Pow(10, 12) == USDC_UNIT * USDC_UNIT by { PowAdd(10, 6, 6); }
    assert Pow(10, 18) == Pow(10, 6) * Pow(10, 12) by { PowAdd(10, 6, 12); }
  }

  /** effRate: the rate numerator after the spread, times 10^scale when scale is positive. */
  function EffectiveRate(rate: Rate, spreadBps: int): int {
    rate.num * (BPS - spreadBps) * Pow10Wrapped(rate.scale)
  }

  function QuotedUsdc(amountIdr: int, rate: Rate, spreadBps: int): Result<int, QuoteError> {
    if amountIdr <= 0 then Err(AmountNonPositive)
    else if rate.num <= 0 then Err(InvalidRate)
    else if spreadBps < 0 || spreadBps > BPS then Err(InvalidSpread)
    else
      var eff := EffectiveRate(rate, spreadBps);
      if eff == 0 then Err(InvalidRate)
      else
        var out := Quo(amountIdr * USDC_UNIT * BPS, eff);
        if !IsInt64(out) then Err(Overflows)
        else if out <= 0 then Err(RoundsToZero)
        else Ok(out)
  }

  method QuoteAmount(amountIdr: int, rate: Rate, spreadBps: int) returns (r: Result<int, QuoteError>)
    ensures r == QuotedUsdc(amountIdr, rate, spreadBps)
    ensures r.Ok? && rate.scale <= 0 ==>
      r.value * (rate.num * (BPS - spreadBps)) <= amountIdr * (USDC_UNIT * BPS)
        < (r.value + 1) * (rate.num * (BPS - spreadBps))
  {
    if amountIdr <= 0 { return Err(AmountNonPositive); }
    if rate.num <= 0 { return Err(InvalidRate); }
    if spreadBps < 0 || spreadBps > BPS { return Err(InvalidSpread); }
    var num := amountIdr;
    var unit := Pow10(USDC_DECIMALS);
    assert Pow10Wrapped(6) == USDC_UNIT;
    num := num * unit;
    num := num * BPS;
    var effRate := rate.num;
    effRate := effRate * (BPS - spreadBps);
    if rate.scale > 0 {
      var scale := Pow10(rate.scale);
      effRate := effRate * scale;
    }
    assert effRate == EffectiveRate(rate, spreadBps);
    if effRate == 0 { return Err(InvalidRate); }
    var out := Quo(num, effRate);
    if !IsInt64(out) { return Err(Overflows); }
    if out <= 0 { return Err(RoundsToZero); }
    r := Ok(out);
    if rate.scale <= 0 { QuoteIsFloor(amountIdr, rate, spreadBps, out); }
  }

  /** computeMidIDR: the IDR value of `usdc` at the mid rate, 0 when it does not fit. */
  function MidIdr(usdc: int, rateNum: int, rateScale: nat): int {
    var out := Quo(usdc * rateNum, Pow(10, USDC_DECIMALS + rateScale));
    if IsInt64(out) then out else 0
  }

  // ---- What a quote means at scale 0, the scale of the shipped rates ----

  /** A quote is the largest USDC amount whose value at the effective rate is within the request. */
  lemma QuoteIsFloor(amountIdr: int, rate: Rate, spreadBps: int, usdc: int)
    requires rate.scale <= 0
    requires QuotedUsdc(amountIdr, rate, spreadBps) == Ok(usdc)
    ensures 0 < rate.num * (BPS - spreadBps)
    ensures usdc == amountIdr * (USDC_UNIT * BPS) / (rate.num * (BPS - spreadBps))
    ensures usdc * (rate.num * (BPS - spreadBps)) <= amountIdr * (USDC_UNIT * BPS)
              < (usdc + 1) * (rate.num * (BPS - spreadBps))
  {
    var d := rate.num * (BPS - spreadBps);
    assert EffectiveRate(rate, spreadBps) == d;
    MulMonotone(1, rate.num, BPS - spreadBps);
    QuotientBounds(amountIdr * (USDC_UNIT * BPS), d);
    assert (usdc + 1) * d == usdc * d + d;
  }

  // ---- Any scale the schema admits ----

  /** The exact divisor of a quote; at scales up to 18 pow10 does not wrap. */
  function Divisor(rate: Rate, spreadBps: int): int
    requires 0 <= rate.scale
  {
    rate.num * (BPS - spreadBps) * Pow(10, rate.scale)
  }

  predicate Quotable(rate: Rate, spreadBps: int) {
    0 < rate.num && 0 <= spreadBps < BPS && 0 <= rate.scale <= 18
  }

  lemma DivisorPositive(rate: Rate, spreadBps: int)
    requires 0 < rate.num && spreadBps < BPS && 0 <= rate.scale
    ensures 0 < Divisor(rate, spreadBps)
  {
    MulMonotone(1, rate.num, BPS - spreadBps);
    MulMonotone(1, Pow(10, rate.scale), rate.num * (BPS - spreadBps));
  }

  /** The request in USDC units at the effective rate, rounded down: amount * 10^10 over the divisor. */
  function Floor(amountIdr: int, rate: Rate, spreadBps: int): int
    requires Quotable(rate, spreadBps)
  {
    DivisorPositive(rate, spreadBps);
    amountIdr * (USDC_UNIT * BPS) / Divisor(rate, spreadBps)
  }

  lemma QuotientIs(amountIdr: int, rate: Rate, spreadBps: int)
    requires 0 < amountIdr && Quotable(rate, spreadBps)
    ensures EffectiveRate(rate, spreadBps) > 0
    ensures Quo(amountIdr * USDC_UNIT * BPS, EffectiveRate(rate, spreadBps)) == Floor(amountIdr, rate, spreadBps)
    ensures 0 <= Floor(amountIdr, rate, spreadBps)
  {
    SmallPowersAreExact(rate.scale);
    DivisorPositive(rate, spreadBps);
    assert EffectiveRate(rate, spreadBps) == Divisor(rate, spreadBps);
    assert amountIdr * USDC_UNIT * BPS == amountIdr * (USDC_UNIT * BPS);
    QuotientBounds(amountIdr * (USDC_UNIT * BPS), Divisor(rate, spreadBps));
  }

  /** A request is quoted exactly when amount, rate and spread are positive and the quotient is a
      positive int64, and the quote is then that quotient. */
  lemma QuoteSucceedsExactly(amountIdr: int, rate: Rate, spreadBps: int)
    requires 0 <= rate.scale <= 18
    ensures QuotedUsdc(amountIdr, rate, spreadBps).Ok? <==>
            0 < amountIdr && Quotable(rate, spreadBps)
            && 1 <= Floor(amountIdr, rate, spreadBps) < 0x8000_0000_0000_0000
    ensures QuotedUsdc(amountIdr, rate, spreadBps).Ok? ==>
              QuotedUsdc(amountIdr, rate, spreadBps).value == Floor(amountIdr, rate, spreadBps)
  {
    if 0 < amountIdr && Quotable(rate, spreadBps) {
      QuotientIs(amountIdr, rate, spreadBps);
    } else if spreadBps == BPS {
      assert EffectiveRate(rate, spreadBps) == 0;
    }
  }

  /** Otherwise the error names the first thing wrong. */
  lemma QuoteErrorExactly(amountIdr: int, rate: Rate, spreadBps: int)
    requires 0 <= rate.scale <= 18 && QuotedUsdc(amountIdr, rate, spreadBps).Err?
    ensures var e := QuotedUsdc(amountIdr, rate, spreadBps).error;
            && (e == AmountNonPositive <==> amountIdr <= 0)
            && (e == InvalidRate <==> amountIdr > 0 && (rate.num <= 0 || spreadBps == 10000))
            && (e == InvalidSpread <==> amountIdr > 0 && rate.num > 0 && (spreadBps < 0 || spreadBps > 10000))
            && (e == Overflows <==>
                  && amountIdr > 0 && Quotable(rate, spreadBps)
                  && Floor(amountIdr, rate, spreadBps) >= 0x8000_0000_0000_0000)
            && (e == RoundsToZero <==>
                  amountIdr > 0 && Quotable(rate, spreadBps) && Floor(amountIdr, rate, spreadBps) == 0)
  {
    if 0 < amountIdr && Quotable(rate, spreadBps) {
      QuotientIs(amountIdr, rate, spreadBps);
    } else if spreadBps == BPS {
      assert EffectiveRate(rate, spreadBps) == 0;
    }
  }

  lemma FloorMonotone(a: int, a': int, r: Rate, r': Rate, s: int, s': int)
    requires 0 <= a <= a' && r'.num <= r.num && r.scale == r'.scale && s <= s' && Quotable(r, s) && Quotable(r', s')
    ensures Floor(a, r, s) <= Floor(a', r', s')
  {
    var p, d, d' := Pow(10, r.scale), Divisor(r, s), Divisor(r', s');
    DivisorPositive(r, s);
    DivisorPositive(r', s');
    MulMonotone(r'.num, r.num, BPS - s');
    MulMonotone(BPS - s', BPS - s, r.num);
    MulMonotone(r'.num * (BPS - s'), r.num * (BPS - s), p);
    assert 0 < d' <= d;
    var q := Floor(a, r, s);
    QuotientBounds(a * (USDC_UNIT * BPS), d);
    MulMonotone(d', d, q);
    QuotientAtLeast(a' * (USDC_UNIT * BPS), d', q);
  }

  /** Asking for more, or paying a larger spread, never costs less; a better rate never costs more. */
  lemma QuoteMonotone(a: int, a': int, r: Rate, r': Rate, s: int, s': int)
    requires a <= a' && r'.num <= r.num && r.scale == r'.scale && 0 <= r.scale <= 18 && s <= s'
    requires QuotedUsdc(a, r, s).Ok? && QuotedUsdc(a', r', s').Ok?
    ensures QuotedUsdc(a, r, s).value <= QuotedUsdc(a', r', s').value
  {
    QuoteSucceedsExactly(a, r, s);
    QuoteSucceedsExactly(a', r', s');
    FloorMonotone(a, a', r, r', s, s');
  }

  lemma FloorSplit(a: int, b: int, r: Rate, s: int)
    requires 0 <= a && 0 <= b && Quotable(r, s)
    ensures Floor(a, r, s) + Floor(b, r, s) <= Floor(a + b, r, s) <= Floor(a, r, s) + Floor(b, r, s) + 1
  {
    var d := Divisor(r, s);
    DivisorPositive(r, s);
    var k := USDC_UNIT * BPS;
    var x, y := Floor(a, r, s), Floor(b, r, s);
    QuotientBounds(a * k, d);
    QuotientBounds(b * k, d);
    assert (a + b) * k == a * k + b * k;
    assert (x + y) * d == x * d + y * d;
    assert (x + y + 2) * d == x * d + y * d + d + d;
    QuotientAtLeast((a + b) * k, d, x + y);
    QuotientAtLeast((a + b) * k, d, x + y + 2);
  }

  /** Splitting a request in two saves at most one USDC unit and never costs more; the whole can be
      quoted whenever the parts can, unless it overflows. */
  lemma QuoteSplit(a: int, b: int, r: Rate, s: int)
    requires 0 <= r.scale <= 18 && QuotedUsdc(a, r, s).Ok? && QuotedUsdc(b, r, s).Ok?
    ensures var whole, parts := QuotedUsdc(a + b, r, s), QuotedUsdc(a, r, s).value + QuotedUsdc(b, r, s).value;
            && (whole.Ok? ==> parts <= whole.value <= parts + 1)
            && (whole.Err? ==> whole.error == Overflows && 0x8000_0000_0000_0000 <= parts + 1)
  {
    QuoteSucceedsExactly(a, r, s);
    QuoteSucceedsExactly(b, r, s);
    QuoteSucceedsExactly(a + b, r, s);
    if QuotedUsdc(a + b, r, s).Err? { QuoteErrorExactly(a + b, r, s); }
    FloorSplit(a, b, r, s);
  }

  // ---- The booked spread ----

  lemma MidIsFloor(usdc: int, rateNum: int)
    requires 0 < usdc && 0 < rateNum
    ensures MidIdr(usdc, rateNum, 0) == (var out := usdc * rateNum / USDC_UNIT; if IsInt64(out) then out else 0)
    ensures 0 <= usdc * rateNum
    ensures 0 <= MidIdr(usdc, rateNum, 0)
  {
    MulMonotone(0, usdc, rateNum);
    assert Pow(10, 6) == USDC_UNIT;
    QuotientBounds(usdc * rateNum, USDC_UNIT);
  }

  /** The spread booked on a payout is never more than the advertised share of it:
      mid - I <= I * s / (10000 - s). */
  lemma SpreadUpperBound(amountIdr: int, rateNum: int, spreadBps: int, usdc: int)
    requires 0 <= spreadBps < BPS
    requires QuotedUsdc(amountIdr, Rate(rateNum, 0), spreadBps) == Ok(usdc)
    ensures MidIdr(usdc, rateNum, 0) * (BPS - spreadBps) <= amountIdr * BPS
    ensures MidIdr(usdc, rateNum, 0) - amountIdr <= amountIdr * spreadBps / (BPS - spreadBps)
  {
    var m, t := MidIdr(usdc, rateNum, 0), BPS - spreadBps;
    QuoteIsFloor(amountIdr, Rate(rateNum, 0), spreadBps, usdc);
    MidAtMost(usdc, rateNum);
    MulMonotone(m * USDC_UNIT, usdc * rateNum, t);
    Regroup(usdc, rateNum, t);
    assert (m * USDC_UNIT) * t == (m * t) * USDC_UNIT;
    ShareOf(amountIdr, spreadBps, m);
  }

  lemma MidAtMost(usdc: int, rateNum: int)
    requires 0 < usdc && 0 < rateNum
    ensures MidIdr(usdc, rateNum, 0) * USDC_UNIT <= usdc * rateNum
  {
    MidIsFloor(usdc, rateNum);
    QuotientBounds(usdc * rateNum, USDC_UNIT);
  }

  lemma ShareOf(amountIdr: int, spreadBps: int, m: int)
    requires 0 <= spreadBps < BPS && m * (BPS - spreadBps) <= amountIdr * BPS
    ensures m - amountIdr <= amountIdr * spreadBps / (BPS - spreadBps)
  {
    var t := BPS - spreadBps;
    assert (m - amountIdr) * t == m * t - amountIdr * t;
    assert amountIdr * t == amountIdr * BPS - amountIdr * spreadBps;
    QuotientAtLeast(amountIdr * spreadBps, t, m - amountIdr);
  }

  lemma Regroup(a: int, b: int, c: int)
    ensures (a * b) * c == a * (b * c)
  {
  }

  lemma QuotedAtScale(amountIdr: int, rate: Rate, spreadBps: int, usdc: int)
    requires 0 <= rate.scale <= 18 && QuotedUsdc(amountIdr, rate, spreadBps) == Ok(usdc)
    ensures 0 < amountIdr && 0 < rate.num && 0 < usdc && 0 <= spreadBps < BPS
    ensures 0 < Divisor(rate, spreadBps)
    ensures usdc == amountIdr * (USDC_UNIT * BPS) / Divisor(rate, spreadBps)
  {
    QuoteSucceedsExactly(amountIdr, rate, spreadBps);
    DivisorPositive(rate, spreadBps);
  }

  lemma MidAtScale(usdc: int, rateNum: int, scale: nat)
    requires 0 < usdc && 0 < rateNum
    ensures 0 < USDC_UNIT * Pow(10, scale)
    ensures var out := usdc * rateNum / (USDC_UNIT * Pow(10, scale));
            0 <= out && MidIdr(usdc, rateNum, scale) == if out < TWO_63 then out else 0
  {
    PowAdd(10, 6, scale);
    assert Pow(10, 6) == USDC_UNIT;
    MulMonotone(1, Pow(10, scale), USDC_UNIT);
    MulMonotone(0, usdc, rateNum);
    QuotientBounds(usdc * rateNum, USDC_UNIT * Pow(10, scale));
  }

  /** Pricing back falls short of the amount exactly when the remainder of the quote's division
      exceeds I * 10^6 * (10000 - t * p * p). */
  lemma ShortfallExactly(amountIdr: int, num: int, t: int, p: int, usdc: int, r: int)
    requires 0 < t && 0 < p && amountIdr * (USDC_UNIT * BPS) == usdc * (num * t * p) + r
    ensures 0 < USDC_UNIT * p
    ensures usdc * num / (USDC_UNIT * p) < amountIdr <==> amountIdr * USDC_UNIT * (BPS - t * p * p) < r
  {
    var x, y, c := amountIdr * (USDC_UNIT * p), usdc * num, t * p;
    MulMonotone(1, p, USDC_UNIT);
    MulMonotone(1, t, p);
    QuotientAtLeast(y, USDC_UNIT * p, amountIdr);
    BothSides(amountIdr, num, t, p, usdc, r);
    MulCancel(x, y, c);
    if x <= y { MulMonotone(x, y, c); }
  }

  /** The two sides of I <= mid, each times t * p. */
  lemma BothSides(amountIdr: int, num: int, t: int, p: int, usdc: int, r: int)
    requires amountIdr * (USDC_UNIT * BPS) == usdc * (num * t * p) + r
    ensures (usdc * num) * (t * p) == amountIdr * (USDC_UNIT * BPS) - r
    ensures (amountIdr * (USDC_UNIT * p)) * (t * p)
         == amountIdr * (USDC_UNIT * BPS) - amountIdr * USDC_UNIT * (BPS - t * p * p)
  {
    Regroup(usdc, num, t * p);
    Regroup(num, t, p);
    var a := amountIdr * USDC_UNIT;
    calc {
      (amountIdr * (USDC_UNIT * p)) * (t * p);
      (a * p) * (t * p);
      { Regroup(a, p, t * p); assert p * (t * p) == t * p * p; }
      a * (t * p * p);
      a * BPS - a * (BPS - t * p * p);
    }
  }

  /** apply_payout_result's guard, in terms of the quote alone: the mid value does not fit an int64
      (and is taken as 0), or the quote's remainder exceeds what the spread leaves. */
  predicate GuardFires(amountIdr: int, rate: Rate, spreadBps: int, usdc: int)
    requires 0 <= rate.scale && 0 < Divisor(rate, spreadBps)
  {
    var p := Pow(10, rate.scale);
    || TWO_63 <= usdc * rate.num / (USDC_UNIT * p)
    || amountIdr * USDC_UNIT * (BPS - (BPS - spreadBps) * p * p)
       < amountIdr * (USDC_UNIT * BPS) % Divisor(rate, spreadBps)
  }

  /** For every scale and spread: the mid value lies below the amount paid out exactly when the
      guard's condition on the quote holds. */
  lemma NegativeSpreadExactly(amountIdr: int, rate: Rate, spreadBps: int, usdc: int)
    requires 0 <= rate.scale <= 18 && QuotedUsdc(amountIdr, rate, spreadBps) == Ok(usdc)
    ensures 0 < Divisor(rate, spreadBps)
    ensures MidIdr(usdc, rate.num, rate.scale) < amountIdr <==> GuardFires(amountIdr, rate, spreadBps, usdc)
  {
    QuotedAtScale(amountIdr, rate, spreadBps, usdc);
    MidAtScale(usdc, rate.num, rate.scale);
    var n, d := amountIdr * (USDC_UNIT * BPS), Divisor(rate, spreadBps);
    QuotientBounds(n, d);
    ShortfallExactly(amountIdr, rate.num, BPS - spreadBps, Pow(10, rate.scale), usdc, n % d);
  }

  /** At scale 0 the condition is that the remainder exceeds the spread's share. */
  lemma UnscaledGuard(amountIdr: int, rateNum: int, spreadBps: int, usdc: int)
    requires 0 < rateNum * (BPS - spreadBps)
    ensures Divisor(Rate(rateNum, 0), spreadBps) == rateNum * (BPS - spreadBps)
    ensures GuardFires(amountIdr, Rate(rateNum, 0), spreadBps, usdc) <==>
            TWO_63 <= usdc * rateNum / USDC_UNIT
            || amountIdr * USDC_UNIT * spreadBps < amountIdr * (USDC_UNIT * BPS) % (rateNum * (BPS - spreadBps))
  {
    assert Pow(10, 0) == 1;
  }

  /** The mid value fits for every amount up to (10000 - s) / 10000 of the int64 range. */
  lemma MidFits(amountIdr: int, rateNum: int, spreadBps: int, usdc: int)
    requires 0 <= spreadBps < BPS
    requires QuotedUsdc(amountIdr, Rate(rateNum, 0), spreadBps) == Ok(usdc)
    requires amountIdr * BPS < TWO_63 * (BPS - spreadBps)
    ensures IsInt64(usdc * rateNum / USDC_UNIT)
  {
    var t := BPS - spreadBps;
    var out := usdc * rateNum / USDC_UNIT;
    QuoteIsFloor(amountIdr, Rate(rateNum, 0), spreadBps, usdc);
    MulMonotone(0, usdc, rateNum);
    QuotientBounds(usdc * rateNum, USDC_UNIT);
    MulMonotone(out * USDC_UNIT, usdc * rateNum, t);
    Regroup(usdc, rateNum, t);
    assert (out * USDC_UNIT) * t == (out * t) * USDC_UNIT;
    MulCancel(out, TWO_63, t);
  }

  /** A spread large enough to pay for one rate unit of rounding keeps the guard silent. */
  lemma SpreadNonNegative(amountIdr: int, rateNum: int, spreadBps: int, usdc: int)
    requires QuotedUsdc(amountIdr, Rate(rateNum, 0), spreadBps) == Ok(usdc)
    requires usdc * rateNum / USDC_UNIT < TWO_63
    requires amountIdr * USDC_UNIT * spreadBps >= rateNum * (BPS - spreadBps)
    ensures amountIdr <= MidIdr(usdc, rateNum, 0)
  {
    QuoteIsFloor(amountIdr, Rate(rateNum, 0), spreadBps, usdc);
    NegativeSpreadExactly(amountIdr, Rate(rateNum, 0), spreadBps, usdc);
    UnscaledGuard(amountIdr, rateNum, spreadBps, usdc);
  }

  /** With the shipped rate (16200, scale 0) and spread (50 bps) the guard is silent for every amount
      that can be quoted at all. */
  lemma ShippedRateNeverRejects(amountIdr: int, usdc: int)
    requires QuotedUsdc(amountIdr, Rate(16200, 0), 50) == Ok(usdc)
    ensures amountIdr <= MidIdr(usdc, 16200, 0)
  {
    if amountIdr >= 4 {
      SpreadNonNegative(amountIdr, 16200, 50, usdc);
    } else {
      NegativeSpreadExactly(amountIdr, Rate(16200, 0), 50, usdc);
      UnscaledGuard(amountIdr, 16200, 50, usdc);
    }
  }

  /** Without a spread the guard can fire: one rupiah at 16200 quotes to 61 units, worth 0 rupiah. */
  lemma NegativeSpreadWitness()
    ensures QuotedUsdc(1, Rate(16200, 0), 0) == Ok(61)
    ensures MidIdr(61, 16200, 0) == 0
  {
    assert Pow(10, 6) == USDC_UNIT;
  }

  /** A scaled rate is applied twice in the same direction: quoting multiplies the divisor by
      10^scale although the rate means num / 10^scale, and pricing back divides again. So every
      intent whose spread leaves more than 10000 / 10^(2 * scale) bps is rejected after its payout. */
  lemma ScaledRateAlwaysRejects(amountIdr: int, rate: Rate, spreadBps: int, usdc: int)
    requires 0 <= rate.scale <= 18 && QuotedUsdc(amountIdr, rate, spreadBps) == Ok(usdc)
    requires BPS < (BPS - spreadBps) * Pow(10, rate.scale) * Pow(10, rate.scale)
    ensures MidIdr(usdc, rate.num, rate.scale) < amountIdr
  {
    QuotedAtScale(amountIdr, rate, spreadBps, usdc);
    NegativeSpreadExactly(amountIdr, rate, spreadBps, usdc);
    var p := Pow(10, rate.scale);
    MulMonotone(BPS - (BPS - spreadBps) * p * p, -1, amountIdr * USDC_UNIT);
  }

  /** At a positive scale that is every spread below 9900 bps. */
  lemma ScaledBelow9900(rate: Rate, spreadBps: int)
    requires 1 <= rate.scale && spreadBps < 9900
    ensures BPS < (BPS - spreadBps) * Pow(10, rate.scale) * Pow(10, rate.scale)
  {
    var t, p := BPS - spreadBps, Pow(10, rate.scale);
    PowMonotone(10, 1, rate.scale);
    assert Pow(10, 1) == 10;
    MulMonotone(10, p, t);
    MulMonotone(10, p, t * p);
  }
}
