/** Token amounts in payment URLs: the decimal text of a raw uint64 amount, and back. */
module Amount {
  import opened Decimal
  import opened MachineInts
  import opened Options
  import opened Texts

  type Uint8 = x: int | 0 <= x < 256
  type Uint64 = x: int | 0 <= x < TWO_64

  /** What pow10 returns: the power as a uint64 register holds it. */
  function Scale(decimals: Uint8): Uint64 {
    Pow(10, decimals) % TWO_64
  }

  method Pow10(n: Uint8) returns (r: Uint64)
    ensures r == Scale(n)
  {
    r := 1;
    var i := 0;
    while i < n
      invariant 0 <= i <= n && r == Pow(10, i) % TWO_64
    {
      TimesTen(Pow(10, i));
      r := r * 10 % TWO_64;
      i := i + 1;
    }
  }

  lemma TimesTen(x: nat)
    ensures x % TWO_64 * 10 % TWO_64 == 10 * x % TWO_64
  {
  }

  /** Drops trailing zeros. */
  function TrimZeros(s: string): string {
    if s != "" && s[|s| - 1] == '0' then TrimZeros(s[..|s| - 1]) else s
  }

  /** `%0*d`: at least `width` digits, padded with zeros on the left. */
  function Padded(n: nat, width: nat): (s: string)
    ensures s != "" && AllDigits(s)
  {
    var t := Digits(n);
    if |t| < width then Zeros(width - |t|) + t else t
  }

  function Printed(whole: nat, frac: nat, decimals: Uint8): string {
    if frac == 0 then Digits(whole) else Digits(whole) + "." + TrimZeros(Padded(frac, decimals))
  }

  /** None is the division by zero. */
  function FormatAmount(raw: Uint64, decimals: Uint8): Option<string> {
    if decimals == 0 then Some(Digits(raw))
    else
      var divisor := Scale(decimals);
      if divisor == 0 then None else Some(Printed(raw / divisor, raw % divisor, decimals))
  }

  datatype AmountError = EmptyAmount | Exponential | BadWhole | AmountOverflow | FractionTooLong | BadFraction

  function WholePart(s: string): string {
    match IndexOf(s, '.') case None => s case Some(k) => s[..k]
  }

  function FractionPart(s: string): Option<string> {
    match IndexOf(s, '.') case None => None case Some(k) => Some(s[k + 1..])
  }

  /** The fraction, padded on the right to `decimals` digits, as a count of smallest units. */
  function FractionUnits(frac: Option<string>, decimals: Uint8): Result<nat, AmountError> {
    match frac
    case None => Ok(0)
    case Some(f) =>
      if |f| > decimals then Err(FractionTooLong)
      else match ParseUint(f + Zeros(decimals - |f|)) case None => Err(BadFraction) case Some(n) => Ok(n)
  }

  /** The checked multiplication of the whole part. */
  function Scaled(whole: nat, multiplier: Uint64): Option<Uint64> {
    if multiplier > 0 && whole > (TWO_64 - 1) / multiplier then None else Some(whole * multiplier % TWO_64)
  }

  function Assemble(whole: nat, units: Result<nat, AmountError>, multiplier: Uint64): Result<Uint64, AmountError> {
    match Scaled(whole, multiplier)
    case None => Err(AmountOverflow)
    case Some(base) => match units case Err(e) => Err(e) case Ok(n) => Ok((base + n) % TWO_64)
  }

  function ParsedParts(whole: string, frac: Option<string>, decimals: Uint8): Result<Uint64, AmountError> {
    match ParseUint(whole)
    case None => Err(BadWhole)
    case Some(n) => Assemble(n, FractionUnits(frac, decimals), Scale(decimals))
  }

  function Parsed(s: string, decimals: Uint8): Result<Uint64, AmountError> {
    if s == "" then Err(EmptyAmount)
    else if 'e' in s || 'E' in s then Err(Exponential)
    else ParsedParts(WholePart(s), FractionPart(s), decimals)
  }

  method PadRight(frac: string, width: nat) returns (r: string)
    requires |frac| <= width
    ensures r == frac + Zeros(width - |frac|)
  {
    r := frac;
    while |r| < width
      invariant |frac| <= |r| <= width && r == frac + Zeros(|r| - |frac|)
    {
      r := r + "0";
    }
  }

  method ParseAmount(s: string, decimals: Uint8) returns (r: Result<Uint64, AmountError>)
    ensures r == Parsed(s, decimals)
  {
    if s == "" { return Err(EmptyAmount); }
    if 'e' in s || 'E' in s { return Err(Exponential); }
    var whole := ParseUint(WholePart(s));
    if whole.None? { return Err(BadWhole); }
    var multiplier := Pow10(decimals);
    var base := Scaled(whole.value, multiplier);
    if base.None? { return Err(AmountOverflow); }
    var result: Uint64 := base.value;
    var part := FractionPart(s);
    if part.Some? {
      var frac := part.value;
      if |frac| > decimals { return Err(FractionTooLong); }
      frac := PadRight(frac, decimals);
      var f := ParseUint(frac);
      if f.None? { return Err(BadFraction); }
      result := (result + f.value) % TWO_64;
    }
    return Ok(result);
  }

  // ---- Which texts parse ----

  predicate GoodWhole(w: string) { w != "" && AllDigits(w) && Value(w) < TWO_64 }

  predicate GoodFraction(f: string, decimals: Uint8) {
    0 < decimals && |f| <= decimals && AllDigits(f) && Value(f) * Pow(10, decimals - |f|) < TWO_64
  }

  lemma FractionParses(f: string, decimals: Uint8)
    requires |f| <= decimals
    ensures ParseUint(f + Zeros(decimals - |f|)).Some? <==> GoodFraction(f, decimals)
  {
    var p := f + Zeros(decimals - |f|);
    if AllDigits(p) { PrefixIsDigits(f, Zeros(decimals - |f|)); }
    if AllDigits(f) { ValuePadRight(f, decimals - |f|); }
    assert |p| == decimals;
  }

  lemma CheckedProduct(whole: nat, m: Uint64)
    ensures Scaled(whole, m).Some? <==> m == 0 || whole * m < TWO_64
  {
    if m > 0 { QuotientAtLeast(TWO_64 - 1, m, whole); }
  }

  lemma PlainText(s: string)
    requires AllDigits(WholePart(s)) && (FractionPart(s).Some? ==> AllDigits(FractionPart(s).value))
    ensures 'e' !in s && 'E' !in s
  {
    Rejoined(s);
    var t := WholePart(s) + if FractionPart(s).Some? then "." + FractionPart(s).value else "";
    assert forall i :: 0 <= i < |t| ==> t[i] == '.' || IsDigit(t[i]);
  }

  /** A text parses exactly when it is digits, or digits, a point and at most `decimals` more digits
      (none at all without decimals), and neither part leaves a uint64 on its own. */
  lemma ParsesExactly(s: string, decimals: Uint8)
    ensures Parsed(s, decimals).Ok? <==>
            && GoodWhole(WholePart(s))
            && (Scale(decimals) == 0 || Value(WholePart(s)) * Scale(decimals) < TWO_64)
            && (FractionPart(s).Some? ==> GoodFraction(FractionPart(s).value, decimals))
  {
    var w, f := WholePart(s), FractionPart(s);
    if f.Some? && |f.value| <= decimals { FractionParses(f.value, decimals); }
    if GoodWhole(w) {
      CheckedProduct(Value(w), Scale(decimals));
      if f.Some? ==> AllDigits(f.value) { PlainText(s); }
    }
  }

  /** Otherwise the error names the first thing wrong, in the order of the checks. */
  lemma ParseErrorExactly(s: string, decimals: Uint8)
    requires Parsed(s, decimals).Err?
    ensures var e, w, f := Parsed(s, decimals).error, WholePart(s), FractionPart(s);
            var plain := s != "" && 'e' !in s && 'E' !in s;
            var fits := Scale(decimals) == 0 || (GoodWhole(w) && Value(w) * Scale(decimals) < TWO_64);
            && (e == EmptyAmount <==> s == "")
            && (e == Exponential <==> s != "" && !plain)
            && (e == BadWhole <==> plain && !GoodWhole(w))
            && (e == AmountOverflow <==> plain && GoodWhole(w) && !fits)
            && (e == FractionTooLong <==> plain && GoodWhole(w) && fits && f.Some? && |f.value| > decimals)
            && (e == BadFraction <==> plain && GoodWhole(w) && fits && f.Some? && |f.value| <= decimals)
  {
    var w, f := WholePart(s), FractionPart(s);
    if f.Some? && |f.value| <= decimals { FractionParses(f.value, decimals); }
    if GoodWhole(w) { CheckedProduct(Value(w), Scale(decimals)); }
  }

  // ---- When the scale survives the register ----

  lemma {:induction false} TenIsTwoTimesFive(d: nat)
    ensures Pow(10, d) == Pow(2, d) * Pow(5, d)
  {
    if d > 0 {
      TenIsTwoTimesFive(d - 1);
      var a, b := Pow(2, d - 1), Pow(5, d - 1);
      assert 10 * (a * b) == (2 * a) * (5 * b);
    }
  }

  lemma {:induction false} FiveIsOdd(d: nat)
    ensures Pow(5, d) % 2 == 1
  {
    if d > 0 { FiveIsOdd(d - 1); }
  }

  lemma TwoTo64()
    ensures Pow(2, 64) == TWO_64
  {
    assert Pow(2, 8) == 256;
    PowAdd(2, 8, 8);
    assert Pow(2, 16) == 65536;
    PowAdd(2, 16, 16);
    assert Pow(2, 32) == 4294967296;
    PowAdd(2, 32, 32);
  }

  /** The register holds zero exactly from 10^64 on. */
  lemma ScaleIsZeroExactly(d: Uint8)
    ensures Scale(d) == 0 <==> 64 <= d
  {
    TwoTo64();
    TenIsTwoTimesFive(d);
    if 64 <= d {
      PowAdd(2, 64, d - 64);
      Multiple(TWO_64, Pow(2, d - 64), Pow(5, d));
    } else if Scale(d) == 0 {
      ZeroScaleIsEven(d);
      FiveIsOdd(d);
    }
  }

  lemma Multiple(m: int, a: int, b: int)
    requires 0 < m
    ensures m * a * b % m == 0
  {
    assert m * a * b == m * (a * b) + 0;
    QuotientUnique(m * (a * b), m, a * b);
    QuotientBounds(m * (a * b), m);
  }

  lemma ZeroScaleIsEven(d: Uint8)
    requires d < 64 && Scale(d) == 0
    ensures Pow(5, d) % 2 == 0
  {
    TwoTo64();
    TenIsTwoTimesFive(d);
    var q, low, high := Pow(10, d) / TWO_64, Pow(2, d), Pow(2, 63 - d);
    QuotientBounds(Pow(10, d), TWO_64);
    PowAdd(2, d, 64 - d);
    EvenFactor(low, Pow(5, d), high, q);
  }

  lemma EvenFactor(low: nat, five: nat, high: nat, q: nat)
    requires 0 < low && low * five == q * (low * (2 * high))
    ensures five % 2 == 0
  {
    assert q * (low * (2 * high)) == low * (2 * (q * high));
    Cancel(low, five, 2 * (q * high));
  }

  lemma Cancel(c: int, a: int, b: int)
    requires 0 < c && c * a == c * b
    ensures a == b
  {
    MulCancel(a, b, c);
    MulCancel(b, a, c);
  }

  lemma SmallScaleIsExact(d: Uint8)
    ensures Scale(d) == Pow(10, d) <==> d <= 19
  {
    assert Pow(10, 10) == 10_000_000_000;
    PowAdd(10, 10, 9);
    assert Pow(10, 9) == 1_000_000_000;
    PowAdd(10, 10, 10);
    if d <= 19 { PowMonotone(10, d, 19); } else { PowMonotone(10, 20, d); }
  }

  // ---- Padding and trimming ----

  lemma {:induction false} TrimZerosUndone(s: string)
    ensures |TrimZeros(s)| <= |s| && s == TrimZeros(s) + Zeros(|s| - |TrimZeros(s)|)
    ensures TrimZeros(s) != "" ==> TrimZeros(s)[|TrimZeros(s)| - 1] != '0'
  {
    if s != "" && s[|s| - 1] == '0' { TrimZerosUndone(s[..|s| - 1]); }
  }

  lemma {:induction false} TrimPadded(s: string, k: nat)
    requires s != "" ==> s[|s| - 1] != '0'
    ensures TrimZeros(s + Zeros(k)) == s
  {
    if k == 0 {
      assert s + Zeros(0) == s;
    } else {
      TrimPadded(s, k - 1);
      assert (s + Zeros(k))[..|s| + k - 1] == s + Zeros(k - 1);
    }
  }

  lemma PaddedValue(n: nat, width: nat)
    ensures Value(Padded(n, width)) == n
    ensures 1 <= width && n < Pow(10, width) ==> |Padded(n, width)| == width
  {
    ValueOfDigits(n);
    var t := Digits(n);
    if |t| < width { ValuePadLeft(width - |t|, t); }
    if 1 <= width && n < Pow(10, width) { DigitsWidth(n, width); }
  }

  lemma {:induction false} SameWidthSameValue(a: string, b: string)
    requires AllDigits(a) && AllDigits(b) && |a| == |b| && Value(a) == Value(b)
    ensures a == b
  {
    if a != "" {
      var n := |a| - 1;
      SameWidthSameValue(a[..n], b[..n]);
      assert a == a[..n] + [a[n]] && b == b[..n] + [b[n]];
    }
  }

  // ---- Round trip ----

  lemma AssembleFits(whole: nat, units: nat, m: Uint64)
    requires 0 < m && whole * m + units < TWO_64
    ensures Assemble(whole, Ok(units), m) == Ok(whole * m + units)
  {
    QuotientAtLeast(TWO_64 - 1, m, whole);
    MulMonotone(0, whole, m);
    SmallSum(whole * m, units);
  }

  lemma SmallSum(a: nat, b: nat)
    requires a + b < TWO_64
    ensures (a % TWO_64 + b) % TWO_64 == a + b
  {
  }

  /** The fraction FormatAmount prints reads back as the same count of units. */
  lemma FractionBack(frac: nat, decimals: Uint8)
    requires 1 <= decimals && 0 < frac < Pow(10, decimals) && frac < TWO_64
    ensures var f := TrimZeros(Padded(frac, decimals));
            && f != "" && AllDigits(f) && f[|f| - 1] != '0'
            && |f| <= decimals && FractionUnits(Some(f), decimals) == Ok(frac)
  {
    var p := Padded(frac, decimals);
    PaddedValue(frac, decimals);
    TrimZerosUndone(p);
    var f := TrimZeros(p);
    assert f == p[..|f|];
    if f == "" { ValuePadRight("", |p|); }
  }

  /** `s` reads as `whole` and `units`, before the two are assembled. */
  predicate Reads(s: string, decimals: Uint8, whole: nat, units: nat) {
    && s != "" && 'e' !in s && 'E' !in s
    && ParseUint(WholePart(s)) == Some(whole)
    && FractionUnits(FractionPart(s), decimals) == Ok(units)
  }

  lemma ReadsParsed(s: string, decimals: Uint8, whole: nat, units: nat)
    requires Reads(s, decimals, whole, units)
    ensures Parsed(s, decimals) == Assemble(whole, Ok(units), Scale(decimals))
  {
  }

  lemma ParsedReads(s: string, decimals: Uint8) returns (whole: nat, units: nat)
    requires Parsed(s, decimals).Ok?
    ensures Reads(s, decimals, whole, units) && Parsed(s, decimals) == Assemble(whole, Ok(units), Scale(decimals))
  {
    whole := ParseUint(WholePart(s)).value;
    units := FractionUnits(FractionPart(s), decimals).value;
  }

  lemma WithFraction(whole: string, frac: string)
    requires AllDigits(whole) && AllDigits(frac)
    ensures var s := whole + "." + frac;
            WholePart(s) == whole && FractionPart(s) == Some(frac) && 'e' !in s && 'E' !in s
  {
    var s := whole + "." + frac;
    FirstIsUnique(whole, '.', frac);
    assert forall i :: 0 <= i < |s| ==> s[i] == '.' || IsDigit(s[i]);
  }

  lemma PrintedReads(whole: Uint64, frac: Uint64, decimals: Uint8)
    requires frac < Pow(10, decimals)
    ensures Reads(Printed(whole, frac, decimals), decimals, whole, frac)
  {
    ParseFormatUint(whole);
    if frac > 0 {
      FractionBack(frac, decimals);
      WithFraction(Digits(whole), TrimZeros(Padded(frac, decimals)));
    }
  }

  lemma RawSplits(raw: Uint64, m: Uint64)
    requires 0 < m
    ensures 0 <= raw / m < TWO_64 && 0 <= raw % m < m && raw / m * m + raw % m == raw
  {
    QuotientBounds(raw, m);
    MulMonotone(1, m, raw / m);
  }

  lemma ScaleBelow(decimals: Uint8)
    ensures Scale(decimals) <= Pow(10, decimals)
  {
  }

  /** Every uint64 survives printing and parsing, at every scale that can be printed at all. */
  lemma RoundTrip(raw: Uint64, decimals: Uint8)
    ensures FormatAmount(raw, decimals).Some? <==> decimals <= 63
    ensures decimals <= 63 ==> Parsed(FormatAmount(raw, decimals).value, decimals) == Ok(raw)
  {
    ScaleIsZeroExactly(decimals);
    if decimals <= 63 {
      RawSplits(raw, Scale(decimals));
      PrintedBack(raw, decimals, Scale(decimals), raw / Scale(decimals), raw % Scale(decimals));
    }
  }

  lemma PrintedBack(raw: Uint64, decimals: Uint8, m: Uint64, whole: Uint64, frac: Uint64)
    requires m == Scale(decimals) && 0 < m && whole == raw / m && frac == raw % m
    ensures FormatAmount(raw, decimals) == Some(Printed(whole, frac, decimals))
    ensures Reads(Printed(whole, frac, decimals), decimals, whole, frac)
    ensures Parsed(Printed(whole, frac, decimals), decimals) == Ok(raw)
  {
    FormatIsPrinted(raw, decimals, m, whole, frac);
    RawSplits(raw, m);
    ScaleBelow(decimals);
    PrintedReads(whole, frac, decimals);
    ReadBack(Printed(whole, frac, decimals), decimals, whole, frac, m, raw);
  }

  lemma FormatIsPrinted(raw: Uint64, decimals: Uint8, m: Uint64, whole: nat, frac: nat)
    requires m == Scale(decimals) && 0 < m && whole == raw / m && frac == raw % m
    ensures FormatAmount(raw, decimals) == Some(Printed(whole, frac, decimals))
  {
  }

  lemma ReadBack(t: string, decimals: Uint8, whole: nat, frac: nat, m: Uint64, raw: Uint64)
    requires Reads(t, decimals, whole, frac) && m == Scale(decimals) && 0 < m && whole * m + frac == raw
    ensures Parsed(t, decimals) == Ok(raw)
  {
    ReadsParsed(t, decimals, whole, frac);
    AssembleFits(whole, frac, m);
  }

  // ---- Meaning ----

  /** A decimal text `w.f` denotes Numerator / 10^FractionDigits. */
  predicate IsDecimal(s: string) {
    WholePart(s) != "" && AllDigits(WholePart(s)) && (FractionPart(s).Some? ==> AllDigits(FractionPart(s).value))
  }

  function FractionText(s: string): string {
    match FractionPart(s) case None => "" case Some(f) => f
  }

  function Numerator(s: string): int
    requires IsDecimal(s)
  {
    Value(WholePart(s)) * Pow(10, |FractionText(s)|) + Value(FractionText(s))
  }

  /** `s` denotes n / 10^decimals. */
  predicate Denotes(s: string, n: nat, decimals: nat)
    requires IsDecimal(s)
  {
    Numerator(s) * Pow(10, decimals) == n * Pow(10, |FractionText(s)|)
  }

  /** In units of 10^-decimals a text with no more fraction digits than that is a whole number. */
  function Units(s: string, decimals: nat): int
    requires IsDecimal(s) && |FractionText(s)| <= decimals
  {
    Value(WholePart(s)) * Pow(10, decimals) + Value(FractionText(s)) * Pow(10, decimals - |FractionText(s)|)
  }

  lemma UnitsDenoted(s: string, decimals: nat, n: nat)
    requires IsDecimal(s) && |FractionText(s)| <= decimals
    ensures Denotes(s, n, decimals) <==> n == Units(s, decimals)
  {
    var k := |FractionText(s)|;
    PowAdd(10, k, decimals - k);
    CommonDenominator(Value(WholePart(s)), Value(FractionText(s)), Pow(10, k), Pow(10, decimals - k), n);
  }

  lemma CommonDenominator(w: nat, f: nat, p: nat, q: nat, n: nat)
    requires 0 < p
    ensures (w * p + f) * (p * q) == n * p <==> n == w * (p * q) + f * q
  {
    var units := w * (p * q) + f * q;
    calc {
      (w * p + f) * (p * q);
      w * p * (p * q) + f * (p * q);
      { MulAssoc(w, p, p * q); MulAssoc(f, p, q); }
      w * (p * (p * q)) + f * p * q;
      { assert w * (p * (p * q)) == p * (w * (p * q)); assert f * p * q == p * (f * q); }
      p * units;
    }
    if p * units == n * p { Cancel(p, n, units); }
  }

  /** A successful parse is the exact value modulo 2^64, so it is exact if and only if the exact
      value fits a uint64: the last addition is unchecked, and nothing else wraps. */
  lemma ParseIsExactModulo(s: string, decimals: Uint8)
    requires Parsed(s, decimals).Ok?
    ensures IsDecimal(s) && |FractionText(s)| <= decimals
    ensures Parsed(s, decimals).value == Units(s, decimals) % TWO_64
    ensures Denotes(s, Parsed(s, decimals).value, decimals) <==> Units(s, decimals) < TWO_64
  {
    var whole, units := ParsedReads(s, decimals);
    ReadUnits(s, decimals, whole, units);
    AssembleModulo(whole, Ok(units), Pow(10, decimals));
    var value := Parsed(s, decimals).value;
    UnitsDenoted(s, decimals, value);
    OwnRemainder(Units(s, decimals), value);
  }

  lemma OwnRemainder(n: nat, r: nat)
    requires r == n % TWO_64
    ensures r == n <==> n < TWO_64
  {
  }

  lemma ReadUnits(s: string, decimals: Uint8, whole: nat, units: nat)
    requires Reads(s, decimals, whole, units)
    ensures IsDecimal(s) && |FractionText(s)| <= decimals
    ensures 0 <= Units(s, decimals) == whole * Pow(10, decimals) + units
  {
    FractionRead(FractionPart(s), decimals);
    MulMonotone(0, whole, Pow(10, decimals));
  }

  lemma FractionRead(frac: Option<string>, decimals: Uint8)
    requires FractionUnits(frac, decimals).Ok?
    ensures var f := if frac.None? then "" else frac.value;
            && AllDigits(f) && |f| <= decimals
            && FractionUnits(frac, decimals).value == Value(f) * Pow(10, decimals - |f|)
  {
    if frac.Some? {
      var k := decimals - |frac.value|;
      PrefixIsDigits(frac.value, Zeros(k));
      ValuePadRight(frac.value, k);
    }
  }

  lemma AssembleModulo(whole: nat, units: Result<nat, AmountError>, power: nat)
    requires Assemble(whole, units, power % TWO_64).Ok?
    ensures units.Ok? && Assemble(whole, units, power % TWO_64).value == (whole * power + units.value) % TWO_64
  {
    SumModulo(whole, power, units.value);
  }

  lemma PrefixIsDigits(a: string, b: string)
    requires AllDigits(a + b)
    ensures AllDigits(a)
  {
    assert forall i :: 0 <= i < |a| ==> (a + b)[i] == a[i];
  }

  lemma SumModulo(a: nat, b: nat, c: nat)
    ensures (a * (b % TWO_64) % TWO_64 + c) % TWO_64 == (a * b + c) % TWO_64
  {
    ScaledModulo(a, b);
    AddModulo(a * b, c);
  }

  lemma AddModulo(x: nat, c: nat)
    ensures (x % TWO_64 + c) % TWO_64 == (x + c) % TWO_64
  {
  }

  lemma ScaledModulo(a: nat, b: nat)
    ensures a * (b % TWO_64) % TWO_64 == a * b % TWO_64
  {
    var q := b / TWO_64;
    assert b == q * TWO_64 + b % TWO_64;
    assert a * b == a * (b % TWO_64) + (a * q) * TWO_64;
    AddMultiple(a * (b % TWO_64), a * q);
  }

  lemma AddMultiple(x: int, k: int)
    ensures (x + k * TWO_64) % TWO_64 == x % TWO_64
  {
  }

  /** The wrap is reachable: 1.9 units of 10^19 are more than a uint64 holds. */
  lemma WrapWitness()
    ensures Parsed("1.9", 19) == Ok(19_000_000_000_000_000_000 - TWO_64)
  {
    SmallScaleIsExact(19);
    BigPowers();
    assert "9"[..0] == "" && Value("9") == 9;
    ValuePadRight("9", 18);
    assert Digits(1) == "1";
    ParseFormatUint(1);
    WithFraction("1", "9");
    assert "1.9" == "1" + "." + "9";
  }

  lemma BigPowers()
    ensures Pow(10, 18) == 1_000_000_000_000_000_000 && Pow(10, 19) == 10_000_000_000_000_000_000
  {
    assert Pow(10, 9) == 1_000_000_000;
    PowAdd(10, 9, 9);
  }

  /** What FormatAmount prints denotes raw / 10^decimals exactly when 10^decimals fits the register,
      or raw is below what is left of it. */
  lemma FormatDenotesExactly(raw: Uint64, decimals: Uint8)
    requires decimals <= 63
    ensures FormatAmount(raw, decimals).Some? && IsDecimal(FormatAmount(raw, decimals).value)
    ensures Denotes(FormatAmount(raw, decimals).value, raw, decimals) <==> decimals <= 19 || raw < Scale(decimals)
  {
    var m := Scale(decimals);
    ScaleIsZeroExactly(decimals);
    SmallScaleIsExact(decimals);
    RawSplits(raw, m);
    var whole: Uint64, frac: Uint64 := raw / m, raw % m;
    PrintedBack(raw, decimals, m, whole, frac);
    var s := Printed(whole, frac, decimals);
    ReadUnits(s, decimals, whole, frac);
    UnitsDenoted(s, decimals, raw);
    SameMultiple(whole, Pow(10, decimals), m);
    SmallQuotient(raw, m);
  }

  lemma SameMultiple(a: nat, b: nat, c: nat)
    ensures a * b == a * c <==> a == 0 || b == c
  {
    if a > 0 && a * b == a * c { Cancel(a, b, c); }
  }

  lemma SmallQuotient(n: nat, d: nat)
    requires 0 < d
    ensures n / d == 0 <==> n < d
  {
    QuotientBounds(n, d);
    if n < d { QuotientUnique(n, d, 0); }
  }

  // ---- Back again ----

  /** The form FormatAmount prints: no leading zeros, no trailing zeros after the point. */
  predicate Canonical(s: string) {
    && IsDecimal(s)
    && (WholePart(s) == "0" || WholePart(s)[0] != '0')
    && (FractionPart(s).Some? ==> FractionText(s) != "" && FractionText(s)[|FractionText(s)| - 1] != '0')
  }

  lemma {:induction false} DigitsOfValue(s: string)
    requires s != "" && AllDigits(s) && (s == "0" || s[0] != '0')
    ensures Digits(Value(s)) == s
    ensures s != "0" ==> 0 < Value(s)
  {
    var n := |s| - 1;
    if n == 0 {
      assert s[..0] == "" && s == [s[0]];
    } else {
      DigitsOfValue(s[..n]);
      assert s == s[..n] + [s[n]];
    }
  }

  /** Parsing inverts printing the other way too: a canonical text that parses, reading as `whole` and
      `units`, is printed back unchanged exactly when its fraction is below the scale the register
      holds and nothing wraps. */
  lemma PrintParsedExactly(s: string, decimals: Uint8, whole: nat, units: nat)
    requires Canonical(s) && Reads(s, decimals, whole, units) && Parsed(s, decimals).Ok?
    ensures FormatAmount(Parsed(s, decimals).value, decimals) == Some(s) <==>
            units < Scale(decimals) && whole * Scale(decimals) + units < TWO_64
  {
    ReadsParsed(s, decimals, whole, units);
    CanonicalPrinted(s, decimals, whole, units);
    PrintAssembledExactly(s, decimals, whole, units, Scale(decimals));
  }

  lemma PrintAssembledExactly(s: string, decimals: Uint8, whole: nat, units: nat, m: Uint64)
    requires m == Scale(decimals) && Reads(s, decimals, whole, units) && Printed(whole, units, decimals) == s
    requires Assemble(whole, Ok(units), m).Ok?
    ensures FormatAmount(Assemble(whole, Ok(units), m).value, decimals) == Some(s) <==>
              units < m && whole * m + units < TWO_64
  {
    var v := Assemble(whole, Ok(units), m).value;
    if units < m && whole * m + units < TWO_64 { UnwrappedPrinted(whole, units, decimals, m, s); }
    if FormatAmount(v, decimals) == Some(s) { PrintedWhenUnwrapped(s, decimals, whole, units, v); }
  }

  lemma UnwrappedPrinted(whole: nat, units: nat, decimals: Uint8, m: Uint64, s: string)
    requires m == Scale(decimals) && units < m && whole * m + units < TWO_64 && Printed(whole, units, decimals) == s
    ensures Assemble(whole, Ok(units), m).Ok?
    ensures FormatAmount(Assemble(whole, Ok(units), m).value, decimals) == Some(s)
  {
    AssembleFits(whole, units, m);
    MulMonotone(0, whole, m);
    Divided(whole, m, units);
    FormatIsPrinted(whole * m + units, decimals, m, whole, units);
  }

  lemma PrintedWhenUnwrapped(s: string, decimals: Uint8, whole: nat, units: nat, v: Uint64)
    requires Reads(s, decimals, whole, units) && FormatAmount(v, decimals) == Some(s)
    ensures units < Scale(decimals) && whole * Scale(decimals) + units < TWO_64
  {
    var m := Scale(decimals);
    assert 0 < m by { ScaleIsZeroExactly(decimals); }
    RawSplits(v, m);
    PrintedBack(v, decimals, m, v / m, v % m);
  }

  /** Up to 19 decimals that is every canonical text read without wrapping. */
  lemma PrintParsed(s: string, decimals: Uint8)
    requires Canonical(s) && decimals <= 19 && Parsed(s, decimals).Ok?
    ensures |FractionText(s)| <= decimals
    ensures FormatAmount(Parsed(s, decimals).value, decimals) == Some(s) <==> Units(s, decimals) < TWO_64
  {
    var whole, units := ParsedReads(s, decimals);
    PrintParsedExactly(s, decimals, whole, units);
    SmallScaleIsExact(decimals);
    ReadUnits(s, decimals, whole, units);
    ReadBelow(s, decimals, whole, units);
  }

  lemma ReadBelow(s: string, decimals: Uint8, whole: nat, units: nat)
    requires Reads(s, decimals, whole, units)
    ensures units < Pow(10, decimals)
  {
    if FractionPart(s).Some? {
      var f := FractionPart(s).value;
      ValueBelowPower(f + Zeros(decimals - |f|));
    }
  }

  lemma CanonicalPrinted(s: string, decimals: Uint8, whole: nat, units: nat)
    requires Canonical(s) && Reads(s, decimals, whole, units)
    ensures Printed(whole, units, decimals) == s
  {
    Rejoined(s);
    PrintedForm(WholePart(s), FractionPart(s), decimals, whole, units);
  }

  lemma PrintedForm(w: string, frac: Option<string>, decimals: Uint8, whole: nat, units: nat)
    requires w != "" && AllDigits(w) && (w == "0" || w[0] != '0') && Value(w) == whole
    requires frac.Some? ==> AllDigits(frac.value) && frac.value != "" && frac.value[|frac.value| - 1] != '0'
    requires FractionUnits(frac, decimals) == Ok(units)
    ensures Printed(whole, units, decimals) == w + if frac.Some? then "." + frac.value else ""
  {
    DigitsOfValue(w);
    if frac.Some? {
      CanonicalFraction(frac.value, decimals, units);
      PrintedBoth(w, frac.value, decimals, whole, units);
    }
  }

  lemma PrintedBoth(w: string, f: string, decimals: Uint8, whole: nat, units: nat)
    requires Digits(whole) == w && 0 < units && TrimZeros(Padded(units, decimals)) == f
    ensures Printed(whole, units, decimals) == w + ("." + f)
  {
    assert w + "." + f == w + ("." + f);
  }

  lemma Rejoined(s: string)
    ensures s == WholePart(s) + if FractionPart(s).Some? then "." + FractionPart(s).value else ""
  {
  }

  lemma CanonicalFraction(f: string, decimals: Uint8, units: nat)
    requires AllDigits(f) && f != "" && f[|f| - 1] != '0' && FractionUnits(Some(f), decimals) == Ok(units)
    ensures 0 < units && TrimZeros(Padded(units, decimals)) == f
  {
    var k := decimals - |f|;
    FractionRead(Some(f), decimals);
    NonZeroFraction(f, k);
    PrintedFraction(f, k, units);
  }

  lemma Divided(q: nat, d: nat, r: nat)
    requires r < d
    ensures (q * d + r) / d == q && (q * d + r) % d == r
  {
    QuotientUnique(q * d + r, d, q);
    QuotientBounds(q * d + r, d);
  }

  lemma PaddedIs(p: string, n: nat)
    requires AllDigits(p) && p != "" && Value(p) == n
    ensures Padded(n, |p|) == p
  {
    ValueBelowPower(p);
    PaddedValue(n, |p|);
    SameWidthSameValue(p, Padded(n, |p|));
  }

  lemma PrintedFraction(f: string, k: nat, n: nat)
    requires AllDigits(f) && f != "" && f[|f| - 1] != '0' && n == Value(f + Zeros(k))
    ensures TrimZeros(Padded(n, |f| + k)) == f
  {
    assert |f + Zeros(k)| == |f| + k;
    PaddedIs(f + Zeros(k), n);
    TrimPadded(f, k);
  }

  lemma NonZeroFraction(f: string, k: nat)
    requires AllDigits(f) && f != "" && f[|f| - 1] != '0'
    ensures 0 < Value(f) * Pow(10, k)
  {
    MulMonotone(1, Pow(10, k), Value(f));
  }
}
