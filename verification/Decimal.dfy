/** Base-10 text: strconv.FormatUint/FormatInt and ParseUint/ParseInt with bit size 64. */
module Decimal {
  import opened MachineInts
  import opened Options

  predicate IsDigit(c: char) { '0' <= c <= '9' }

  predicate AllDigits(s: string) {
    forall i :: 0 <= i < |s| ==> IsDigit(s[i])
  }

  function DigitChar(d: nat): (c: char)
    requires d < 10
    ensures IsDigit(c) && DigitValue(c) == d
  {
    ('0' as int + d) as char
  }

  function DigitValue(c: char): (d: nat)
    requires IsDigit(c)
    ensures d < 10
  {
    c as int - '0' as int
  }

  /** The number a run of digits denotes. */
  function Value(s: string): nat
    requires AllDigits(s)
  {
    if s == "" then 0 else Value(s[..|s| - 1]) * 10 + DigitValue(s[|s| - 1])
  }

  /** FormatUint: no leading zeros, "0" for zero. */
  function Digits(n: nat): (s: string)
    ensures s != "" && AllDigits(s)
  {
    if n < 10 then [DigitChar(n)] else Digits(n / 10) + [DigitChar(n % 10)]
  }

  function Zeros(k: nat): (s: string)
    ensures |s| == k && AllDigits(s) && forall i :: 0 <= i < k ==> s[i] == '0'
  {
    seq(k, _ => '0')
  }

  lemma ValueSnoc(s: string, c: char)
    requires AllDigits(s) && IsDigit(c)
    ensures AllDigits(s + [c]) && Value(s + [c]) == Value(s) * 10 + DigitValue(c)
  {
    assert (s + [c])[..|s|] == s;
  }

  lemma {:induction false} ValueOfDigits(n: nat)
    ensures Value(Digits(n)) == n
  {
    if n < 10 {
      assert [DigitChar(n)][..0] == "";
    } else {
      ValueOfDigits(n / 10);
      ValueSnoc(Digits(n / 10), DigitChar(n % 10));
    }
  }

  /** Printing is injective. */
  lemma DigitsInjective(a: nat, b: nat)
    requires Digits(a) == Digits(b)
    ensures a == b
  {
    ValueOfDigits(a);
    ValueOfDigits(b);
  }

  lemma {:induction false} DigitsWidth(n: nat, k: nat)
    requires 1 <= k && n < Pow(10, k)
    ensures |Digits(n)| <= k
  {
    if n >= 10 {
      assert k > 1;
      DigitsWidth(n / 10, k - 1);
    }
  }

  lemma {:induction false} ValuePadRight(s: string, k: nat)
    requires AllDigits(s)
    ensures AllDigits(s + Zeros(k)) && Value(s + Zeros(k)) == Value(s) * Pow(10, k)
  {
    if k == 0 {
      assert s + Zeros(0) == s;
    } else {
      ValuePadRight(s, k - 1);
      assert s + Zeros(k) == (s + Zeros(k - 1)) + ['0'];
      ValueSnoc(s + Zeros(k - 1), '0');
      assert (Value(s) * Pow(10, k - 1)) * 10 == Value(s) * (10 * Pow(10, k - 1));
    }
  }

  lemma {:induction false} ValuePadLeft(k: nat, s: string)
    requires AllDigits(s)
    ensures AllDigits(Zeros(k) + s) && Value(Zeros(k) + s) == Value(s)
  {
    if s == "" {
      assert Zeros(k) + s == "" + Zeros(k);
      ValuePadRight("", k);
    } else {
      var rest, c := s[..|s| - 1], s[|s| - 1];
      ValuePadLeft(k, rest);
      assert Zeros(k) + s == (Zeros(k) + rest) + [c];
      ValueSnoc(Zeros(k) + rest, c);
    }
  }

  lemma {:induction false} ValueBelowPower(s: string)
    requires AllDigits(s)
    ensures Value(s) < Pow(10, |s|)
  {
    if s != "" { ValueBelowPower(s[..|s| - 1]); }
  }

  function ParseUint(s: string): Option<nat> {
    if s != "" && AllDigits(s) && Value(s) < TWO_64 then Some(Value(s)) else None
  }

  function FormatInt(n: int): (s: string)
    ensures s != ""
    ensures forall i :: 0 <= i < |s| ==> IsDigit(s[i]) || s[i] == '-'
  {
    if n < 0 then "-" + Digits(-n) else Digits(n)
  }

  /** An optional sign, then digits; the value must fit an int64. */
  function ParseInt(s: string): Option<int> {
    if s == "" then None
    else
      var body := if s[0] == '-' || s[0] == '+' then s[1..] else s;
      if body == "" || !AllDigits(body) then None
      else
        var v: int := if s[0] == '-' then 0 - Value(body) else Value(body);
        if IsInt64(v) then Some(v) else None
  }

  lemma ParseFormatInt(n: int)
    requires IsInt64(n)
    ensures ParseInt(FormatInt(n)) == Some(n)
  {
    if n < 0 {
      ValueOfDigits(-n);
      assert ("-" + Digits(-n))[1..] == Digits(-n);
    } else {
      ValueOfDigits(n);
      assert IsDigit(Digits(n)[0]);
    }
  }

  lemma ParseFormatUint(n: nat)
    requires n < TWO_64
    ensures ParseUint(Digits(n)) == Some(n)
  {
    ValueOfDigits(n);
  }

  /** What ParseInt takes: digits with or without a sign, within int64, leading zeros and all. */
  lemma ParseIntOfDigits(d: string)
    requires d != "" && AllDigits(d)
    ensures ParseInt(d) == ParseInt("+" + d) == if Value(d) < 0x8000_0000_0000_0000 then Some(Value(d) as int) else None
    ensures ParseInt("-" + d) == if Value(d) <= 0x8000_0000_0000_0000 then Some(0 - Value(d)) else None
  {
    assert ("+" + d)[1..] == d && ("-" + d)[1..] == d;
    assert IsDigit(d[0]);
  }

  /** ... and nothing else. */
  lemma ParseIntOnlyDigits(s: string)
    requires ParseInt(s).Some?
    ensures exists d :: d != "" && AllDigits(d) && (s == d || s == "+" + d || s == "-" + d)
  {
    var d := if s[0] == '-' || s[0] == '+' then s[1..] else s;
    assert s == [s[0]] + s[1..];
  }
}
