/** Fixed-width integers of the source language and the small amount of
    non-linear arithmetic that several components share. */
module MachineInts {

  const TWO_62: int := 0x4000_0000_0000_0000
  const TWO_63: int := 0x8000_0000_0000_0000
  const TWO_64: int := 0x1_0000_0000_0000_0000

  predicate IsInt64(x: int) { -TWO_63 <= x < TWO_63 }

  /** The value a signed 64-bit register holds after computing `x`. */
  function Wrap64(x: int): (r: int)
    ensures IsInt64(r) && (x - r) % TWO_64 == 0
    ensures IsInt64(x) ==> r == x
  {
    (x + TWO_63) % TWO_64 - TWO_63
  }

  /** Wrapping at every step is wrapping once at the end. */
  lemma WrapAdd(x: int, y: int)
    ensures Wrap64(Wrap64(x) + y) == Wrap64(x + y)
  {
  }

  lemma WrapZero(x: int)
    ensures Wrap64(x) == 0 <==> x % TWO_64 == 0
  {
  }

  lemma WrapHigh(x: int)
    requires TWO_63 <= x < TWO_64
    ensures Wrap64(x) == x - TWO_64
  {
  }

  function Pow(base: nat, e: nat): (r: nat)
    ensures base > 0 ==> r > 0
  {
    if e == 0 then 1 else base * Pow(base, e - 1)
  }

  lemma {:induction false} PowAdd(base: nat, a: nat, b: nat)
    ensures Pow(base, a + b) == Pow(base, a) * Pow(base, b)
  {
    if a == 0 {
    } else {
      PowAdd(base, a - 1, b);
      MulAssoc(base, Pow(base, a - 1), Pow(base, b));
    }
  }

  lemma {:induction false} PowMonotone(base: nat, a: nat, b: nat)
    requires base > 0 && a <= b
    ensures Pow(base, a) <= Pow(base, b)
  {
    if a < b {
      PowMonotone(base, a, b - 1);
      MulMonotone(1, base, Pow(base, b - 1));
    }
  }

  lemma MulAssoc(a: int, b: int, c: int)
    ensures a * (b * c) == (a * b) * c
  {
  }

  lemma MulMonotone(a: int, b: int, c: int)
    requires a <= b && 0 <= c
    ensures a * c <= b * c && c * a <= c * b
  {
  }

  /** Cancelling a positive factor. */
  lemma MulCancel(a: int, b: int, c: int)
    requires 0 < c
    ensures a * c <= b * c ==> a <= b
    ensures a * c < b * c ==> a < b
  {
    if b < a { MulMonotone(b + 1, a, c); }
    if b <= a { MulMonotone(b, a, c); }
  }

  /** The quotient is the largest `q` with `q * d <= n`. */
  lemma QuotientBounds(n: int, d: int)
    requires 0 < d
    ensures (n / d) * d <= n < (n / d) * d + d
    ensures n == (n / d) * d + n % d
    ensures 0 <= n ==> 0 <= n / d
  {
    assert n == d * (n / d) + n % d;
    if 0 <= n && n / d < 0 { MulMonotone(n / d, -1, d); }
  }

  lemma QuotientUnique(n: int, d: int, q: int)
    requires 0 < d && q * d <= n < q * d + d
    ensures n / d == q
  {
    QuotientBounds(n, d);
    MulCancel(n / d, q + 1, d);
    MulCancel(q, n / d + 1, d);
  }

  /** `q <= n / d` exactly when `q * d <= n`. */
  lemma QuotientAtLeast(n: int, d: int, q: int)
    requires 0 < d
    ensures q <= n / d <==> q * d <= n
  {
    QuotientBounds(n, d);
    if q <= n / d { MulMonotone(q, n / d, d); }
    if q * d <= n { MulCancel(q, n / d + 1, d); }
  }
}
