/** Amounts of money as integer cents, and the one rounding step the source
    applies at every boundary: `Number(x.toFixed(2))`. */
module Money {

  /** A finite JavaScript number. Every finite double is a dyadic rational and
      therefore a terminating decimal, so `mantissa / 10^exponent` covers them. */
  datatype Decimal = Decimal(mantissa: int, exponent: nat)

  /** What `Number.parseFloat` yields for an untrusted field: a finite number,
      or NaN / an infinity (which `Number.isFinite` rejects). */
  datatype NumberInput = Finite(value: Decimal) | NotFinite

  function Pow10(n: nat): (p: nat)
    ensures p >= 1
  {
    if n == 0 then 1 else 10 * Pow10(n - 1)
  }

  lemma {:induction false} Pow10Add(a: nat, b: nat)
    ensures Pow10(a + b) == Pow10(a) * Pow10(b)
  {
    if a > 0 {
      Pow10Add(a - 1, b);
      assert Pow10(a + b) == 10 * Pow10(a - 1 + b);
      MulAssoc(10, Pow10(a - 1), Pow10(b));
    }
  }

  function Abs(x: int): nat {
    if x < 0 then -x else x
  }

  /** The decimal `c / 100` for an amount of `c` cents. */
  function FromCents(c: int): Decimal {
    Decimal(c, 2)
  }

  /** Rounding to the nearest magnitude with ties away from zero, on the
      magnitude of a non-negative numerator over a positive divisor. */
  function RoundHalfUp(n: nat, d: nat): (q: nat)
    requires d >= 1
    ensures 2 * Abs(q * d - n) <= d
    ensures 2 * Abs(q * d - n) == d ==> q * d > n
  {
    var q0 := n / d;
    var r := n % d;
    DivMod(n, d);
    if 2 * r >= d then
      MulSucc(q0, d);
      q0 + 1
    else
      q0
  }

  lemma DivMod(n: nat, d: nat)
    requires d >= 1
    ensures n == (n / d) * d + n % d && 0 <= n % d < d
  {
  }

  lemma MulSucc(q: int, d: int)
    ensures (q + 1) * d == q * d + d
  {
  }

  /** `c` cents is a nearest whole number of cents to `x`, and on a tie the
      one farther from zero. */
  predicate NearestCents(c: int, x: Decimal) {
    && 2 * Abs(c * Pow10(x.exponent) - x.mantissa * 100) <= Pow10(x.exponent)
    && (2 * Abs(c * Pow10(x.exponent) - x.mantissa * 100) == Pow10(x.exponent)
        ==> Abs(c) * Pow10(x.exponent) > Abs(x.mantissa) * 100)
  }

  /** `Number(x.toFixed(2))` in cents: the nearest whole number of cents,
      ties rounded away from zero (toFixed works on the magnitude and
      re-attaches the sign). */
  function Round2(x: Decimal): (cents: int)
    ensures NearestCents(cents, x)
    ensures x.mantissa >= 0 ==> cents >= 0
    ensures x.mantissa <= 0 ==> cents <= 0
  {
    if x.exponent <= 2 then
      var k := Pow10(2 - x.exponent);
      ScaleUpIsExact(x, k);
      x.mantissa * k
    else
      var d := Pow10(x.exponent - 2);
      var mag := RoundHalfUp(Abs(x.mantissa), d);
      var cents := if x.mantissa < 0 then -(mag as int) else mag as int;
      ScaleDownIsNearest(x, d, mag, cents);
      cents
  }

  /** With at most two decimals, scaling to cents is exact. */
  lemma ScaleUpIsExact(x: Decimal, k: nat)
    requires x.exponent <= 2 && k == Pow10(2 - x.exponent)
    ensures NearestCents(x.mantissa * k, x)
    ensures x.mantissa >= 0 ==> x.mantissa * k >= 0
    ensures x.mantissa <= 0 ==> x.mantissa * k <= 0
  {
    var p := Pow10(x.exponent);
    Pow10Add(2 - x.exponent, x.exponent);
    assert Pow10(2) == 100;
    assert k * p == 100;
    MulAssoc(x.mantissa, k, p);
  }

  /** With more decimals, the rounded magnitude with the sign re-attached is
      a nearest number of cents. */
  lemma ScaleDownIsNearest(x: Decimal, d: nat, mag: nat, cents: int)
    requires x.exponent > 2 && d == Pow10(x.exponent - 2)
    requires mag == RoundHalfUp(Abs(x.mantissa), d)
    requires cents == if x.mantissa < 0 then -(mag as int) else mag as int
    ensures NearestCents(cents, x)
  {
    Pow10Add(x.exponent - 2, 2);
    assert Pow10(2) == 100;
    assert Pow10(x.exponent) == d * 100;
    SignedBound(x.mantissa, d, mag, cents);
  }

  lemma MulAssoc(a: int, b: int, c: int)
    ensures (a * b) * c == a * (b * c)
  {
  }

  /** Re-attaching the sign keeps the rounding error and the tie rule of the
      magnitude, scaled by the divisor `d * 100`. */
  lemma SignedBound(m: int, d: nat, mag: nat, cents: int)
    requires d >= 1
    requires 2 * Abs(mag * d - Abs(m)) <= d
    requires 2 * Abs(mag * d - Abs(m)) == d ==> mag * d > Abs(m)
    requires cents == if m < 0 then -(mag as int) else mag as int
    ensures 2 * Abs(cents * (d * 100) - m * 100) <= d * 100
    ensures 2 * Abs(cents * (d * 100) - m * 100) == d * 100
            ==> Abs(cents) * (d * 100) > Abs(m) * 100
  {
    var b := mag * d;
    var a := cents * d;
    MulAssoc100(cents, d);
    MulAssoc100(Abs(cents), d);
    if m < 0 {
      NegMul(mag, d);
      assert a == -b;
    } else {
      assert a == b;
    }
    assert Abs(cents) * d == b;
  }

  lemma MulAssoc100(x: int, y: int)
    ensures x * (y * 100) == (x * y) * 100
  {
  }

  lemma NegMul(x: int, y: int)
    ensures -x * y == -(x * y)
  {
  }

  /** An amount that is already a whole number of cents is left unchanged by
      rounding: the rounding step is idempotent on its own results. */
  lemma Round2Cents(c: int)
    ensures Round2(FromCents(c)) == c
  {
  }
}
