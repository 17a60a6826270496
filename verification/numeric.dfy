/** The numeric conversions of the Swift source, written out explicitly
    because Dafny's `int` is unbounded and its `/` is Euclidean. */
module Numeric {

  function Abs(n: int): (r: nat)
    ensures r == n || r == -n
  {
    if n < 0 then -n else n
  }

  function Min(a: int, b: int): (r: int)
    ensures r <= a && r <= b
    ensures r == a || r == b
  {
    if a <= b then a else b
  }

  function Max(a: int, b: int): (r: int)
    ensures a <= r && b <= r
    ensures r == a || r == b
  {
    if a <= b then b else a
  }

  /** Swift's `Int(x)` on a `Double`: drop the fractional part, rounding
      toward zero (so `Int(-1.5) == -1`). */
  function Trunc(x: real): (r: int)
    ensures 0.0 <= x ==> 0 <= r && r as real <= x < r as real + 1.0
    ensures x <= 0.0 ==> r <= 0 && r as real - 1.0 < x <= r as real
  {
    if x >= 0.0 then x.Floor else -((-x).Floor)
  }

  /** Truncation preserves order. */
  lemma TruncMonotone(x: real, y: real)
    requires x <= y
    ensures Trunc(x) <= Trunc(y)
  {
  }

  /** Swift's integer `/`: the quotient rounded toward zero, so that the
      remainder takes the sign of the dividend. */
  function TruncDiv(a: int, b: int): (q: int)
    requires b != 0
    ensures Abs(a - q * b) < Abs(b)
    ensures a - q * b == 0 || (a - q * b < 0 <==> a < 0)
  {
    if a >= 0 then
      (if b > 0 then a / b else -(a / -b))
    else
      (if b > 0 then -((-a) / b) else (-a) / (-b))
  }

  /** On non-negative operands Swift's `/` agrees with Euclidean division. */
  lemma TruncDivNonNegative(a: int, b: int)
    requires 0 <= a && 0 < b
    ensures TruncDiv(a, b) == a / b
    ensures 0 <= TruncDiv(a, b)
  {
  }

  /** Truncating division by a positive divisor is monotone in the dividend. */
  lemma TruncDivMonotone(a1: int, a2: int, b: int)
    requires 0 <= a1 <= a2 && 0 < b
    ensures TruncDiv(a1, b) <= TruncDiv(a2, b)
  {
    TruncDivNonNegative(a1, b);
    TruncDivNonNegative(a2, b);
    DivMonotone(a1, a2, b);
  }

  lemma {:induction false} DivMonotone(a1: int, a2: int, b: int)
    requires 0 <= a1 <= a2 && 0 < b
    ensures a1 / b <= a2 / b
  {
    if a1 / b > a2 / b {
      assert (a2 / b + 1) * b <= (a1 / b) * b by {
        MulMonotone(a2 / b + 1, a1 / b, b);
      }
      assert false;
    }
  }

  lemma MulMonotone(x: int, y: int, b: int)
    requires x <= y && 0 <= b
    ensures x * b <= y * b
  {
  }

  /** A product of non-negative reals is non-negative. */
  lemma ProductNonNegative(k: real, x: real)
    requires 0.0 <= k && 0.0 <= x
    ensures 0.0 <= k * x && 0.0 <= x * k
  {
  }

  /** Scaling by a non-negative real keeps the order. */
  lemma ScaleMonotone(k: real, x: real, y: real)
    requires 0.0 <= k && x <= y
    ensures k * x <= k * y
    ensures x * k <= y * k
  {
  }

  /** Truncating a product with two non-negative factors preserves the
      order of the remaining factor. */
  lemma TruncScaledMonotone(x: real, y: real, k1: real, k2: real)
    requires x <= y && 0.0 <= k1 && 0.0 <= k2
    ensures Trunc(x * k1 * k2) <= Trunc(y * k1 * k2)
  {
    ScaleMonotone(k1, x, y);
    ScaleMonotone(k2, x * k1, y * k1);
    TruncMonotone(x * k1 * k2, y * k1 * k2);
  }

  /** `base` raised to a natural power, by repeated multiplication. */
  function Pow(base: real, e: nat): real
  {
    if e == 0 then 1.0 else base * Pow(base, e - 1)
  }

  /** Powers of a base of at least one are at least one. */
  lemma {:induction false} PowAtLeastOne(base: real, e: nat)
    requires 1.0 <= base
    ensures 1.0 <= Pow(base, e)
  {
    if e > 0 {
      PowAtLeastOne(base, e - 1);
      assert base * Pow(base, e - 1) >= 1.0 * Pow(base, e - 1);
    }
  }

  /** Powers of a base of at least one grow with the exponent. */
  lemma {:induction false} PowMonotone(base: real, e1: nat, e2: nat)
    requires 1.0 <= base && e1 <= e2
    ensures Pow(base, e1) <= Pow(base, e2)
    decreases e2
  {
    if e1 < e2 {
      PowMonotone(base, e1, e2 - 1);
      PowAtLeastOne(base, e2 - 1);
      assert base * Pow(base, e2 - 1) >= 1.0 * Pow(base, e2 - 1);
    }
  }

  /** A power of a non-zero base is non-zero. */
  lemma {:induction false} PowNonZero(base: real, e: nat)
    requires base != 0.0
    ensures Pow(base, e) != 0.0
  {
    if e > 0 {
      PowNonZero(base, e - 1);
    }
  }

  /** A power of a positive base is positive. */
  lemma {:induction false} PowPositive(base: real, e: nat)
    requires 0.0 < base
    ensures 0.0 < Pow(base, e)
  {
    if e > 0 {
      PowPositive(base, e - 1);
    }
  }

  /** Foundation's `pow(b, Double(e))` for an integral exponent that may be
      negative; a negative exponent divides, so it needs a non-zero base. */
  function IntPow(base: real, e: int): real
    requires 0 <= e || base != 0.0
  {
    if e >= 0 then Pow(base, e)
    else
      PowNonZero(base, -e);
      1.0 / Pow(base, -e)
  }
}
