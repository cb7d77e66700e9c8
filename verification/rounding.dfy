/**
  `Number(x.toFixed(2))` over exact reals: rounding to hundredths, ties away
  from zero (toFixed rounds the magnitude and then restores the sign).
 */
module Rounding {

  /** Rounds a non-negative magnitude to hundredths, ties upwards. */
  function HalfUpCents(x: real): (r: real)
    requires x >= 0.0
    ensures r >= 0.0
    ensures x - 0.005 < r <= x + 0.005
  {
    ((x * 100.0 + 0.5).Floor as real) / 100.0
  }

  /** The number of cents `toFixed(2)` keeps for `x`. */
  function Cents(x: real): int {
    if x >= 0.0 then (x * 100.0 + 0.5).Floor else -((-x * 100.0 + 0.5).Floor)
  }

  function Round2(x: real): (r: real)
    ensures x >= 0.0 ==> r >= 0.0
    ensures x <= 0.0 ==> r <= 0.0
    ensures x - 0.005 <= r <= x + 0.005
  {
    if x >= 0.0 then HalfUpCents(x) else -HalfUpCents(-x)
  }

  /** The rounded value is a whole number of cents. */
  lemma Round2IsCents(x: real)
    ensures Round2(x) == Cents(x) as real / 100.0
  {
  }

  /** A whole number of cents is left as it is. */
  lemma {:induction false} Round2Cents(k: int)
    ensures Round2(k as real / 100.0) == k as real / 100.0
  {
    var x := k as real / 100.0;
    if k >= 0 {
      assert x * 100.0 + 0.5 == k as real + 0.5;
      assert (x * 100.0 + 0.5).Floor == k;
    } else {
      assert -x * 100.0 + 0.5 == (-k) as real + 0.5;
      assert (-x * 100.0 + 0.5).Floor == -k;
    }
  }

  /** Rounding an already rounded value changes nothing. */
  lemma Round2Idempotent(x: real)
    ensures Round2(Round2(x)) == Round2(x)
  {
    Round2IsCents(x);
    Round2Cents(Cents(x));
  }

  lemma {:induction false} HalfUpMonotone(x: real, y: real)
    requires 0.0 <= x <= y
    ensures HalfUpCents(x) <= HalfUpCents(y)
  {
    var a := (x * 100.0 + 0.5).Floor;
    var b := (y * 100.0 + 0.5).Floor;
    assert a as real <= x * 100.0 + 0.5 <= y * 100.0 + 0.5 < b as real + 1.0;
    assert a <= b;
  }

  /** Rounding preserves order. */
  lemma {:induction false} Round2Monotone(x: real, y: real)
    requires x <= y
    ensures Round2(x) <= Round2(y)
  {
    if 0.0 <= x {
      HalfUpMonotone(x, y);
    } else if y < 0.0 {
      HalfUpMonotone(-y, -x);
    }
  }

  /** The product of two non-negative numbers is non-negative. */
  lemma ProductNonNegative(a: real, b: real)
    ensures a >= 0.0 && b >= 0.0 ==> a * b >= 0.0
  {
  }

  /** A product with a zero factor is zero. */
  lemma ZeroProduct(a: real, b: real)
    requires a == 0.0
    ensures a * b == 0.0
  {
  }

  /** A non-negative value whose hundredfold lies within half of `k` rounds to `k` cents. */
  lemma RoundsTo(x: real, k: int)
    requires x >= 0.0 && k as real - 0.5 <= x * 100.0 < k as real + 0.5
    ensures Round2(x) == k as real / 100.0
  {
    assert (x * 100.0 + 0.5).Floor == k;
  }
}
