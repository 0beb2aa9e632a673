/**
 * Decimal truncation, as the engine's `floor(number, decimals)` does it: scale
 * by a power of ten, drop the fractional part toward zero (Python's `int`), and
 * scale back. Weights and counts are exact decimals, modelled as `real`.
 */
module Decimal {

  /** 10 to the power `d`. */
  function Pow10(d: nat): (p: nat)
    ensures p >= 1
  {
    if d == 0 then 1 else 10 * Pow10(d - 1)
  }

  /** Python's `int(x)` on a decimal: the integer part, truncated toward zero. */
  function Trunc(x: real): (n: int)
    ensures x >= 0.0 ==> n as real <= x < n as real + 1.0
    ensures x < 0.0 ==> n as real - 1.0 < x <= n as real
    ensures x >= 0.0 ==> n >= 0
    ensures x <= 0.0 ==> n <= 0
  {
    if x >= 0.0 then x.Floor else -((-x).Floor)
  }

  /** `x` has no more than `d` decimal digits: `x * 10^d` is a whole number. */
  predicate HasDigits(x: real, d: nat)
  {
    var y := x * Pow10(d) as real;
    y.Floor as real == y
  }

  /**
   * `x` truncated toward zero at `d` decimal places. The result never moves away
   * from zero, lies within one unit of the last place of `x`, and has at most `d`
   * decimal digits.
   */
  function Floor(x: real, d: nat): (r: real)
    ensures x >= 0.0 ==> 0.0 <= r <= x && x - r < 1.0 / Pow10(d) as real
    ensures x < 0.0 ==> x <= r <= 0.0 && r - x < 1.0 / Pow10(d) as real
    ensures HasDigits(r, d)
  {
    var p := Pow10(d) as real;
    var n := Trunc(x * p);
    FloorBounds(x, p, n);
    var r := n as real / p;
    assert HasDigits(r, d) by {
      assert r * Pow10(d) as real == n as real;
    }
    r
  }

  /** The arithmetic behind `Floor`'s contract. */
  lemma FloorBounds(x: real, p: real, n: int)
    requires p >= 1.0
    requires n == Trunc(x * p)
    ensures x >= 0.0 ==> 0.0 <= n as real / p <= x && x - n as real / p < 1.0 / p
    ensures x < 0.0 ==> x <= n as real / p <= 0.0 && n as real / p - x < 1.0 / p
    ensures n as real / p * p == n as real
    ensures (n as real / p * p).Floor == n
  {
    DivCancel(n as real, p);
    assert (n as real).Floor == n;
    MulDivCancel(x, p);
    if x >= 0.0 {
      DivMonotone(0.0, n as real, p);
      DivMonotone(n as real, x * p, p);
      DivDifference(x * p, n as real, p);
      DivStrict(x * p - n as real, 1.0, p);
    } else {
      DivMonotone(x * p, n as real, p);
      DivMonotone(n as real, 0.0, p);
      DivDifference(n as real, x * p, p);
      DivStrict(n as real - x * p, 1.0, p);
    }
  }

  lemma DivCancel(a: real, p: real)
    requires p > 0.0
    ensures a / p * p == a
  {
  }

  lemma MulDivCancel(a: real, p: real)
    requires p > 0.0
    ensures a * p / p == a
  {
  }

  lemma DivMonotone(a: real, b: real, p: real)
    requires p > 0.0 && a <= b
    ensures a / p <= b / p
  {
  }

  lemma DivStrict(a: real, b: real, p: real)
    requires p > 0.0 && a < b
    ensures a / p < b / p
  {
  }

  lemma DivDifference(a: real, b: real, p: real)
    requires p > 0.0
    ensures a / p - b / p == (a - b) / p
  {
  }

  /** Truncation leaves a value alone exactly when it already has `d` digits or fewer. */
  lemma FloorFixedPoint(x: real, d: nat)
    ensures Floor(x, d) == x <==> HasDigits(x, d)
  {
    if HasDigits(x, d) {
      FloorOfFewDigits(x, d);
    }
  }

  lemma FloorOfFewDigits(x: real, d: nat)
    requires HasDigits(x, d)
    ensures Floor(x, d) == x
  {
    TruncOfWhole(x * Pow10(d) as real);
    DivBoth(Trunc(x * Pow10(d) as real) as real, x * Pow10(d) as real, Pow10(d) as real);
    MulDivCancel(x, Pow10(d) as real);
  }

  /** A whole number is its own integer part. */
  lemma TruncOfWhole(y: real)
    requires y.Floor as real == y
    ensures Trunc(y) as real == y
  {
    if y < 0.0 {
      var k := y.Floor;
      assert -y == (-k) as real;
      assert (-y).Floor == -k;
    }
  }

  lemma DivBoth(a: real, b: real, p: real)
    requires a == b && p > 0.0
    ensures a / p == b / p
  {
  }

  /** Truncating twice is truncating once. */
  lemma FloorIdempotent(x: real, d: nat)
    ensures Floor(Floor(x, d), d) == Floor(x, d)
  {
    FloorFixedPoint(Floor(x, d), d);
  }
}
