/** The float operations of the pad on exact reals: range normalisation and the
    three float-to-integer conversions it uses (`roundf`, `ceilf` and the
    truncating cast to `uint8_t`). */
module Numeric {

  /** `(x - lo) / (hi - lo)`: the position of `x` in the range [lo, hi]. */
  function Normalize(x: real, lo: real, hi: real): (f: real)
    requires lo < hi
    ensures lo <= x <= hi ==> 0.0 <= f <= 1.0
    ensures x == lo ==> f == 0.0
    ensures x == hi ==> f == 1.0
  {
    var f := (x - lo) / (hi - lo);
    assert f * (hi - lo) == x - lo;
    f
  }

  /** Division by a positive number keeps order. */
  lemma DivideMonotone(n: real, m: real, d: real)
    requires n <= m && 0.0 < d
    ensures n / d <= m / d
  {
    assert m / d - n / d == (m - n) / d;
    assert (m - n) / d >= 0.0;
  }

  /** Normalisation keeps the order of its arguments. */
  lemma NormalizeMonotone(x: real, y: real, lo: real, hi: real)
    requires lo < hi && x <= y
    ensures Normalize(x, lo, hi) <= Normalize(y, lo, hi)
  {
    DivideMonotone(x - lo, y - lo, hi - lo);
  }

  /** `ceilf`: the least integer not below `x`. */
  function Ceil(x: real): (n: int)
    ensures x <= n as real < x + 1.0
  {
    -((-x).Floor)
  }

  /** `ceilf` keeps order. */
  lemma CeilMonotone(x: real, y: real)
    requires x <= y
    ensures Ceil(x) <= Ceil(y)
  {
    assert x <= Ceil(y) as real;
  }

  /** `roundf` on a non-negative value: the nearest integer, halves away from zero. */
  function Round(x: real): (n: nat)
    requires 0.0 <= x
    ensures x - 0.5 < n as real <= x + 0.5
  {
    (x + 0.5).Floor
  }

  /** The conversion of a non-negative float to an unsigned integer, which
      truncates toward zero. */
  function Trunc(x: real): (n: nat)
    requires 0.0 <= x
    ensures n as real <= x < n as real + 1.0
  {
    x.Floor
  }

  /** A fraction of the unit interval scales `n` to at most `n`. */
  lemma ScaleWithin(f: real, n: real)
    requires 0.0 <= f <= 1.0 && 0.0 <= n
    ensures 0.0 <= f * n <= n
  {
    assert n - f * n == (1.0 - f) * n;
  }

  /** Scaling by a non-negative factor keeps order. */
  lemma ScaleMonotone(f: real, g: real, n: real)
    requires f <= g && 0.0 <= n
    ensures f * n <= g * n
  {
    assert g * n - f * n == (g - f) * n;
  }
}
