/**
 * NumberHelper: the clamps applied to every numeric telemetry field. The two
 * integer overloads round with Math.round and then clamp; the double overload
 * clamps without rounding. All three send NaN to the lower bound.
 */
module NumberHelper {
  import opened JavaLang

  /** clamp(double, long, long): round, then clamp into [lo, hi]; NaN gives lo. */
  function ClampLong(v: Double, lo: Long, hi: Long): (r: Long)
    ensures v.NaN? ==> r == lo
    ensures lo <= r
    ensures r <= hi || r == lo
    ensures lo <= hi && v.PosInf? ==> r == hi
    ensures v.NegInf? ==> r == lo
  {
    if v.NaN? then lo else Max(lo, Min(hi, Round(v)))
  }

  /**
   * clamp(double, int, int): the same computation on long values, narrowed back
   * to int; the narrowing never changes the value.
   */
  function Clamp(v: Double, lo: Int, hi: Int): (r: Int)
    ensures r == ClampLong(v, lo, hi)
    ensures lo <= hi ==> lo <= r <= hi
  {
    ClampLong(v, lo, hi)
  }

  /** clampDouble(double, double, double) with finite bounds: no rounding. */
  function ClampDouble(v: Double, lo: real, hi: real): (r: real)
    ensures v.NaN? ==> r == lo
    ensures lo <= hi ==> lo <= r <= hi
    ensures v.Finite? && lo <= v.r <= hi ==> r == v.r
  {
    match v
    case NaN => lo
    case NegInf => lo          // Math.min(hi, -Infinity) is -Infinity, and Math.max(lo, -Infinity) is lo
    case PosInf => MaxReal(lo, hi)
    case Finite(x) => MaxReal(lo, MinReal(hi, x))
  }

  function MaxReal(a: real, b: real): real { if a < b then b else a }
  function MinReal(a: real, b: real): real { if a < b then a else b }

  /**
   * For a finite value the clamp is the rounded value forced into the bounds:
   * the long saturation of Math.round never shows through it.
   */
  lemma ClampFinite(x: real, lo: Long, hi: Long)
    requires lo <= hi
    ensures var n := (x + 0.5).Floor;
      ClampLong(Finite(x), lo, hi) == if n < lo then lo else if n > hi then hi else n
  {
  }

  /** Values at or below lo give lo, values at or above hi give hi. */
  lemma ClampSaturates(x: real, lo: Long, hi: Long)
    requires lo <= hi
    ensures x <= lo as real ==> ClampLong(Finite(x), lo, hi) == lo
    ensures x >= hi as real ==> ClampLong(Finite(x), lo, hi) == hi
  {
    ClampFinite(x, lo, hi);
  }

  /** An integral value already inside [lo, hi] comes back unchanged. */
  lemma ClampKeepsIntegralInRange(n: int, lo: Long, hi: Long)
    requires lo <= n <= hi
    ensures ClampLong(Finite(n as real), lo, hi) == n
  {
    ClampFinite(n as real, lo, hi);
  }

  /** Ties round toward positive infinity: 2.5 gives 3 and -2.5 gives -2. */
  lemma ClampRoundsHalfUp()
    ensures Clamp(Finite(2.5), -10, 10) == 3
    ensures Clamp(Finite(-2.5), -10, 10) == -2
    ensures Clamp(Finite(0.5), -10, 10) == 1
    ensures Clamp(Finite(-0.5), -10, 10) == 0
  {
  }

  /** Clamping a clamped value changes nothing, whatever the bounds. */
  lemma ClampIdempotent(v: Double, lo: Long, hi: Long)
    ensures ClampLong(Finite(ClampLong(v, lo, hi) as real), lo, hi) == ClampLong(v, lo, hi)
  {
    var r := ClampLong(v, lo, hi);
    if lo <= hi {
      ClampKeepsIntegralInRange(r, lo, hi);
    }
  }

  /** The double clamp is idempotent as well. */
  lemma ClampDoubleIdempotent(v: Double, lo: real, hi: real)
    ensures ClampDouble(Finite(ClampDouble(v, lo, hi)), lo, hi) == ClampDouble(v, lo, hi)
  {
  }

  /** The clamp is monotone in its argument. */
  lemma ClampMonotone(x: real, y: real, lo: Long, hi: Long)
    requires x <= y
    ensures ClampLong(Finite(x), lo, hi) <= ClampLong(Finite(y), lo, hi)
  {
    assert (x + 0.5).Floor <= (y + 0.5).Floor;
  }

  /** The double clamp is monotone too. */
  lemma ClampDoubleMonotone(x: real, y: real, lo: real, hi: real)
    requires x <= y
    ensures ClampDouble(Finite(x), lo, hi) <= ClampDouble(Finite(y), lo, hi)
  {
  }
}
