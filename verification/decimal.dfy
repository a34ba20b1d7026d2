/** Two-decimal rounding on exact reals. pandas' `.round(2)` and Python's
    `round(x, 2)` round half to even; on exact reals that is the rule below. */
module Decimal {

  /** `x` has at most two decimal places. */
  predicate OnCentGrid(x: real) {
    (x * 100.0).Floor as real == x * 100.0
  }

  /** The nearest whole number of hundredths to `x`, ties to even. */
  function NearestCents(x: real): (n: int)
    ensures -0.5 <= n as real - x * 100.0 <= 0.5
  {
    var k := (x * 100.0).Floor;
    var f := x * 100.0 - k as real;
    if f < 0.5 then k else if f > 0.5 then k + 1 else if k % 2 == 0 then k else k + 1
  }

  lemma CentsOnGrid(n: int)
    ensures OnCentGrid(n as real / 100.0)
  {
    assert (n as real / 100.0) * 100.0 == n as real;
  }

  /** Round to the nearest multiple of 0.01, ties to the even hundredth. */
  function Round2(x: real): (r: real)
    ensures OnCentGrid(r)
    ensures -0.005 <= r - x <= 0.005
  {
    var n := NearestCents(x);
    CentsOnGrid(n);
    n as real / 100.0
  }

  /** Rounding leaves a value that already has two decimals unchanged. */
  lemma Round2Fixes(x: real)
    requires OnCentGrid(x)
    ensures Round2(x) == x
  {
    assert NearestCents(x) as real == x * 100.0;
  }

  /** Rounding never crosses a two-decimal bound: a value between two
      two-decimal values rounds to a value between them. */
  lemma Round2Between(lo: real, x: real, hi: real)
    requires OnCentGrid(lo) && OnCentGrid(hi)
    requires lo <= x <= hi
    ensures lo <= Round2(x) <= hi
  {
    var n := NearestCents(x);
    var a := (lo * 100.0).Floor;
    var b := (hi * 100.0).Floor;
    assert a as real <= x * 100.0 <= b as real;
    assert a <= n <= b;
    assert a as real / 100.0 == lo;
    assert b as real / 100.0 == hi;
  }

  /** Rounding keeps the weak sign of its argument. */
  lemma Round2Sign(x: real)
    ensures x >= 0.0 ==> Round2(x) >= 0.0
    ensures x <= 0.0 ==> Round2(x) <= 0.0
  {
    var n := NearestCents(x);
    if x >= 0.0 {
      assert n >= 0;
    }
    if x <= 0.0 {
      assert n <= 0;
    }
  }
}
