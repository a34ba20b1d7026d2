/** Sums, extremes and means of real columns, and pandas' NaN-skipping mean. */
module Averages {
  import opened Wrappers

  function Sum(xs: seq<real>): real
    decreases |xs|
  {
    if |xs| == 0 then 0.0 else xs[0] + Sum(xs[1..])
  }

  /** The smallest element. */
  function MinOf(xs: seq<real>): (m: real)
    requires |xs| > 0
    ensures m in xs
    ensures forall i :: 0 <= i < |xs| ==> m <= xs[i]
    decreases |xs|
  {
    if |xs| == 1 then xs[0]
    else
      var rest := MinOf(xs[1..]);
      assert forall i :: 1 <= i < |xs| ==> xs[i] == xs[1..][i - 1];
      if xs[0] <= rest then xs[0] else rest
  }

  /** The largest element. */
  function MaxOf(xs: seq<real>): (m: real)
    requires |xs| > 0
    ensures m in xs
    ensures forall i :: 0 <= i < |xs| ==> xs[i] <= m
    decreases |xs|
  {
    if |xs| == 1 then xs[0]
    else
      var rest := MaxOf(xs[1..]);
      assert forall i :: 1 <= i < |xs| ==> xs[i] == xs[1..][i - 1];
      if xs[0] >= rest then xs[0] else rest
  }

  /** A sum lies between the count times any lower bound and the count times
      any upper bound of its elements. */
  lemma {:induction false} SumBounds(xs: seq<real>, lo: real, hi: real)
    requires forall i :: 0 <= i < |xs| ==> lo <= xs[i] <= hi
    ensures lo * |xs| as real <= Sum(xs) <= hi * |xs| as real
    decreases |xs|
  {
    if |xs| > 0 {
      assert forall i :: 0 <= i < |xs[1..]| ==> xs[1..][i] == xs[i + 1];
      SumBounds(xs[1..], lo, hi);
    }
  }

  /** The arithmetic mean. */
  function Mean(xs: seq<real>): real
    requires |xs| > 0
  {
    Sum(xs) / |xs| as real
  }

  /** The mean of a non-empty column lies between its smallest and its
      largest element. */
  lemma MeanBetween(xs: seq<real>)
    requires |xs| > 0
    ensures MinOf(xs) <= Mean(xs) <= MaxOf(xs)
  {
    MeanWithin(xs, MinOf(xs), MaxOf(xs));
  }

  /** The mean respects any bounds every element respects. */
  lemma MeanWithin(xs: seq<real>, lo: real, hi: real)
    requires |xs| > 0
    requires forall i :: 0 <= i < |xs| ==> lo <= xs[i] <= hi
    ensures lo <= Mean(xs) <= hi
  {
    SumBounds(xs, lo, hi);
    QuotientBounds(Sum(xs), |xs| as real, lo, hi);
  }

  lemma QuotientBounds(t: real, n: real, lo: real, hi: real)
    requires n > 0.0
    requires lo * n <= t <= hi * n
    ensures lo <= t / n <= hi
  {
  }

  /** The values that are present, in order (a NaN-free column). */
  function PresentValues(xs: seq<Option<real>>): (vs: seq<real>)
    ensures |vs| <= |xs|
    ensures |vs| == 0 <==> forall i :: 0 <= i < |xs| ==> xs[i].None?
    ensures forall v :: v in vs <==> Some(v) in xs
    decreases |xs|
  {
    if |xs| == 0 then []
    else
      var rest := PresentValues(xs[1..]);
      assert forall i :: 1 <= i < |xs| ==> xs[i] == xs[1..][i - 1];
      assert xs == [xs[0]] + xs[1..];
      match xs[0]
      case None => rest
      case Some(v) => [v] + rest
  }

  /** pandas' `mean()` of a column that may hold NaN: the mean of the present
      values, NaN (here `None`) when there is none. */
  function MeanSkipNa(xs: seq<Option<real>>): (m: Option<real>)
    ensures m.Some? <==> exists i :: 0 <= i < |xs| && xs[i].Some?
    ensures m.Some? ==> MinOf(PresentValues(xs)) <= m.value <= MaxOf(PresentValues(xs))
  {
    var vs := PresentValues(xs);
    if |vs| == 0 then None
    else
      MeanBetween(vs);
      Some(Mean(vs))
  }
}
