/** The relative volume score of `StockAnalyzer.calculate_volume_score`:
    each row's volume is ranked within the whole dataset with pandas'
    `rank(pct=True)` (ties take the average of the positions they occupy,
    divided by the row count) and the percentile is bucketed. */
module VolumeRank {

  /** Number of volumes strictly below `v`. */
  function CountBelow(vs: seq<nat>, v: nat): (c: nat)
    ensures c <= |vs|
    decreases |vs|
  {
    if |vs| == 0 then 0 else (if vs[0] < v then 1 else 0) + CountBelow(vs[1..], v)
  }

  /** Number of volumes equal to `v`. */
  function CountEqual(vs: seq<nat>, v: nat): (c: nat)
    ensures c <= |vs|
    decreases |vs|
  {
    if |vs| == 0 then 0 else (if vs[0] == v then 1 else 0) + CountEqual(vs[1..], v)
  }

  /** `df['volume'].sum()`. */
  function Total(vs: seq<nat>): nat
    decreases |vs|
  {
    if |vs| == 0 then 0 else vs[0] + Total(vs[1..])
  }

  /** The sum of the volumes is zero exactly when every volume is zero. */
  lemma {:induction false} TotalZero(vs: seq<nat>)
    ensures Total(vs) == 0 <==> forall i :: 0 <= i < |vs| ==> vs[i] == 0
    decreases |vs|
  {
    if |vs| > 0 {
      TotalZero(vs[1..]);
      assert forall i :: 1 <= i < |vs| ==> vs[i] == vs[1..][i - 1];
    }
  }

  /** Volumes below `v` and volumes equal to `v` are disjoint; volumes at
      most `a` are all strictly below any `b > a`. */
  lemma {:induction false} CountsBounded(vs: seq<nat>, v: nat)
    ensures CountBelow(vs, v) + CountEqual(vs, v) <= |vs|
    decreases |vs|
  {
    if |vs| > 0 {
      CountsBounded(vs[1..], v);
    }
  }

  lemma {:induction false} CountBelowGrows(vs: seq<nat>, a: nat, b: nat)
    requires a < b
    ensures CountBelow(vs, b) >= CountBelow(vs, a) + CountEqual(vs, a)
    decreases |vs|
  {
    if |vs| > 0 {
      CountBelowGrows(vs[1..], a, b);
    }
  }

  lemma {:induction false} CountEqualMember(vs: seq<nat>, i: int)
    requires 0 <= i < |vs|
    ensures CountEqual(vs, vs[i]) >= 1
    decreases |vs|
  {
    if i > 0 {
      CountEqualMember(vs[1..], i - 1);
    }
  }

  /** The average-method rank of `vs[i]` times the row count:
      (rows strictly below) + (rows tied, itself included, + 1) / 2. */
  function AverageRank(vs: seq<nat>, i: int): real
    requires 0 <= i < |vs|
  {
    CountBelow(vs, vs[i]) as real + (CountEqual(vs, vs[i]) as real + 1.0) / 2.0
  }

  /** Dividing by a positive count: the quotient times the count gives back
      the dividend, and a dividend in (0, n] gives a quotient in (0, 1]. */
  lemma Quotient(a: real, n: real)
    requires n > 0.0
    ensures (a / n) * n == a
    ensures 0.0 < a <= n ==> 0.0 < a / n <= 1.0
  {
  }

  /** Comparing two quantities scaled by the same positive count. */
  lemma Scaled(p: real, q: real, n: real)
    requires n > 0.0
    ensures p * n < q * n <==> p < q
    ensures p * n <= q * n <==> p <= q
  {
    if p < q {
      assert (q - p) * n > 0.0;
    } else if q < p {
      assert (p - q) * n > 0.0;
    }
  }

  lemma QuotientOrder(p: real, q: real, n: real, a: real, b: real)
    requires n > 0.0 && p * n == a && q * n == b && a < b
    ensures p < q
  {
    Scaled(p, q, n);
  }

  /** `vs.rank(pct=True)[i]`: always in (0, 1]. */
  function Percentile(vs: seq<nat>, i: int): (p: real)
    requires 0 <= i < |vs|
    ensures 0.0 < p <= 1.0
    ensures p * |vs| as real == AverageRank(vs, i)
  {
    CountsBounded(vs, vs[i]);
    CountEqualMember(vs, i);
    var a := AverageRank(vs, i);
    var n := |vs| as real;
    assert 0.0 < a <= n;
    Quotient(a, n);
    a / n
  }

  lemma RankMonotone(vs: seq<nat>, i: int, j: int)
    requires 0 <= i < |vs| && 0 <= j < |vs|
    requires vs[i] < vs[j]
    ensures AverageRank(vs, i) < AverageRank(vs, j)
  {
    CountBelowGrows(vs, vs[i], vs[j]);
    CountEqualMember(vs, i);
    CountEqualMember(vs, j);
    var li, ei := CountBelow(vs, vs[i]) as real, CountEqual(vs, vs[i]) as real;
    var lj, ej := CountBelow(vs, vs[j]) as real, CountEqual(vs, vs[j]) as real;
    assert lj >= li + ei && ei >= 1.0 && ej >= 1.0;
  }

  /** Ranks strictly increase with volume. */
  lemma PercentileMonotone(vs: seq<nat>, i: int, j: int)
    requires 0 <= i < |vs| && 0 <= j < |vs|
    requires vs[i] < vs[j]
    ensures Percentile(vs, i) < Percentile(vs, j)
  {
    RankMonotone(vs, i, j);
    var a, b := AverageRank(vs, i), AverageRank(vs, j);
    assert a < b;
    var n := |vs| as real;
    var p, q := Percentile(vs, i), Percentile(vs, j);
    QuotientOrder(p, q, n, a, b);
  }

  /** The percentile buckets: [0.8, 1] -> 10, [0.6, 0.8) -> 8, [0.4, 0.6) -> 6,
      [0.2, 0.4) -> 4, below 0.2 -> 2. */
  function Bucket(p: real): (s: int)
    ensures s in {2, 4, 6, 8, 10}
    ensures s == 10 <==> p >= 0.8
    ensures s == 2 <==> p < 0.2
  {
    if p >= 0.8 then 10
    else if p >= 0.6 then 8
    else if p >= 0.4 then 6
    else if p >= 0.2 then 4
    else 2
  }

  lemma BucketMonotone(p: real, q: real)
    requires p <= q
    ensures Bucket(p) <= Bucket(q)
  {
  }

  /** One volume score per row. When every volume is zero every row gets the
      neutral 5; otherwise each row gets the bucket of its percentile, so a
      strictly larger volume never scores lower and equal volumes score alike. */
  function VolumeScores(vs: seq<nat>): (r: seq<int>)
    ensures |r| == |vs|
    ensures (forall i :: 0 <= i < |vs| ==> vs[i] == 0) ==> forall i :: 0 <= i < |r| ==> r[i] == 5
    ensures (exists i :: 0 <= i < |vs| && vs[i] != 0) ==> forall i :: 0 <= i < |r| ==> r[i] in {2, 4, 6, 8, 10}
    ensures forall i, j :: 0 <= i < |vs| && 0 <= j < |vs| && vs[i] < vs[j] ==> r[i] <= r[j]
    ensures forall i, j :: 0 <= i < |vs| && 0 <= j < |vs| && vs[i] == vs[j] ==> r[i] == r[j]
  {
    TotalZero(vs);
    if Total(vs) == 0 then
      seq(|vs|, i => 5)
    else
      var r := seq(|vs|, i requires 0 <= i < |vs| => Bucket(Percentile(vs, i)));
      assert forall i, j :: 0 <= i < |vs| && 0 <= j < |vs| && vs[i] < vs[j] ==> r[i] <= r[j] by {
        forall i, j | 0 <= i < |vs| && 0 <= j < |vs| && vs[i] < vs[j]
          ensures r[i] <= r[j]
        {
          PercentileMonotone(vs, i, j);
          BucketMonotone(Percentile(vs, i), Percentile(vs, j));
        }
      }
      r
  }

  /** A nonzero volume strictly larger than every other one scores 10. */
  lemma LargestScoresTen(vs: seq<nat>, i: int)
    requires 0 <= i < |vs|
    requires vs[i] > 0
    requires forall j :: 0 <= j < |vs| && j != i ==> vs[j] < vs[i]
    ensures VolumeScores(vs)[i] == 10
  {
    CountAllBelow(vs, i);
    TotalZero(vs);
    var n := |vs| as real;
    var p := Percentile(vs, i);
    assert AverageRank(vs, i) == n;
    Scaled(1.0, p, n);
    assert p == 1.0;
  }

  lemma {:induction false} CountAllBelow(vs: seq<nat>, i: int)
    requires 0 <= i < |vs|
    requires forall j :: 0 <= j < |vs| && j != i ==> vs[j] < vs[i]
    ensures CountBelow(vs, vs[i]) == |vs| - 1
    ensures CountEqual(vs, vs[i]) == 1
    decreases |vs|
  {
    if |vs| > 1 {
      if i == 0 {
        BelowAll(vs[1..], vs[0]);
      } else {
        CountAllBelow(vs[1..], i - 1);
      }
    }
  }

  lemma {:induction false} BelowAll(vs: seq<nat>, v: nat)
    requires forall j :: 0 <= j < |vs| ==> vs[j] < v
    ensures CountBelow(vs, v) == |vs|
    ensures CountEqual(vs, v) == 0
    decreases |vs|
  {
    if |vs| > 0 {
      BelowAll(vs[1..], v);
    }
  }

  lemma {:induction false} AllEqualCounts(vs: seq<nat>, v: nat)
    requires forall j :: 0 <= j < |vs| ==> vs[j] == v
    ensures CountBelow(vs, v) == 0
    ensures CountEqual(vs, v) == |vs|
    decreases |vs|
  {
    if |vs| > 0 {
      AllEqualCounts(vs[1..], v);
    }
  }

  /** A dataset whose rows all trade the same nonzero volume does not score
      10 everywhere: the shared average rank is (n + 1) / 2, a percentile of
      (n + 1) / 2n, which gives 10 for one row, 8 for two to five rows and 6
      from six rows on. */
  lemma EqualVolumesScore(vs: seq<nat>, v: nat, i: int)
    requires v > 0
    requires forall j :: 0 <= j < |vs| ==> vs[j] == v
    requires 0 <= i < |vs|
    ensures VolumeScores(vs)[i] == if |vs| == 1 then 10 else if |vs| <= 5 then 8 else 6
  {
    AllEqualCounts(vs, v);
    TotalZero(vs);
    TiedPercentile(Percentile(vs, i), |vs|);
  }

  /** The percentile shared by `m` tied rows, from p * m == (m + 1) / 2. */
  lemma TiedPercentile(p: real, m: int)
    requires m >= 1 && p * (m as real) == (m as real + 1.0) / 2.0
    ensures m == 1 ==> p == 1.0
    ensures 2 <= m <= 5 ==> 0.6 <= p < 0.8
    ensures m >= 6 ==> 0.4 <= p < 0.6
  {
    var n := m as real;
    if m == 1 {
      assert p * 1.0 == p;
    } else if m <= 5 {
      TiedBetween(p, n, 0.6, 0.8);
    } else {
      TiedBetween(p, n, 0.4, 0.6);
    }
  }

  /** `p * n == (n + 1) / 2` with `n` in a range that keeps `(n + 1) / 2n`
      between `lo` and `hi`. */
  lemma TiedBetween(p: real, n: real, lo: real, hi: real)
    requires n >= 1.0 && p * n == (n + 1.0) / 2.0
    requires lo * n <= (n + 1.0) / 2.0 < hi * n
    ensures lo <= p < hi
  {
    Scaled(p, hi, n);
    Scaled(lo, p, n);
  }
}
