/** `StockAnalyzer`'s scoring: four integer sub-scores per row (PE, volume,
    momentum, profitability) and their weighted overall score. */
module Scoring {
  import opened Wrappers
  import opened Decimal
  import opened Stocks
  import VolumeRank

  /** The named weight configuration of the overall score. */
  datatype Weights = Weights(pe: real, volume: real, momentum: real, profit: real)

  /** The analyzer's weights: every weight is positive and together they
      sum to exactly one, so the overall score is a convex combination. */
  function ScoringWeights(): (w: Weights)
    ensures w.pe + w.volume + w.momentum + w.profit == 1.0
    ensures w.pe > 0.0 && w.volume > 0.0 && w.momentum > 0.0 && w.profit > 0.0
  {
    Weights(0.25, 0.20, 0.25, 0.30)
  }

  /** PE score, lower PE is better; a missing, NaN or nonpositive PE is
      penalised with 1 and nothing else scores 1. */
  function PeScore(pe: Option<real>): (s: int)
    ensures s in {1, 2, 5, 8, 10}
    ensures s == 1 <==> pe.None? || pe.value <= 0.0
  {
    match pe
    case None => 1
    case Some(x) =>
      if x <= 0.0 then 1
      else if x < 15.0 then 10
      else if x < 25.0 then 8
      else if x < 35.0 then 5
      else 2
  }

  /** Over positive PE ratios the score never rises as the PE rises. */
  lemma PeScoreAntitone(a: real, b: real)
    requires 0.0 < a <= b
    ensures PeScore(Some(b)) <= PeScore(Some(a))
  {
  }

  /** Each bucket includes its lower bound. */
  lemma PeScoreBoundaries()
    ensures PeScore(Some(15.0)) == 8
    ensures PeScore(Some(25.0)) == 5
    ensures PeScore(Some(35.0)) == 2
    ensures PeScore(Some(0.0)) == 1
  {
  }

  /** Momentum score, higher 30-day momentum is better; a missing momentum
      gets the neutral 5 and nothing else does. */
  function MomentumScore(m: Option<real>): (s: int)
    ensures s in {2, 4, 5, 6, 8, 10}
    ensures s == 5 <==> m.None?
  {
    match m
    case None => 5
    case Some(x) =>
      if x > 20.0 then 10
      else if x > 10.0 then 8
      else if x > 0.0 then 6
      else if x > -10.0 then 4
      else 2
  }

  /** The score never falls as momentum rises. */
  lemma MomentumScoreMonotone(a: real, b: real)
    requires a <= b
    ensures MomentumScore(Some(a)) <= MomentumScore(Some(b))
  {
  }

  /** Each threshold is strict: a momentum exactly on it falls to the lower bucket. */
  lemma MomentumScoreBoundaries()
    ensures MomentumScore(Some(20.0)) == 8
    ensures MomentumScore(Some(10.0)) == 6
    ensures MomentumScore(Some(0.0)) == 4
    ensures MomentumScore(Some(-10.0)) == 2
  {
  }

  /** A profit margin or ROE as a percentage. A missing value counts as 0, and
      any value below 1 is taken to be a fraction and multiplied by 100, so a
      genuine sub-1% figure is read as a fraction too. */
  function AsPercent(v: Option<real>): (pct: real)
    ensures v.None? ==> pct == 0.0
    ensures v.Some? && v.value < 1.0 ==> pct == v.value * 100.0
    ensures v.Some? && v.value >= 1.0 ==> pct == v.value
    ensures pct > 0.0 <==> v.GetOr(0.0) > 0.0
    ensures pct < 0.0 <==> v.GetOr(0.0) < 0.0
  {
    var x := v.GetOr(0.0);
    if x < 1.0 then x * 100.0 else x
  }

  /** Margin points: > 20 -> 5, > 10 -> 4, > 5 -> 3, > 0 -> 2, otherwise 1. */
  function MarginPoints(pct: real): (s: int)
    ensures 1 <= s <= 5
    ensures s == 1 <==> pct <= 0.0
  {
    if pct > 20.0 then 5
    else if pct > 10.0 then 4
    else if pct > 5.0 then 3
    else if pct > 0.0 then 2
    else 1
  }

  /** ROE points: > 20 -> 5, > 15 -> 4, > 10 -> 3, > 5 -> 2, otherwise 1. */
  function RoePoints(pct: real): (s: int)
    ensures 1 <= s <= 5
    ensures s == 1 <==> pct <= 5.0
  {
    if pct > 20.0 then 5
    else if pct > 15.0 then 4
    else if pct > 10.0 then 3
    else if pct > 5.0 then 2
    else 1
  }

  /** Profitability score: margin points plus ROE points, always in 2..10. */
  function ProfitScore(margin: Option<real>, roe: Option<real>): (s: int)
    ensures 2 <= s <= 10
    ensures s == 10 <==> AsPercent(margin) > 20.0 && AsPercent(roe) > 20.0
    ensures s == 2 <==> AsPercent(margin) <= 0.0 && AsPercent(roe) <= 5.0
  {
    MarginPoints(AsPercent(margin)) + RoePoints(AsPercent(roe))
  }

  /** Both point ladders are monotone in the percentage they are given. */
  lemma PointsMonotone(a: real, b: real)
    requires a <= b
    ensures MarginPoints(a) <= MarginPoints(b)
    ensures RoePoints(a) <= RoePoints(b)
  {
  }

  /** Within one reading of the figures (both fractions, or both already
      percentages) a larger margin and a larger ROE never score lower. */
  lemma ProfitScoreMonotoneWithinScale(m1: real, m2: real, r1: real, r2: real)
    requires m1 <= m2 && r1 <= r2
    requires (m2 < 1.0 || 1.0 <= m1) && (r2 < 1.0 || 1.0 <= r1)
    ensures ProfitScore(Some(m1), Some(r1)) <= ProfitScore(Some(m2), Some(r2))
  {
    PointsMonotone(AsPercent(Some(m1)), AsPercent(Some(m2)));
    PointsMonotone(AsPercent(Some(r1)), AsPercent(Some(r2)));
  }

  /** The fraction heuristic: 0.5 reads as 50% and -0.5 as -50%, and a margin
      of 0.99 outscores a margin of 1.0 because only the former is rescaled. */
  lemma FractionHeuristic()
    ensures AsPercent(Some(0.5)) == 50.0
    ensures AsPercent(Some(-0.5)) == -50.0
    ensures AsPercent(None) == 0.0
    ensures ProfitScore(Some(0.99), None) == 6
    ensures ProfitScore(Some(1.0), None) == 3
  {
  }

  function Min4(a: int, b: int, c: int, d: int): int {
    var ab := if a <= b then a else b;
    var cd := if c <= d then c else d;
    if ab <= cd then ab else cd
  }

  function Max4(a: int, b: int, c: int, d: int): int {
    var ab := if a >= b then a else b;
    var cd := if c >= d then c else d;
    if ab >= cd then ab else cd
  }

  /** The weighted overall score, rounded to two decimals. It is exactly a
      twentieth of 5 PE + 4 volume + 5 momentum + 6 profit (so the rounding
      loses nothing) and it lies between the smallest and the largest
      sub-score. */
  function OverallScore(pe: int, volume: int, momentum: int, profit: int): (r: real)
    ensures r * 20.0 == (5 * pe + 4 * volume + 5 * momentum + 6 * profit) as real
    ensures Min4(pe, volume, momentum, profit) as real <= r <= Max4(pe, volume, momentum, profit) as real
  {
    var w := ScoringWeights();
    var raw := pe as real * w.pe + volume as real * w.volume
             + momentum as real * w.momentum + profit as real * w.profit;
    var cents := 5 * (5 * pe + 4 * volume + 5 * momentum + 6 * profit);
    assert raw * 100.0 == cents as real;
    Round2Fixes(raw);
    Round2(raw)
  }

  /** All four sub-scores at 10 give exactly 10.00. */
  lemma PerfectOverall()
    ensures OverallScore(10, 10, 10, 10) == 10.0
  {
  }

  /** Over every combination of sub-scores the analyzer can produce, the
      overall score lies in [1.75, 10]; both ends are reached. */
  lemma OverallRange(pe: int, volume: int, momentum: int, profit: int)
    requires pe in {1, 2, 5, 8, 10}
    requires volume in {2, 4, 5, 6, 8, 10}
    requires momentum in {2, 4, 5, 6, 8, 10}
    requires 2 <= profit <= 10
    ensures 1.75 <= OverallScore(pe, volume, momentum, profit) <= 10.0
    ensures OverallScore(1, 2, 2, 2) == 1.75
  {
  }

  /** The score fields one row carries, given its volume score. */
  function ScoreRow(row: Row, volumeScore: int): (s: ScoredRow)
    ensures s.stock == row
  {
    var pe := PeScore(row.peRatio);
    var mo := MomentumScore(row.momentum30d);
    var pr := ProfitScore(row.profitMargin, row.roe);
    ScoredRow(row, pe, volumeScore, mo, pr, OverallScore(pe, volumeScore, mo, pr))
  }

  /** The invariant every scored row satisfies: each sub-score is in its
      score set and the overall score is their weighted total. */
  ghost predicate WellScored(s: ScoredRow) {
    && s.peScore == PeScore(s.stock.peRatio)
    && s.momentumScore == MomentumScore(s.stock.momentum30d)
    && s.profitScore == ProfitScore(s.stock.profitMargin, s.stock.roe)
    && s.volumeScore in {2, 4, 5, 6, 8, 10}
    && s.overallScore == OverallScore(s.peScore, s.volumeScore, s.momentumScore, s.profitScore)
  }

  /** `calculate_overall_score`: one scored row per input row, in the same
      order, each carrying its input record unchanged, its four sub-scores
      (the volume score relative to the whole dataset) and their weighted
      total, which is a multiple of 0.05. */
  function ScoreDataset(rows: seq<Row>): (out: seq<ScoredRow>)
    ensures |out| == |rows|
    ensures forall i :: 0 <= i < |rows| ==> out[i].stock == rows[i]
    ensures forall i :: 0 <= i < |rows| ==> WellScored(out[i])
    ensures forall i :: 0 <= i < |rows| ==> out[i].volumeScore == VolumeRank.VolumeScores(Volumes(rows))[i]
    ensures forall i :: 0 <= i < |rows| ==> OnCentGrid(out[i].overallScore)
  {
    var vs := VolumeRank.VolumeScores(Volumes(rows));
    var out := seq(|rows|, i requires 0 <= i < |rows| => ScoreRow(rows[i], vs[i]));
    assert forall i :: 0 <= i < |rows| ==> OnCentGrid(out[i].overallScore) by {
      forall i | 0 <= i < |rows|
        ensures OnCentGrid(out[i].overallScore)
      {
        var o := out[i].overallScore;
        assert (o * 100.0) == (5 * (5 * out[i].peScore + 4 * out[i].volumeScore + 5 * out[i].momentumScore + 6 * out[i].profitScore)) as real;
      }
    }
    out
  }

  /** Scores read only the PE, volume, momentum, margin and ROE columns: two
      datasets that agree on those get the same scores, whatever their other
      fields hold. */
  lemma ScoresReadOnlyMetrics(a: seq<Row>, b: seq<Row>)
    requires |a| == |b|
    requires forall i :: 0 <= i < |a| ==>
      && a[i].peRatio == b[i].peRatio && a[i].volume == b[i].volume
      && a[i].momentum30d == b[i].momentum30d
      && a[i].profitMargin == b[i].profitMargin && a[i].roe == b[i].roe
    ensures forall i :: 0 <= i < |a| ==>
      var x, y := ScoreDataset(a)[i], ScoreDataset(b)[i];
      && x.peScore == y.peScore && x.volumeScore == y.volumeScore
      && x.momentumScore == y.momentumScore && x.profitScore == y.profitScore
      && x.overallScore == y.overallScore
  {
    assert Volumes(a) == Volumes(b);
  }

  /** Rescoring an already-scored dataset recomputes exactly the same scores. */
  lemma RescoreIdempotent(rows: seq<Row>)
    ensures ScoreDataset(Unscored(ScoreDataset(rows))) == ScoreDataset(rows)
  {
    assert Unscored(ScoreDataset(rows)) == rows;
  }
}
