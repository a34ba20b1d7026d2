/** `StockAnalyzer.get_top_stocks`: the `n` rows of a scored dataset with the
    largest value in a named numeric column (`DataFrame.nlargest`). */
module Ranking {
  import opened Wrappers
  import opened Stocks
  import opened Seqs

  /** The numeric columns of a scored dataset. */
  datatype Metric =
    | CurrentPrice | Volume | MarketCap | PeRatio | PbRatio | Roe | ProfitMargin | Momentum30d
    | PeScore | VolumeScore | MomentumScore | ProfitScore | OverallScore

  function ColumnName(m: Metric): string {
    match m
    case CurrentPrice => "currentPrice"
    case Volume => "volume"
    case MarketCap => "marketCap"
    case PeRatio => "pe_ratio"
    case PbRatio => "pb_ratio"
    case Roe => "roe"
    case ProfitMargin => "profit_margin"
    case Momentum30d => "momentum_30d"
    case PeScore => "pe_score"
    case VolumeScore => "volume_score"
    case MomentumScore => "momentum_score"
    case ProfitScore => "profit_score"
    case OverallScore => "overall_score"
  }

  /** The text columns, on which `nlargest` raises a type error. */
  const TextColumns: seq<string> := ["symbol", "companyName", "sector", "industry"]

  datatype ViewError =
    | MetricNotFound(name: string)   // the `ValueError` of a name that is no column
    | NotNumeric(name: string)       // `nlargest` on a text column

  /** Resolve a column name: a numeric column yields its metric, a text
      column is a type error and any other name is not found. */
  function ParseMetric(name: string): (r: Result<Metric, ViewError>)
    ensures r.Success? ==> ColumnName(r.value) == name
    ensures r == Failure(NotNumeric(name)) <==> name in TextColumns
    ensures r == Failure(MetricNotFound(name)) <==> (forall m :: ColumnName(m) != name) && name !in TextColumns
  {
    if name == "currentPrice" then Success(CurrentPrice)
    else if name == "volume" then Success(Volume)
    else if name == "marketCap" then Success(MarketCap)
    else if name == "pe_ratio" then Success(PeRatio)
    else if name == "pb_ratio" then Success(PbRatio)
    else if name == "roe" then Success(Roe)
    else if name == "profit_margin" then Success(ProfitMargin)
    else if name == "momentum_30d" then Success(Momentum30d)
    else if name == "pe_score" then Success(PeScore)
    else if name == "volume_score" then Success(VolumeScore)
    else if name == "momentum_score" then Success(MomentumScore)
    else if name == "profit_score" then Success(ProfitScore)
    else if name == "overall_score" then Success(OverallScore)
    else if name in TextColumns then Failure(NotNumeric(name))
    else Failure(MetricNotFound(name))
  }

  /** Every numeric column name resolves back to its metric. */
  lemma ParseColumnName(m: Metric)
    ensures ParseMetric(ColumnName(m)) == Success(m)
  {
  }

  /** A row's cell in a numeric column; `None` for a NaN cell. */
  function MetricValue(m: Metric, r: ScoredRow): Option<real> {
    match m
    case CurrentPrice => Some(r.stock.currentPrice)
    case Volume => Some(r.stock.volume as real)
    case MarketCap => Some(r.stock.marketCap)
    case PeRatio => r.stock.peRatio
    case PbRatio => Some(r.stock.pbRatio)
    case Roe => r.stock.roe
    case ProfitMargin => r.stock.profitMargin
    case Momentum30d => r.stock.momentum30d
    case PeScore => Some(r.peScore as real)
    case VolumeScore => Some(r.volumeScore as real)
    case MomentumScore => Some(r.momentumScore as real)
    case ProfitScore => Some(r.profitScore as real)
    case OverallScore => Some(r.overallScore)
  }

  /** The column `m` as a function of the row. */
  function Column(m: Metric): ScoredRow -> Option<real> {
    r => MetricValue(m, r)
  }

  /** `get_top_stocks(df, metric, top_n)`: an error for a name that is no
      numeric column, otherwise the `top_n` largest rows by that column. */
  function TopStocks(rows: seq<ScoredRow>, metric: string, topN: int): (r: Result<seq<ScoredRow>, ViewError>)
    ensures r.Failure? <==> ParseMetric(metric).Failure?
    ensures r.Failure? ==> r.error == ParseMetric(metric).error
    ensures r.Success? ==> r.value == Largest(rows, Column(ParseMetric(metric).value), topN)
  {
    match ParseMetric(metric)
    case Failure(e) => Failure(e)
    case Success(m) => Success(Largest(rows, Column(m), topN))
  }

  /** With the method's defaults (`overall_score`, 10) the ranking never
      fails and returns min(10, n) rows ordered by overall score, none of
      them outscored by a row left out, since every scored row has an
      overall score. */
  lemma DefaultTopStocks(rows: seq<ScoredRow>)
    ensures TopStocks(rows, "overall_score", 10).Success?
    ensures var top := TopStocks(rows, "overall_score", 10).value;
      && |top| == (if |rows| < 10 then |rows| else 10)
      && (forall i, j :: 0 <= i < j < |top| ==> top[i].overallScore >= top[j].overallScore)
      && (forall i, y :: 0 <= i < |top| && y in rows && multiset(top)[y] < multiset(rows)[y]
            ==> y.overallScore <= top[i].overallScore)
  {
    DefaultResolves(rows);
    OverallRanking(rows, Largest(rows, Column(OverallScore), 10));
  }

  /** The default metric names the overall-score column. */
  lemma DefaultResolves(rows: seq<ScoredRow>)
    ensures TopStocks(rows, "overall_score", 10) == Success(Largest(rows, Column(OverallScore), 10))
  {
    ParseColumnName(OverallScore);
    assert ParseMetric("overall_score") == Success(OverallScore);
  }

  /** Ranked by overall score, a column no row lacks. */
  lemma OverallRanking(rows: seq<ScoredRow>, top: seq<ScoredRow>)
    requires top == Largest(rows, Column(OverallScore), 10)
    ensures forall i, j :: 0 <= i < j < |top| ==> top[i].overallScore >= top[j].overallScore
    ensures forall i, y :: 0 <= i < |top| && y in rows && multiset(top)[y] < multiset(rows)[y] ==>
      y.overallScore <= top[i].overallScore
  {
    forall i, j | 0 <= i < j < |top|
      ensures top[i].overallScore >= top[j].overallScore
    {
      OverallCell(top[i]);
      OverallCell(top[j]);
    }
    forall i, y | 0 <= i < |top| && y in rows && multiset(top)[y] < multiset(rows)[y]
      ensures y.overallScore <= top[i].overallScore
    {
      OverallCell(top[i]);
      OverallCell(y);
    }
  }

  /** Every scored row has an overall score. */
  lemma OverallCell(r: ScoredRow)
    ensures Column(OverallScore)(r) == Some(r.overallScore)
  {
  }
}
