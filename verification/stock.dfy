/** The dataset's rows. A `Row` is one stock record as the fetcher builds it;
    a `ScoredRow` is the same record after the analyzer has added its five
    score columns. A dataset is a `seq` of rows with the row index 0..n-1.
    A numeric cell that may be NaN or missing is an `Option<real>`. */
module Stocks {
  import opened Wrappers

  datatype Row = Row(
    symbol: string,
    companyName: string,
    currentPrice: real,
    volume: nat,
    marketCap: real,
    peRatio: Option<real>,
    pbRatio: real,
    roe: Option<real>,
    profitMargin: Option<real>,
    momentum30d: Option<real>,
    sector: string,
    industry: string)

  datatype ScoredRow = ScoredRow(
    stock: Row,
    peScore: int,
    volumeScore: int,
    momentumScore: int,
    profitScore: int,
    overallScore: real)

  /** The `volume` column. */
  function Volumes(rows: seq<Row>): (vs: seq<nat>)
    ensures |vs| == |rows|
    ensures forall i :: 0 <= i < |rows| ==> vs[i] == rows[i].volume
  {
    seq(|rows|, i requires 0 <= i < |rows| => rows[i].volume)
  }

  /** The unscored columns of a scored dataset. */
  function Unscored(rows: seq<ScoredRow>): (r: seq<Row>)
    ensures |r| == |rows|
    ensures forall i :: 0 <= i < |rows| ==> r[i] == rows[i].stock
  {
    seq(|rows|, i requires 0 <= i < |rows| => rows[i].stock)
  }
}
