/** `StockAnalyzer.get_sector_analysis`: group a scored dataset by sector,
    average the overall score, count the stocks, average PE, momentum and
    profit margin (skipping NaN), round to two decimals, and order the sectors
    by average score, highest first. */
module Sectors {
  import opened Wrappers
  import opened Decimal
  import opened Stocks
  import opened Seqs
  import opened Averages

  datatype SectorStat = SectorStat(
    sector: string,
    avgScore: real,
    stockCount: nat,
    avgPe: Option<real>,
    avgMomentum: Option<real>,
    avgProfitMargin: Option<real>)

  function InSector(s: string): ScoredRow -> bool {
    (r: ScoredRow) => r.stock.sector == s
  }

  /** The rows of one sector, in dataset order. */
  function Group(rows: seq<ScoredRow>, s: string): seq<ScoredRow> {
    Where(rows, InSector(s))
  }

  ghost predicate HasSector(rows: seq<ScoredRow>, s: string) {
    exists r :: r in rows && r.stock.sector == s
  }

  /** Each sector of the dataset once. */
  function DistinctSectors(rows: seq<ScoredRow>): (ds: seq<string>)
    ensures forall s :: s in ds <==> HasSector(rows, s)
    ensures NoDup(ds)
    decreases |rows|
  {
    if |rows| == 0 then []
    else
      var rest := DistinctSectors(rows[1..]);
      assert rows == [rows[0]] + rows[1..];
      assert forall r :: r in rows[1..] ==> r in rows;
      if rows[0].stock.sector in rest then rest else [rows[0].stock.sector] + rest
  }

  function OverallScores(g: seq<ScoredRow>): (xs: seq<real>)
    ensures |xs| == |g|
    ensures forall i :: 0 <= i < |g| ==> xs[i] == g[i].overallScore
  {
    seq(|g|, i requires 0 <= i < |g| => g[i].overallScore)
  }

  /** The cells of one record field over a group, NaN as `None`. */
  function Cells(g: seq<ScoredRow>, f: Row -> Option<real>): (xs: seq<Option<real>>)
    ensures |xs| == |g|
  {
    seq(|g|, i requires 0 <= i < |g| => f(g[i].stock))
  }

  function RoundSome(o: Option<real>): Option<real> {
    match o
    case None => None
    case Some(x) => Some(Round2(x))
  }

  /** One output row of the aggregation. */
  function StatOf(rows: seq<ScoredRow>, s: string): (st: SectorStat)
    ensures st.sector == s
    ensures st.stockCount == |Group(rows, s)|
    ensures |Group(rows, s)| > 0 ==> -0.005 <= st.avgScore - Mean(OverallScores(Group(rows, s))) <= 0.005
  {
    var g := Group(rows, s);
    SectorStat(
      s,
      if |g| == 0 then 0.0 else Round2(Mean(OverallScores(g))),
      |g|,
      RoundSome(MeanSkipNa(Cells(g, (x: Row) => x.peRatio))),
      RoundSome(MeanSkipNa(Cells(g, (x: Row) => x.momentum30d))),
      RoundSome(MeanSkipNa(Cells(g, (x: Row) => x.profitMargin))))
  }

  /** A sector's group is non-empty exactly when the sector occurs. */
  lemma GroupOccupied(rows: seq<ScoredRow>, s: string)
    ensures |Group(rows, s)| > 0 <==> HasSector(rows, s)
  {
    if HasSector(rows, s) {
      var r :| r in rows && r.stock.sector == s;
      assert r in Group(rows, s);
    }
  }

  function StatsOf(rows: seq<ScoredRow>, ds: seq<string>): (sts: seq<SectorStat>)
    ensures |sts| == |ds|
    ensures forall i :: 0 <= i < |ds| ==> sts[i] == StatOf(rows, ds[i])
    decreases |ds|
  {
    if |ds| == 0 then [] else [StatOf(rows, ds[0])] + StatsOf(rows, ds[1..])
  }

  function AvgScore(): SectorStat -> real {
    (st: SectorStat) => st.avgScore
  }

  function StockCount(): SectorStat -> int {
    (st: SectorStat) => st.stockCount as int
  }

  /** `get_sector_analysis(df)`: one row per sector present in the dataset
      and no other, each sector once, each row the aggregate of exactly that
      sector's rows (count = its number of rows, average score within 0.005
      of their mean), the counts adding up to the dataset's size, ordered by
      average score from highest to lowest. */
  function SectorAnalysis(rows: seq<ScoredRow>): (out: seq<SectorStat>)
    ensures forall s :: HasSector(rows, s) <==> exists i :: 0 <= i < |out| && out[i].sector == s
    ensures forall i, j :: 0 <= i < j < |out| ==> out[i].sector != out[j].sector
    ensures forall i :: 0 <= i < |out| ==> HasSector(rows, out[i].sector) && out[i] == StatOf(rows, out[i].sector)
    ensures forall i :: 0 <= i < |out| ==> out[i].stockCount == |Group(rows, out[i].sector)| > 0
    ensures forall i, j :: 0 <= i < j < |out| ==> out[i].avgScore >= out[j].avgScore
    ensures SumOf(out, StockCount()) == |rows|
  {
    var out := SortDesc(StatsOf(rows, DistinctSectors(rows)), AvgScore());
    AnalysisCoversSectors(rows, out);
    AnalysisCounts(rows, out);
    out
  }

  lemma AnalysisCoversSectors(rows: seq<ScoredRow>, out: seq<SectorStat>)
    requires out == SortDesc(StatsOf(rows, DistinctSectors(rows)), AvgScore())
    ensures forall s :: HasSector(rows, s) <==> exists i :: 0 <= i < |out| && out[i].sector == s
    ensures forall i, j :: 0 <= i < j < |out| ==> out[i].sector != out[j].sector
    ensures forall i :: 0 <= i < |out| ==> HasSector(rows, out[i].sector) && out[i] == StatOf(rows, out[i].sector)
    ensures forall i :: 0 <= i < |out| ==> out[i].stockCount > 0
  {
    SortedCoverage(rows, out);
    SortedDistinct(rows, out);
  }

  /** The sorted statistics cover exactly the dataset's sectors. */
  lemma SortedCoverage(rows: seq<ScoredRow>, out: seq<SectorStat>)
    requires out == SortDesc(StatsOf(rows, DistinctSectors(rows)), AvgScore())
    ensures forall s :: HasSector(rows, s) <==> exists i :: 0 <= i < |out| && out[i].sector == s
    ensures forall i :: 0 <= i < |out| ==> HasSector(rows, out[i].sector) && out[i] == StatOf(rows, out[i].sector)
    ensures forall i :: 0 <= i < |out| ==> out[i].stockCount > 0
  {
    var ds := DistinctSectors(rows);
    var stats := StatsOf(rows, ds);
    SortMembers(stats, AvgScore(), out);
    StatsMembers(rows, ds, stats);
    Coverage(rows, stats, out);
  }

  /** The sorted statistics name each sector once. */
  lemma SortedDistinct(rows: seq<ScoredRow>, out: seq<SectorStat>)
    requires out == SortDesc(StatsOf(rows, DistinctSectors(rows)), AvgScore())
    ensures forall i, j :: 0 <= i < j < |out| ==> out[i].sector != out[j].sector
  {
    var ds := DistinctSectors(rows);
    var stats := StatsOf(rows, ds);
    SortMembers(stats, AvgScore(), out);
    SectorsDistinct(ds, stats, out);
  }

  lemma Coverage(rows: seq<ScoredRow>, stats: seq<SectorStat>, out: seq<SectorStat>)
    requires forall x :: x in out <==> x in stats
    requires forall x :: x in stats ==> HasSector(rows, x.sector) && x == StatOf(rows, x.sector)
    requires forall s :: HasSector(rows, s) ==> StatOf(rows, s) in stats
    ensures forall s :: HasSector(rows, s) <==> exists i :: 0 <= i < |out| && out[i].sector == s
    ensures forall i :: 0 <= i < |out| ==> HasSector(rows, out[i].sector) && out[i] == StatOf(rows, out[i].sector)
    ensures forall i :: 0 <= i < |out| ==> out[i].stockCount > 0
  {
    forall s | HasSector(rows, s)
      ensures exists i :: 0 <= i < |out| && out[i].sector == s
    {
      assert StatOf(rows, s) in out;
      var i :| 0 <= i < |out| && out[i] == StatOf(rows, s);
    }
    forall i | 0 <= i < |out|
      ensures HasSector(rows, out[i].sector) && out[i] == StatOf(rows, out[i].sector)
      ensures out[i].stockCount > 0
    {
      assert out[i] in stats;
      GroupOccupied(rows, out[i].sector);
    }
  }

  /** Sorting keeps exactly the same elements. */
  lemma SortMembers(stats: seq<SectorStat>, key: SectorStat -> real, out: seq<SectorStat>)
    requires out == SortDesc(stats, key)
    ensures forall x :: x in out <==> x in stats
  {
    assert multiset(out) == multiset(stats);
    forall x
      ensures x in out <==> x in stats
    {
      assert x in out <==> x in multiset(out);
    }
  }

  /** The statistics rows are those of the dataset's sectors. */
  lemma StatsMembers(rows: seq<ScoredRow>, ds: seq<string>, stats: seq<SectorStat>)
    requires ds == DistinctSectors(rows)
    requires stats == StatsOf(rows, ds)
    ensures forall x :: x in stats ==> HasSector(rows, x.sector) && x == StatOf(rows, x.sector)
    ensures forall s :: HasSector(rows, s) ==> StatOf(rows, s) in stats
  {
    forall x | x in stats
      ensures HasSector(rows, x.sector) && x == StatOf(rows, x.sector)
    {
      var k :| 0 <= k < |stats| && stats[k] == x;
      assert ds[k] in ds;
    }
    forall s | HasSector(rows, s)
      ensures StatOf(rows, s) in stats
    {
      var k :| 0 <= k < |ds| && ds[k] == s;
      assert stats[k] == StatOf(rows, s);
    }
  }

  /** Sorting the statistics keeps each sector on one row. */
  lemma SectorsDistinct(ds: seq<string>, stats: seq<SectorStat>, out: seq<SectorStat>)
    requires NoDup(ds)
    requires |stats| == |ds|
    requires forall i :: 0 <= i < |ds| ==> stats[i].sector == ds[i]
    requires forall x :: x in out <==> x in stats
    requires multiset(out) == multiset(stats)
    ensures forall i, j :: 0 <= i < j < |out| ==> out[i].sector != out[j].sector
  {
    NoDupPermutation(stats, out);
    forall i, j | 0 <= i < j < |out|
      ensures out[i].sector != out[j].sector
    {
      assert out[i] in stats && out[j] in stats;
      var a :| 0 <= a < |stats| && stats[a] == out[i];
      var b :| 0 <= b < |stats| && stats[b] == out[j];
      assert a != b;
      assert ds[a] != ds[b] by {
        if a < b {} else {}
      }
    }
  }

  lemma AnalysisCounts(rows: seq<ScoredRow>, out: seq<SectorStat>)
    requires out == SortDesc(StatsOf(rows, DistinctSectors(rows)), AvgScore())
    ensures SumOf(out, StockCount()) == |rows|
  {
    var ds := DistinctSectors(rows);
    SumOfSort(StatsOf(rows, ds), AvgScore(), StockCount());
    StatsCount(rows, ds);
    GroupsPartition(rows);
  }

  /** Total of the group sizes over a list of sectors. */
  function SumGroups(rows: seq<ScoredRow>, ds: seq<string>): int
    decreases |ds|
  {
    if |ds| == 0 then 0 else |Group(rows, ds[0])| + SumGroups(rows, ds[1..])
  }

  lemma {:induction false} StatsCount(rows: seq<ScoredRow>, ds: seq<string>)
    ensures SumOf(StatsOf(rows, ds), StockCount()) == SumGroups(rows, ds)
    decreases |ds|
  {
    if |ds| > 0 {
      StatsCount(rows, ds[1..]);
      assert StatsOf(rows, ds)[1..] == StatsOf(rows, ds[1..]);
    }
  }

  lemma GroupCons(rows: seq<ScoredRow>, s: string)
    requires |rows| > 0
    ensures |Group(rows, s)| == (if rows[0].stock.sector == s then 1 else 0) + |Group(rows[1..], s)|
  {
  }

  lemma {:induction false} SumGroupsCons(rows: seq<ScoredRow>, ds: seq<string>)
    requires |rows| > 0
    ensures SumGroups(rows, ds) == multiset(ds)[rows[0].stock.sector] + SumGroups(rows[1..], ds)
    decreases |ds|
  {
    if |ds| > 0 {
      GroupCons(rows, ds[0]);
      SumGroupsCons(rows, ds[1..]);
      assert ds == [ds[0]] + ds[1..];
    }
  }

  /** Grouping by sector partitions the dataset: the group sizes add up to
      the number of rows. */
  lemma {:induction false} GroupsPartition(rows: seq<ScoredRow>)
    ensures SumGroups(rows, DistinctSectors(rows)) == |rows|
    decreases |rows|
  {
    if |rows| > 0 {
      var a, t := rows[0], rows[1..];
      var d := DistinctSectors(t);
      GroupsPartition(t);
      SumGroupsCons(rows, d);
      NoDupCount(d, a.stock.sector);
      if a.stock.sector !in d {
        GroupCons(rows, a.stock.sector);
        GroupOccupied(t, a.stock.sector);
        assert DistinctSectors(rows) == [a.stock.sector] + d;
        assert DistinctSectors(rows)[1..] == d;
      }
    }
  }

  /** On a scored dataset (overall scores with at most two decimals) each
      sector's rounded average score still lies between the lowest and the
      highest overall score of that sector. */
  lemma AverageWithinGroup(rows: seq<ScoredRow>, i: int)
    requires forall r :: r in rows ==> OnCentGrid(r.overallScore)
    requires 0 <= i < |SectorAnalysis(rows)|
    ensures var st := SectorAnalysis(rows)[i];
      var xs := OverallScores(Group(rows, st.sector));
      |xs| > 0 && MinOf(xs) <= st.avgScore <= MaxOf(xs)
  {
    var st := SectorAnalysis(rows)[i];
    var g := Group(rows, st.sector);
    var xs := OverallScores(g);
    assert |xs| == st.stockCount > 0;
    MeanBetween(xs);
    var lo, hi := MinOf(xs), MaxOf(xs);
    assert OnCentGrid(lo) by {
      var k :| 0 <= k < |xs| && xs[k] == lo;
      assert g[k] in g;
    }
    assert OnCentGrid(hi) by {
      var k :| 0 <= k < |xs| && xs[k] == hi;
      assert g[k] in g;
    }
    Round2Between(lo, Mean(xs), hi);
  }
}
