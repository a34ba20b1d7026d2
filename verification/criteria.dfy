/** `StockAnalyzer.get_stocks_by_criteria`: successive threshold filters, one
    per criteria key that is present. A comparison with a NaN cell is false,
    so a row with a missing value fails every criterion on that column. */
module Criteria {
  import opened Wrappers
  import opened Stocks
  import opened Seqs

  /** The recognised keys of the criteria dictionary; an absent key is `None`. */
  datatype Criteria = Criteria(
    minPe: Option<real>,
    maxPe: Option<real>,
    minMomentum: Option<real>,
    minProfitMargin: Option<real>,
    minVolume: Option<real>)

  const NoCriteria: Criteria := Criteria(None, None, None, None, None)

  /** `cell >= bound` on a column that may hold NaN. */
  predicate AtLeast(cell: Option<real>, bound: real) {
    cell.Some? && cell.value >= bound
  }

  /** `cell <= bound` on a column that may hold NaN. */
  predicate AtMost(cell: Option<real>, bound: real) {
    cell.Some? && cell.value <= bound
  }

  /** The profit margin as a plain percentage (`profit_margin * 100`), with no
      fraction heuristic. */
  function MarginPercent(r: ScoredRow): Option<real> {
    match r.stock.profitMargin
    case None => None
    case Some(m) => Some(m * 100.0)
  }

  predicate PassMinPe(r: ScoredRow, b: real) { AtLeast(r.stock.peRatio, b) }
  predicate PassMaxPe(r: ScoredRow, b: real) { AtMost(r.stock.peRatio, b) }
  predicate PassMinMomentum(r: ScoredRow, b: real) { AtLeast(r.stock.momentum30d, b) }
  predicate PassMinMargin(r: ScoredRow, b: real) { AtLeast(MarginPercent(r), b) }
  predicate PassMinVolume(r: ScoredRow, b: real) { r.stock.volume as real >= b }

  /** A row meets the criteria when it passes the test of every present key. */
  predicate Meets(c: Criteria, r: ScoredRow) {
    && (c.minPe.None? || PassMinPe(r, c.minPe.value))
    && (c.maxPe.None? || PassMaxPe(r, c.maxPe.value))
    && (c.minMomentum.None? || PassMinMomentum(r, c.minMomentum.value))
    && (c.minProfitMargin.None? || PassMinMargin(r, c.minProfitMargin.value))
    && (c.minVolume.None? || PassMinVolume(r, c.minVolume.value))
  }

  /** One `if key in criteria: df = df[test]` step: no change when the key is
      absent, otherwise the rows passing the test, in order. */
  function Step(rows: seq<ScoredRow>, bound: Option<real>, test: (ScoredRow, real) -> bool): (out: seq<ScoredRow>)
    ensures SubsequenceOf(out, rows)
    ensures forall x :: x in out <==> x in rows && (bound.None? || test(x, bound.value))
    ensures forall x :: multiset(out)[x] == if bound.None? || test(x, bound.value) then multiset(rows)[x] else 0
  {
    match bound
    case None =>
      SubsequenceRefl(rows);
      rows
    case Some(b) => Where(rows, Against(test, b))
  }

  /** A row test with its threshold fixed. */
  function Against(test: (ScoredRow, real) -> bool, b: real): ScoredRow -> bool {
    r => test(r, b)
  }

  /** `get_stocks_by_criteria(df, criteria)`: the rows meeting the criteria,
      each as often as it occurs in the input and in input order; with no
      keys at all the dataset comes back unchanged. */
  function StocksByCriteria(rows: seq<ScoredRow>, c: Criteria): (out: seq<ScoredRow>)
    ensures SubsequenceOf(out, rows)
    ensures forall x :: x in out <==> x in rows && Meets(c, x)
    ensures forall x :: multiset(out)[x] == if Meets(c, x) then multiset(rows)[x] else 0
    ensures c == NoCriteria ==> out == rows
  {
    var a := Step(rows, c.minPe, PassMinPe);
    var b := Step(a, c.maxPe, PassMaxPe);
    var d := Step(b, c.minMomentum, PassMinMomentum);
    var e := Step(d, c.minProfitMargin, PassMinMargin);
    var f := Step(e, c.minVolume, PassMinVolume);
    SubsequenceTrans(b, a, rows);
    SubsequenceTrans(d, b, rows);
    SubsequenceTrans(e, d, rows);
    SubsequenceTrans(f, e, rows);
    f
  }

  /** Three rows with PE 5, 15 and 25 filtered by `{min_pe: 10, max_pe: 20}`
      leave only the row with PE 15. */
  lemma PeWindowExample(x: ScoredRow, y: ScoredRow, z: ScoredRow)
    requires x.stock.peRatio == Some(5.0)
    requires y.stock.peRatio == Some(15.0)
    requires z.stock.peRatio == Some(25.0)
    ensures StocksByCriteria([x, y, z], Criteria(Some(10.0), Some(20.0), None, None, None)) == [y]
  {
    MinPeStep(x, y, z);
    MaxPeStep(y, z);
  }

  lemma MinPeStep(x: ScoredRow, y: ScoredRow, z: ScoredRow)
    requires x.stock.peRatio == Some(5.0)
    requires y.stock.peRatio == Some(15.0)
    requires z.stock.peRatio == Some(25.0)
    ensures Step([x, y, z], Some(10.0), PassMinPe) == [y, z]
  {
    var s := [x, y, z];
    var p := Against(PassMinPe, 10.0);
    assert s[1..] == [y, z] && [y, z][1..] == [z] && [z][1..] == [];
    assert Where([z], p) == [z];
    assert Where([y, z], p) == [y, z];
  }

  lemma MaxPeStep(y: ScoredRow, z: ScoredRow)
    requires y.stock.peRatio == Some(15.0)
    requires z.stock.peRatio == Some(25.0)
    ensures Step([y, z], Some(20.0), PassMaxPe) == [y]
  {
    assert [y, z][1..] == [z] && [z][1..] == [];
    var q := Against(PassMaxPe, 20.0);
    assert !q(z) && q(y);
    assert Where([z][1..], q) == [];
    assert Where([z], q) == [];
  }
}
