# Indian stock screener: scoring engine and batch fetcher in Dafny

This project models the computational core of a Streamlit screener for Nifty 50
equities and proves properties of it.

`StockAnalyzer` (stock_analyzer.py) gives each stock record four integer sub-scores:

- PE ratio;
- traded volume, relative to the whole dataset;
- 30-day momentum;
- profitability, from profit margin and return on equity.

It combines them with fixed weights into an overall score. Over a scored dataset
it offers three views: the top N rows by a column, a threshold filter, and a
per-sector aggregation.

`IndianStockDataFetcher` (stock_data.py) supplies:

- the symbol list: the exchange's index, or a hardcoded fallback of 47 symbols;
- one record per symbol, built from quote data and a month of daily bars;
- a batch loop that tries the first `max_stocks` symbols and keeps the successes.

Modelling conventions:

- A dataset is a `seq` of rows with row index 0..n-1.
- A numeric cell that may be NaN or missing is an `Option<real>`.
- Floats are exact `real`s.
- Two-decimal rounding (`round(x, 2)` / `.round(2)`) is `Decimal.Round2`, which rounds half to even on exact reals.
- The network, the quote service, `print` and `time.sleep` are not modelled:
  - the index reply is a value (`Fetcher.IndexReply`);
  - the quote service is a function parameter (`string -> Quote`);
  - the batch loop's per-symbol fetch is a function parameter (`string -> Option<Row>`).

Modules, one per file:

| file | module | models |
|---|---|---|
| wrappers.dfy | `Wrappers` | `Option` / `Result` |
| decimal.dfy | `Decimal` | two-decimal rounding |
| seqs.dfy | `Seqs` | boolean-mask selection (`Where`), stable descending sort, `nlargest` (`Largest`) |
| stock.dfy | `Stocks` | the record and scored-record datatypes |
| volume.dfy | `VolumeRank` | the volume score: pandas `rank(pct=True)` and buckets |
| scoring.dfy | `Scoring` | weights, PE / momentum / profit / overall scores, scoring a dataset |
| ranking.dfy | `Ranking` | `get_top_stocks` |
| criteria.dfy | `Criteria` | `get_stocks_by_criteria` |
| averages.dfy | `Averages` | means, and pandas' NaN-skipping mean |
| sectors.dfy | `Sectors` | `get_sector_analysis` |
| fetcher.dfy | `Fetcher` | fallback list, index reply, record building, batch loop |

## Model

| member | source | states |
|---|---|---|
| Scoring.ScoringWeights | stock_analyzer.py:6-12 | The four weights are positive and sum to exactly 1, so the overall score is a convex combination. |
| Scoring.PeScore | stock_analyzer.py:14-31 | The PE score is one of 1, 2, 5, 8, 10. It is 1 exactly when the PE is missing/NaN or ≤ 0. |
| Scoring.PeScoreAntitone | stock_analyzer.py:21-30 | Over positive PE ratios, a higher PE never scores higher. |
| Scoring.PeScoreBoundaries | stock_analyzer.py:21-30 | Buckets include their lower bound: PE 15 → 8, 25 → 5, 35 → 2. PE 0 → 1. |
| VolumeRank.Percentile | stock_analyzer.py:41 | pandas' average-method percentile: p·n = (rows below) + (tied rows + 1)/2, with 0 < p ≤ 1. |
| VolumeRank.PercentileMonotone | stock_analyzer.py:41 | A strictly larger volume has a strictly larger percentile. |
| VolumeRank.Bucket | stock_analyzer.py:44-54 | A percentile maps to a score in {2, 4, 6, 8, 10}. It scores 10 exactly when p ≥ 0.8 and 2 exactly when p < 0.2. |
| VolumeRank.BucketMonotone | stock_analyzer.py:44-54 | The percentile buckets (≥0.8 → 10, ≥0.6 → 8, ≥0.4 → 6, ≥0.2 → 4, else 2) never fall as the percentile rises. |
| VolumeRank.VolumeScores | stock_analyzer.py:33-56 | One score per row. All volumes zero ⇒ every row gets 5. Otherwise every score is in {2,4,6,8,10}. A strictly larger volume never scores lower, and equal volumes score alike. |
| VolumeRank.LargestScoresTen | stock_analyzer.py:41-46 | A nonzero volume strictly above all others scores 10. |
| VolumeRank.EqualVolumesScore | stock_analyzer.py:38-54 | With n equal nonzero volumes every row scores 10 if n = 1, 8 if 2 ≤ n ≤ 5, and 6 if n ≥ 6. |
| Scoring.MomentumScore | stock_analyzer.py:58-77 | The momentum score is one of 2, 4, 5, 6, 8, 10. It is 5 exactly when the momentum is missing/NaN. |
| Scoring.MomentumScoreMonotone | stock_analyzer.py:65-76 | A higher momentum never scores lower. |
| Scoring.MomentumScoreBoundaries | stock_analyzer.py:67-76 | Thresholds are strict: 20 → 8, 10 → 6, 0 → 4, −10 → 2. |
| Scoring.MarginPoints | stock_analyzer.py:104-114 | Margin points are 1..5, and 1 exactly when the margin percentage is ≤ 0. |
| Scoring.RoePoints | stock_analyzer.py:116-126 | ROE points are 1..5, and 1 exactly when the ROE percentage is ≤ 5. |
| Scoring.ProfitScore | stock_analyzer.py:79-130 | The profit score is in 2..10. It is 10 exactly when both percentages exceed 20. It is 2 exactly when margin ≤ 0 and ROE ≤ 5, with a missing value counting as 0. |
| Scoring.ProfitScoreMonotoneWithinScale | stock_analyzer.py:95-126 | When both figures are read on the same scale (fractions or percentages), a larger margin and a larger ROE never lower the score. |
| Scoring.AsPercent | stock_analyzer.py:86-99 | A missing value reads as 0. A value below 1 is multiplied by 100, and any other value is kept. The sign of the value is kept either way. |
| Scoring.FractionHeuristic | stock_analyzer.py:86-99 | A value below 1 is multiplied by 100: 0.5 reads as 50 and −0.5 as −50, and missing reads as 0. As a result, with ROE missing, a margin of 0.99 gives a profit score of 6 but a margin of 1.0 gives 3. |
| Scoring.OverallScore | stock_analyzer.py:143-148 | overall × 20 = 5·pe + 4·volume + 5·momentum + 6·profit, so the two-decimal rounding is exact. The overall lies between the smallest and the largest sub-score. |
| Scoring.PerfectOverall | stock_analyzer.py:143-148 | All four sub-scores at 10 give exactly 10. |
| Scoring.OverallRange | stock_analyzer.py:143-148 | For every sub-score the analyzer can produce, the overall is in [1.75, 10]. (1, 2, 2, 2) gives 1.75. |
| Scoring.ScoreDataset | stock_analyzer.py:132-150 | Same row count and order. Every input record is carried unchanged. Each row's sub-scores are those of its own metrics, and its volume score is its dataset-relative score. The overall has at most two decimals. |
| Scoring.ScoresReadOnlyMetrics | stock_analyzer.py:137-148 | Scores depend only on the PE, volume, momentum, margin and ROE columns. |
| Scoring.RescoreIdempotent | stock_analyzer.py:132-150 | Rescoring an already-scored dataset gives identical scores. |
| Decimal.Round2 | stock_analyzer.py:148 | The result has at most two decimals and lies within 0.005 of the argument. |
| Decimal.Round2Fixes | stock_analyzer.py:148 | A value that already has two decimals is left unchanged. |
| Decimal.Round2Between | stock_analyzer.py:198 | Rounding never crosses a two-decimal bound. |
| Ranking.ParseMetric | stock_analyzer.py:156-157 | A numeric column name resolves to its column. A text column is a type error. A name that is no column is "not found", and only such names are. |
| Ranking.ParseColumnName | stock_analyzer.py:156-159 | Every numeric column name resolves back to its own column. |
| Ranking.TopStocks | stock_analyzer.py:152-159 | Fails exactly when the metric does not resolve, with the resolution's own error: "not found" (the `ValueError`) or a text column (`nlargest`'s type error). Otherwise returns `nlargest` over that column. |
| Seqs.Largest | stock_analyzer.py:159 | Length is min(n, number of rows), or 0 when n ≤ 0. The result is a sub-multiset of the input. Rows with a value come first, in non-increasing order; rows whose value is NaN fill the rest. A row with a value is left out only if every returned row has a value at least as large. |
| Seqs.MissingLastExample | stock_analyzer.py:159 | A column holding [10, NaN] asked for its 10 largest returns both rows, the NaN row last. |
| Ranking.DefaultTopStocks | stock_analyzer.py:152-159 | With the defaults (`overall_score`, 10) the call succeeds with min(10, n) rows. They are in non-increasing overall score, and no row left out scores higher than any returned row. |
| Criteria.Step | stock_analyzer.py:175-185 | One filter step returns its input when the key is absent. Otherwise it returns the passing rows, as an order-preserving subsequence with the same multiplicities. |
| Criteria.StocksByCriteria | stock_analyzer.py:161-187 | The result is an order-preserving subsequence. A row is kept iff it meets every present key; each key's bound is inclusive and the margin is compared ×100. Each kept row keeps its multiplicity. No keys ⇒ the input unchanged. |
| Criteria.PeWindowExample | stock_analyzer.py:175-178 | PE 5/15/25 filtered by min_pe 10, max_pe 20 leaves only the PE-15 row. |
| Averages.MeanWithin | stock_analyzer.py:194 | The mean of a non-empty column respects every bound each of its values respects. |
| Averages.MeanSkipNa | stock_analyzer.py:195-197 | pandas' mean skips NaN. It is NaN exactly when no value is present, and otherwise lies between the smallest and largest present value. |
| Sectors.StatOf | stock_analyzer.py:193-200 | One sector's row carries its sector and a count equal to its group's size. For a non-empty group, avg_score is within 0.005 of the group's mean overall score. |
| Sectors.GroupOccupied | stock_analyzer.py:193 | A sector's group is non-empty exactly when the sector occurs in the dataset. |
| Sectors.SectorAnalysis | stock_analyzer.py:189-201 | Exactly one row per sector present, and no other. Each row is that sector's aggregate with a positive count equal to its group's size. The counts sum to the row count, and rows are ordered by avg_score, highest first. |
| Sectors.GroupsPartition | stock_analyzer.py:193-194 | Grouping by sector partitions the dataset: the group sizes sum to the row count. |
| Sectors.AverageWithinGroup | stock_analyzer.py:193-198 | On a scored dataset, each sector's rounded avg_score lies between the lowest and highest overall score of that sector. |
| Fetcher.FallbackNifty50 | stock_data.py:32-47 | 47 entries, exactly the listed symbols, in the listed order. |
| Fetcher.FallbackDistinct | stock_data.py:34-47 | The 47 fallback symbols are pairwise different and non-empty. |
| Fetcher.IndexSymbols | stock_data.py:12-30 | A 200 JSON object yields its `data` list, or an empty list without one. Any other status, a malformed body or a network error yields the fallback list. |
| Fetcher.RawMomentum | stock_data.py:66-70 | A single bar gives 0. Otherwise momentum × first close = (last − first) × 100. A zero first close gives no value. |
| Fetcher.MomentumSign | stock_data.py:66-68 | With a positive first close, momentum is positive, zero or negative exactly as the last close is above, equal to or below the first. |
| Fetcher.Ticker | stock_data.py:53 | The quote ticker is the symbol followed by the 3-character suffix `.NS`. |
| Fetcher.StockDetails | stock_data.py:49-89 | There is no record exactly when the service raised or the history is empty. Otherwise: the symbol is the input symbol, the price is the last close rounded to two decimals, and the volume is the last bar's. Missing fundamentals default to 0, "Unknown", or the symbol for the company name. |
| Fetcher.DetailsMomentum | stock_data.py:66-82 | The record's momentum is 0 for one bar and absent for a zero first close. With more than one bar and a non-zero first close, it is within 0.005 of the raw momentum. With a positive first close it also keeps the weak sign of the price change. |
| Fetcher.Attempted | stock_data.py:95 | `symbols[:max_stocks]` is a prefix of length min(max_stocks, n). A negative bound drops that many symbols from the end. |
| Fetcher.FetchBatch | stock_data.py:91-105 | The loop yields exactly the successful fetches of the attempted symbols, in order, and no more records than symbols attempted. |
| Fetcher.CollectSymbols | stock_data.py:95-100 | When each record carries its own symbol, the batch's symbols are exactly the attempted symbols whose fetch succeeded, in input order. |
| Fetcher.CollectAllFail | stock_data.py:97-100 | If every fetch fails, the batch is empty rather than an error. |
| Fetcher.BatchFromQuotes | stock_data.py:91-105 | With the real per-symbol fetch, the batch's symbols are the successful attempted ones. They form an order-preserving subsequence of the first max_stocks symbols, with at most max_stocks records. |

## Left out

- app.py is not part of this model. It is the Streamlit dashboard: session state, caching, sliders, charts and number formatting.
- HTTP to the exchange, the yfinance `Ticker`/`info`/`history` calls, `print` logging and `time.sleep(0.5)`. Their results are inputs (`IndexReply`, `Quote`, a fetch function), and the sleep has no effect on the data.
- The 10-second timeout and request headers of the index request: they only affect whether a reply arrives, which `NetworkError` covers.
- IEEE floating point. Reals are exact, and NaN is `None`.
- pandas index alignment when score series are assigned back to the frame. Rows are a plain sequence indexed 0..n-1, which is what a freshly built frame has.
- Fetcher.RawMomentum: a first close of 0 divides by zero. Floats then give ±infinity or NaN; the model gives an absent value.
- Seqs.Largest: the order among rows with equal values is not stated. pandas `nlargest` fixes one, but the model promises only non-increasing order. The NaN rows are appended after the ranked rows; pandas does this from version 1.4 on. The model keeps them in their original order, but the contract does not state that order.
- Sectors.SectorAnalysis: the order among sectors with equal average scores is not stated, because `sort_values` is not stable.
- Sectors.StatOf: avg_pe, avg_momentum and avg_profit_margin are computed (rounded NaN-skipping means). Nothing is stated about them beyond Averages.MeanSkipNa's bounds.
- Criteria.StocksByCriteria: keys other than the five recognised ones are not represented. The code silently ignores them.
- Fetcher.FetchBatch: when every fetch fails, `get_multiple_stocks_data` returns `pd.DataFrame(stock_data)` of an empty list (stock_data.py:105), a frame with no rows and no columns. `calculate_overall_score` raises `KeyError` on it at `df['pe_ratio']` (stock_analyzer.py:20). The model's `[]` stands for an empty frame that still has its columns, and `ScoreDataset([])` is `[]`. The missing-column error is not modelled.
- Scoring.ScoreDataset: `calculate_overall_score` writes the five score columns into the DataFrame it is given and returns that same object, so the caller's frame is changed in place. The model returns a new sequence and leaves its argument unchanged; only the returned value is modelled.
- Ranking.TopStocks: applies only to a scored dataset, whose columns are the twelve record fields plus the five scores.
- The progress message's `min(len(symbols), max_stocks)` counter is left out, because it is only printed.

Three behaviours of the code that a reader might not expect:

- Equal volumes. A dataset of equal nonzero volumes does not give every row percentile 1.0 and score 10. The code uses pandas' default `average` tie rule (stock_analyzer.py:41). The shared percentile is therefore (n + 1) / 2n, and rows score 10, 8 or 6 depending on n (VolumeRank.EqualVolumesScore).
- Unknown filter keys. A filter key naming no column is not an error. `get_stocks_by_criteria` tests only the five keys it knows (stock_analyzer.py:175-185) and ignores the rest.
- Missing sectors. `get_sector_analysis` has no "Unknown" group of its own. That default comes from the fetcher (`info.get('sector', 'Unknown')`, stock_data.py:83); the aggregation groups only the sector strings it is given.
