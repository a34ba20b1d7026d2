/** `IndianStockDataFetcher`: the Nifty 50 symbol list, the choice between
    the exchange's index reply and that list, the record built for one symbol
    from its quote data and one month of daily bars, and the batch loop that
    fetches the first `max_stocks` symbols and keeps the successes. The
    network, the quote service and the clock are not modelled: their answers
    arrive as values or as a function parameter. */
module Fetcher {
  import opened Wrappers
  import opened Decimal
  import opened Stocks
  import opened Seqs

  /** One entry of a symbol list, the dictionary `{'symbol': s}`. */
  datatype SymbolEntry = SymbolEntry(symbol: string)

  /** The hardcoded Nifty 50 constituents, in the order they are listed. */
  const Nifty50Symbols: seq<string> :=
    ["ADANIPORTS", "ASIANPAINT", "AXISBANK", "BAJAJ-AUTO", "BAJFINANCE"]
    + ["BAJAJFINSV", "BPCL", "BHARTIARTL", "BRITANNIA", "CIPLA"]
    + ["COALINDIA", "DIVISLAB", "DRREDDY", "EICHERMOT", "GRASIM"]
    + ["HCLTECH", "HDFCBANK", "HDFCLIFE", "HEROMOTOCO", "HINDALCO"]
    + ["HINDUNILVR", "ICICIBANK", "ITC", "INDUSINDBK", "INFY"]
    + ["JSWSTEEL", "KOTAKBANK", "LT", "M&M", "MARUTI"]
    + ["NTPC", "NESTLEIND", "ONGC", "POWERGRID", "RELIANCE"]
    + ["SBILIFE", "SBIN", "SUNPHARMA", "TCS", "TATACONSUM"]
    + ["TATAMOTORS", "TATASTEEL", "TECHM", "TITAN", "ULTRACEMCO"]
    + ["UPL", "WIPRO"]

  function EntrySymbols(es: seq<SymbolEntry>): (ss: seq<string>)
    ensures |ss| == |es|
    ensures forall i :: 0 <= i < |es| ==> ss[i] == es[i].symbol
  {
    seq(|es|, i requires 0 <= i < |es| => es[i].symbol)
  }

  /** `get_fallback_nifty50_stocks`: one entry per listed symbol, in order. */
  function FallbackNifty50(): (r: seq<SymbolEntry>)
    ensures |r| == 47
    ensures EntrySymbols(r) == Nifty50Symbols
  {
    seq(|Nifty50Symbols|, i requires 0 <= i < |Nifty50Symbols| => SymbolEntry(Nifty50Symbols[i]))
  }

  /** Proof device for `FallbackDistinct` only; it models nothing of the
      source. Where `x` stands in the fallback list, or -1 for any other string:
      a lookup keyed on the first letter, so that each listed symbol is
      compared only with the few that share it. */
  function Position(x: string): int {
    if |x| == 0 then -1 else
    match x[0]
    case 'A' => if x == "ADANIPORTS" then 0 else if x == "ASIANPAINT" then 1 else if x == "AXISBANK" then 2 else -1
    case 'B' => if x == "BAJAJ-AUTO" then 3 else if x == "BAJFINANCE" then 4 else if x == "BAJAJFINSV" then 5 else if x == "BPCL" then 6 else if x == "BHARTIARTL" then 7 else if x == "BRITANNIA" then 8 else -1
    case 'C' => if x == "CIPLA" then 9 else if x == "COALINDIA" then 10 else -1
    case 'D' => if x == "DIVISLAB" then 11 else if x == "DRREDDY" then 12 else -1
    case 'E' => if x == "EICHERMOT" then 13 else -1
    case 'G' => if x == "GRASIM" then 14 else -1
    case 'H' => if x == "HCLTECH" then 15 else if x == "HDFCBANK" then 16 else if x == "HDFCLIFE" then 17 else if x == "HEROMOTOCO" then 18 else if x == "HINDALCO" then 19 else if x == "HINDUNILVR" then 20 else -1
    case 'I' => if x == "ICICIBANK" then 21 else if x == "ITC" then 22 else if x == "INDUSINDBK" then 23 else if x == "INFY" then 24 else -1
    case 'J' => if x == "JSWSTEEL" then 25 else -1
    case 'K' => if x == "KOTAKBANK" then 26 else -1
    case 'L' => if x == "LT" then 27 else -1
    case 'M' => if x == "M&M" then 28 else if x == "MARUTI" then 29 else -1
    case 'N' => if x == "NTPC" then 30 else if x == "NESTLEIND" then 31 else -1
    case 'O' => if x == "ONGC" then 32 else -1
    case 'P' => if x == "POWERGRID" then 33 else -1
    case 'R' => if x == "RELIANCE" then 34 else -1
    case 'S' => if x == "SBILIFE" then 35 else if x == "SBIN" then 36 else if x == "SUNPHARMA" then 37 else -1
    case 'T' => if x == "TCS" then 38 else if x == "TATACONSUM" then 39 else if x == "TATAMOTORS" then 40 else if x == "TATASTEEL" then 41 else if x == "TECHM" then 42 else if x == "TITAN" then 43 else -1
    case 'U' => if x == "ULTRACEMCO" then 44 else if x == "UPL" then 45 else -1
    case 'W' => if x == "WIPRO" then 46 else -1
    case _ => -1
  }

  /** Looking up the symbol listed at `i` gives back `i`, so no symbol is
      listed twice. */
  lemma PositionsListed()
    ensures |Nifty50Symbols| == 47
    ensures forall i :: 0 <= i < 47 ==> Position(Nifty50Symbols[i]) == i
  {
  }

  /** The fallback list names 47 different companies, none with an empty
      symbol. */
  lemma FallbackDistinct()
    ensures NoDup(EntrySymbols(FallbackNifty50()))
    ensures forall i :: 0 <= i < 47 ==> FallbackNifty50()[i].symbol != ""
  {
    var s := EntrySymbols(FallbackNifty50());
    PositionsListed();
    forall i, j | 0 <= i < j < |s|
      ensures s[i] != s[j]
    {
      assert Position(s[i]) == i && Position(s[j]) == j;
    }
  }

  /** The exchange's answer to the Nifty 50 index request. A body that is
      not JSON (or not a JSON object) is `Malformed`; a JSON object carries
      its `data` member when it has one. */
  datatype Payload = Malformed | Json(data: Option<seq<SymbolEntry>>)
  datatype IndexReply = HttpReply(status: int, payload: Payload) | NetworkError

  /** `get_nse_stocks`: the index's `data` list when the exchange answers
      200 with a JSON object (an empty list when the object has no `data`),
      and the fallback list on any other status, a malformed body or a
      network error. */
  function IndexSymbols(reply: IndexReply): (r: seq<SymbolEntry>)
    ensures reply.HttpReply? && reply.status == 200 && reply.payload.Json? && reply.payload.data.Some?
            ==> r == reply.payload.data.value
    ensures reply.HttpReply? && reply.status == 200 && reply.payload == Json(None) ==> r == []
    ensures !(reply.HttpReply? && reply.status == 200 && reply.payload.Json?) ==> r == FallbackNifty50()
  {
    match reply
    case NetworkError => FallbackNifty50()
    case HttpReply(status, payload) =>
      if status != 200 then FallbackNifty50()
      else match payload
        case Malformed => FallbackNifty50()
        case Json(data) => data.GetOr([])
  }

  /** One daily bar of the price history. */
  datatype Bar = Bar(close: real, volume: nat)

  function Last(hist: seq<Bar>): Bar
    requires |hist| > 0
  {
    hist[|hist| - 1]
  }

  /** The 30-day momentum before rounding: zero for a single bar, otherwise
      the percentage change from the first close to the last. A first close
      of zero divides by zero, which the float code turns into an infinity
      or NaN; here that is an absent value. */
  function RawMomentum(hist: seq<Bar>): (m: Option<real>)
    requires |hist| > 0
    ensures |hist| == 1 ==> m == Some(0.0)
    ensures |hist| > 1 && hist[0].close == 0.0 ==> m == None
    ensures |hist| > 1 && hist[0].close != 0.0 ==>
      m.Some? && m.value * hist[0].close == (Last(hist).close - hist[0].close) * 100.0
  {
    if |hist| > 1 then
      var first, latest := hist[0].close, Last(hist).close;
      if first == 0.0 then None else Some((latest - first) / first * 100.0)
    else
      Some(0.0)
  }

  /** With a positive first close the momentum has the sign of the price
      change over the window. */
  lemma MomentumSign(hist: seq<Bar>)
    requires |hist| > 1 && hist[0].close > 0.0
    ensures RawMomentum(hist).Some?
    ensures RawMomentum(hist).value > 0.0 <==> Last(hist).close > hist[0].close
    ensures RawMomentum(hist).value == 0.0 <==> Last(hist).close == hist[0].close
    ensures RawMomentum(hist).value < 0.0 <==> Last(hist).close < hist[0].close
  {
    var m, d := RawMomentum(hist).value, Last(hist).close - hist[0].close;
    SignOfProduct(m, hist[0].close, d * 100.0);
  }

  lemma SignOfProduct(m: real, c: real, d: real)
    requires c > 0.0 && m * c == d
    ensures m > 0.0 <==> d > 0.0
    ensures m == 0.0 <==> d == 0.0
    ensures m < 0.0 <==> d < 0.0
  {
    if m > 0.0 {
      assert m * c > 0.0;
    } else if m < 0.0 {
      assert (-m) * c > 0.0;
    }
  }

  /** The quote service's fundamentals for one ticker; `None` is a key the
      `info` dictionary does not have. */
  datatype Info = Info(
    longName: Option<string>,
    marketCap: Option<real>,
    trailingPE: Option<real>,
    priceToBook: Option<real>,
    returnOnEquity: Option<real>,
    profitMargins: Option<real>,
    sector: Option<string>,
    industry: Option<string>)

  /** What the quote service gives for one ticker: its fundamentals and the
      last month of daily bars, or an exception. */
  datatype Quote = Quote(info: Info, history: seq<Bar>) | Raised

  /** The quote service's ticker for an exchange symbol. */
  function Ticker(symbol: string): (t: string)
    ensures |t| == |symbol| + 3 && t[..|symbol|] == symbol
    ensures t[|symbol|..] == ".NS"
  {
    symbol + ".NS"
  }

  /** `get_stock_details_yfinance` once the quote has arrived: no record
      when the service raised or the history is empty; otherwise the last
      bar's close (rounded to two decimals) and volume, the rounded momentum,
      and the fundamentals with their defaults (0 for numbers, "Unknown" for
      sector and industry, the symbol for the company name). */
  function StockDetails(symbol: string, quote: Quote): (r: Option<Row>)
    ensures r.None? <==> quote.Raised? || |quote.history| == 0
    ensures r.Some? ==>
      var info, bar := quote.info, Last(quote.history);
      && r.value.symbol == symbol
      && r.value.companyName == info.longName.GetOr(symbol)
      && OnCentGrid(r.value.currentPrice)
      && -0.005 <= r.value.currentPrice - bar.close <= 0.005
      && r.value.volume == bar.volume
      && r.value.marketCap == info.marketCap.GetOr(0.0)
      && r.value.peRatio == Some(info.trailingPE.GetOr(0.0))
      && r.value.pbRatio == info.priceToBook.GetOr(0.0)
      && r.value.roe == Some(info.returnOnEquity.GetOr(0.0))
      && r.value.profitMargin == Some(info.profitMargins.GetOr(0.0))
      && r.value.sector == info.sector.GetOr("Unknown")
      && r.value.industry == info.industry.GetOr("Unknown")
  {
    match quote
    case Raised => None
    case Quote(info, hist) =>
      if |hist| == 0 then None
      else
        var bar := Last(hist);
        Some(Row(
          symbol,
          info.longName.GetOr(symbol),
          Round2(bar.close),
          bar.volume,
          info.marketCap.GetOr(0.0),
          Some(info.trailingPE.GetOr(0.0)),
          info.priceToBook.GetOr(0.0),
          Some(info.returnOnEquity.GetOr(0.0)),
          Some(info.profitMargins.GetOr(0.0)),
          match RawMomentum(hist) { case None => None case Some(m) => Some(Round2(m)) },
          info.sector.GetOr("Unknown"),
          info.industry.GetOr("Unknown")))
  }

  /** The record's momentum: exactly 0 for a single bar, absent for a zero
      first close, and otherwise within half a cent of the percentage
      change; it keeps the weak sign of the price change when the first
      close is positive. */
  lemma DetailsMomentum(symbol: string, info: Info, hist: seq<Bar>)
    requires |hist| > 0
    ensures var m := StockDetails(symbol, Quote(info, hist)).value.momentum30d;
      && (|hist| == 1 ==> m == Some(0.0))
      && (|hist| > 1 && hist[0].close == 0.0 ==> m == None)
      && (|hist| > 1 && hist[0].close != 0.0 ==>
            m.Some? && -0.005 <= m.value - RawMomentum(hist).value <= 0.005)
      && (|hist| > 1 && hist[0].close > 0.0 ==>
            && (Last(hist).close >= hist[0].close ==> m.value >= 0.0)
            && (Last(hist).close <= hist[0].close ==> m.value <= 0.0))
  {
    if |hist| == 1 {
      assert OnCentGrid(0.0);
      Round2Fixes(0.0);
    } else if hist[0].close > 0.0 {
      MomentumSign(hist);
      Round2Sign(RawMomentum(hist).value);
    }
  }

  /** The symbols the batch loop attempts: Python's `symbols[:max_stocks]`,
      where a negative bound counts back from the end. */
  function Attempted(symbols: seq<string>, maxStocks: int): (r: seq<string>)
    ensures |r| <= |symbols| && r == symbols[..|r|]
    ensures maxStocks >= 0 ==> |r| == if maxStocks < |symbols| then maxStocks else |symbols|
    ensures maxStocks < 0 ==> |r| == if |symbols| + maxStocks > 0 then |symbols| + maxStocks else 0
  {
    if maxStocks >= 0 then
      (if maxStocks < |symbols| then symbols[..maxStocks] else symbols)
    else
      (if |symbols| + maxStocks > 0 then symbols[..|symbols| + maxStocks] else [])
  }

  /** The records a sequence of fetches yields: each success in order, each
      failure skipped. */
  function Collect(symbols: seq<string>, fetch: string -> Option<Row>): (rows: seq<Row>)
    ensures |rows| <= |symbols|
    decreases |symbols|
  {
    if |symbols| == 0 then []
    else
      var rest := Collect(symbols[1..], fetch);
      match fetch(symbols[0])
      case Some(row) => [row] + rest
      case None => rest
  }

  /** `get_multiple_stocks_data` with the per-symbol fetch as a parameter:
      attempt the first `max_stocks` symbols once each, in order, and keep
      the records of those that succeeded. */
  method FetchBatch(symbols: seq<string>, maxStocks: int, fetch: string -> Option<Row>)
    returns (rows: seq<Row>)
    ensures rows == Collect(Attempted(symbols, maxStocks), fetch)
    ensures |rows| <= |Attempted(symbols, maxStocks)|
  {
    var todo := Attempted(symbols, maxStocks);
    rows := [];
    var i := 0;
    while i < |todo|
      invariant 0 <= i <= |todo|
      invariant rows + Collect(todo[i..], fetch) == Collect(todo, fetch)
    {
      assert todo[i..][1..] == todo[i + 1..];
      match fetch(todo[i]) {
        case Some(row) =>
          rows := rows + [row];
          assert rows + Collect(todo[i + 1..], fetch) == Collect(todo, fetch);
        case None =>
      }
      i := i + 1;
    }
    assert todo[i..] == [];
  }

  function Succeeds(fetch: string -> Option<Row>): string -> bool {
    (symbol: string) => fetch(symbol).Some?
  }

  function RowSymbols(rows: seq<Row>): (ss: seq<string>)
    ensures |ss| == |rows|
    ensures forall i :: 0 <= i < |rows| ==> ss[i] == rows[i].symbol
  {
    seq(|rows|, i requires 0 <= i < |rows| => rows[i].symbol)
  }

  /** When every record carries the symbol it was fetched for, the batch
      holds exactly the symbols whose fetch succeeded, in input order. */
  lemma {:induction false} CollectSymbols(symbols: seq<string>, fetch: string -> Option<Row>)
    requires forall s :: fetch(s).Some? ==> fetch(s).value.symbol == s
    ensures RowSymbols(Collect(symbols, fetch)) == Where(symbols, Succeeds(fetch))
    decreases |symbols|
  {
    if |symbols| > 0 {
      CollectSymbols(symbols[1..], fetch);
      CollectSymbolsStep(symbols, fetch);
    }
  }

  lemma RowSymbolsCons(row: Row, rest: seq<Row>)
    ensures RowSymbols([row] + rest) == [row.symbol] + RowSymbols(rest)
  {
    assert forall i :: 1 <= i <= |rest| ==> ([row] + rest)[i] == rest[i - 1];
  }

  lemma CollectSymbolsStep(symbols: seq<string>, fetch: string -> Option<Row>)
    requires |symbols| > 0
    requires fetch(symbols[0]).Some? ==> fetch(symbols[0]).value.symbol == symbols[0]
    requires RowSymbols(Collect(symbols[1..], fetch)) == Where(symbols[1..], Succeeds(fetch))
    ensures RowSymbols(Collect(symbols, fetch)) == Where(symbols, Succeeds(fetch))
  {
    var head, tail := symbols[0], symbols[1..];
    var p := Succeeds(fetch);
    WhereCons(symbols, p);
    var rest := Collect(tail, fetch);
    if fetch(head).Some? {
      var row := fetch(head).value;
      assert Collect(symbols, fetch) == [row] + rest;
      RowSymbolsCons(row, rest);
      assert p(head);
    } else {
      assert Collect(symbols, fetch) == rest;
      assert !p(head);
    }
  }

  /** A batch in which every fetch fails is empty, not an error. */
  lemma {:induction false} CollectAllFail(symbols: seq<string>, fetch: string -> Option<Row>)
    requires forall s :: s in symbols ==> fetch(s).None?
    ensures Collect(symbols, fetch) == []
    decreases |symbols|
  {
    if |symbols| > 0 {
      assert symbols[0] in symbols;
      CollectAllFail(symbols[1..], fetch);
    }
  }

  /** The per-symbol fetch of the fetcher: ask the quote service for the
      symbol's `.NS` ticker and build the record. */
  function FetchWith(quotes: string -> Quote): string -> Option<Row> {
    (symbol: string) => StockDetails(symbol, quotes(Ticker(symbol)))
  }

  /** The fetcher's batch: its records are those of the attempted symbols
      whose quote came back with a history, in input order, so there are
      at most `min(|symbols|, max_stocks)` of them. */
  lemma BatchFromQuotes(symbols: seq<string>, maxStocks: int, quotes: string -> Quote)
    ensures var todo := Attempted(symbols, maxStocks);
      var rows := Collect(todo, FetchWith(quotes));
      && RowSymbols(rows) == Where(todo, Succeeds(FetchWith(quotes)))
      && SubsequenceOf(RowSymbols(rows), symbols[..|todo|])
      && (maxStocks >= 0 ==> |rows| <= maxStocks)
  {
    var todo := Attempted(symbols, maxStocks);
    var fetch := FetchWith(quotes);
    forall s | fetch(s).Some?
      ensures fetch(s).value.symbol == s
    {
      assert fetch(s) == StockDetails(s, quotes(Ticker(s)));
    }
    CollectSymbols(todo, fetch);
  }
}
