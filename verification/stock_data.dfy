/**
 `StockData.fetch` and its six `fetchData` overloads. The store itself is
 not modelled: the rows it returns for the prepared statement are a
 parameter, so a call yields the statement text, the values bound to its
 placeholders and the folded result.
 */
module StockData {
  import opened Wrappers
  import opened StockDates
  import opened Query
  import opened Aggregation

  /** What a call yields: the statement text, the values bound by position, and the folded result. */
  datatype Outcome = Outcome(sql: string, bound: map<int, Param>, result: ResultMap)

  /** What `fetch` yields for a request and the rows the store returns for it. */
  function FetchSpec(tickers: Option<seq<string>>, from: StockDate, to: StockDate, rows: seq<Row>): Outcome
  {
    var st := BuildQuery(tickers, from, to);
    Outcome(st.sql, Bindings(st.params), Aggregate(rows))
  }

  /**
   Prepares the statement for a request, binds its parameters and folds the
   rows the store returns for it.
   */
  method Fetch(tickers: Option<seq<string>>, from: StockDate, to: StockDate, rows: seq<Row>)
    returns (sql: string, bound: map<int, Param>, result: ResultMap)
    ensures Outcome(sql, bound, result) == FetchSpec(tickers, from, to, rows)
    ensures Placeholders(sql) == |TickerList(tickers)| + 2
    ensures result.Keys == Tickers(rows)
  {
    var ts := TickerList(tickers);
    sql := BuildSql(tickers);
    bound := BindParameters(ts, from, to);
    PlaceholderCount(ts);
    result := AggregateRows(rows);
  }

  /** What the statement's `where` clause asks of a row: its key in the range and, with a filter, its ticker listed. */
  predicate Requested(row: Row, ts: seq<string>, from: StockDate, to: StockDate)
  {
    EncodeDate(from) <= row.date <= EncodeDate(to) && (|ts| == 0 || row.ticker in ts)
  }

  /**
   The date lies in the requested range by its key, both ends included; for
   in-range bounds it is an in-range date between them in date order.
   */
  predicate InRequestedRange(k: StockDate, from: StockDate, to: StockDate)
  {
    && EncodeDate(from) <= EncodeDate(k) <= EncodeDate(to)
    && (InRange(from) && InRange(to) ==> InRange(k) && !Before(k, from) && !Before(to, k))
  }

  /** One entry of the result comes from a requested row, so its date lies in the request. */
  lemma EntryWithinRequest(ts: seq<string>, from: StockDate, to: StockDate, rows: seq<Row>, t: string, k: StockDate)
    requires forall i :: 0 <= i < |rows| ==> Requested(rows[i], ts, from, to)
    requires k in RowDates(rows, t)
    ensures InRequestedRange(k, from, to)
  {
    var i :| 0 <= i < |rows| && rows[i].ticker == t && DecodeDate(rows[i].date) == k;
    assert Requested(rows[i], ts, from, to);
    EncodeDecode(rows[i].date);
    if InRange(from) && InRange(to) {
      assert rows[i].date >= 0;
      EncodeMonotone(k, from);
      EncodeMonotone(to, k);
    }
  }

  /** When the store returns only rows that satisfy the statement, every ticker of the result was asked for. */
  lemma ResultTickersRequested(tickers: Option<seq<string>>, from: StockDate, to: StockDate, rows: seq<Row>)
    requires forall i :: 0 <= i < |rows| ==> Requested(rows[i], TickerList(tickers), from, to)
    ensures forall t :: t in Aggregate(rows) ==> TickerList(tickers) == [] || t in TickerList(tickers)
  {
    var ts := TickerList(tickers);
    AggregateTickers(rows);
    forall t | t in Aggregate(rows) ensures ts == [] || t in ts {
      var i :| 0 <= i < |rows| && rows[i].ticker == t;
      assert Requested(rows[i], ts, from, to);
    }
  }

  /**
   When the store returns only rows that satisfy the statement, every date of
   the result lies in the requested range.
   */
  lemma ResultDatesInRange(tickers: Option<seq<string>>, from: StockDate, to: StockDate, rows: seq<Row>)
    requires forall i :: 0 <= i < |rows| ==> Requested(rows[i], TickerList(tickers), from, to)
    ensures forall t, k :: t in Aggregate(rows) && k in Aggregate(rows)[t] ==> InRequestedRange(k, from, to)
  {
    forall t, k | t in Aggregate(rows) && k in Aggregate(rows)[t] ensures InRequestedRange(k, from, to) {
      AggregateDates(rows, t);
      EntryWithinRequest(TickerList(tickers), from, to, rows, t, k);
    }
  }

  /**
   A single-date request is the range request with both ends at that date:
   both date placeholders receive the date's key, and for an in-range date
   it is the only in-range date the range admits.
   */
  lemma SingleDateIsRange(tickers: Option<seq<string>>, date: StockDate)
    ensures BuildQuery(tickers, date, date).params[0] == BuildQuery(tickers, date, date).params[1] == IntParam(EncodeDate(date))
    ensures InRange(date) ==> forall d :: InRange(d) && EncodeDate(date) <= EncodeDate(d) <= EncodeDate(date) ==> d == date
  {
    if InRange(date) {
      forall d | InRange(d) && EncodeDate(date) <= EncodeDate(d) <= EncodeDate(date) ensures d == date {
        EncodeMonotone(d, date);
      }
    }
  }

  /**
   A one-ticker request prepares the statement with a single ticker
   placeholder, three in all, and binds the from-key, the to-key and the
   ticker at positions 1, 2 and 3.
   */
  lemma OneTickerSpec(ticker: string, from: StockDate, to: StockDate, rows: seq<Row>)
    ensures FetchSpec(Some([ticker]), from, to, rows) == Outcome(SqlText([ticker]),
      map[1 := IntParam(EncodeDate(from)), 2 := IntParam(EncodeDate(to)), 3 := StringParam(ticker)], Aggregate(rows))
    ensures Placeholders(SqlText([ticker])) == 3
  {
    OneTickerBindings(ticker, from, to);
    PlaceholderCount([ticker]);
  }

  /** `fetchData(String ticker, StockDate date)`: one ticker, one date. */
  method FetchTickerOnDate(ticker: string, date: StockDate, rows: seq<Row>)
    returns (sql: string, bound: map<int, Param>, result: ResultMap)
    ensures Outcome(sql, bound, result) == FetchSpec(Some([ticker]), date, date, rows)
    ensures sql == SqlText([ticker]) && Placeholders(sql) == 3
    ensures bound == map[1 := IntParam(EncodeDate(date)), 2 := IntParam(EncodeDate(date)), 3 := StringParam(ticker)]
    ensures result == Aggregate(rows)
  {
    sql, bound, result := Fetch(Some([ticker]), date, date, rows);
    OneTickerSpec(ticker, date, date, rows);
  }

  /** `fetchData(String ticker, StockDate from, StockDate to)`: one ticker, a range. */
  method FetchTickerInRange(ticker: string, from: StockDate, to: StockDate, rows: seq<Row>)
    returns (sql: string, bound: map<int, Param>, result: ResultMap)
    ensures Outcome(sql, bound, result) == FetchSpec(Some([ticker]), from, to, rows)
    ensures sql == SqlText([ticker]) && Placeholders(sql) == 3
    ensures bound == map[1 := IntParam(EncodeDate(from)), 2 := IntParam(EncodeDate(to)), 3 := StringParam(ticker)]
    ensures result == Aggregate(rows)
  {
    sql, bound, result := Fetch(Some([ticker]), from, to, rows);
    OneTickerSpec(ticker, from, to, rows);
  }

  /** `fetchData(String[] tickers, StockDate date)`: a ticker array, possibly null, one date. */
  method FetchTickersOnDate(tickers: Option<seq<string>>, date: StockDate, rows: seq<Row>)
    returns (sql: string, bound: map<int, Param>, result: ResultMap)
    ensures Outcome(sql, bound, result) == FetchSpec(tickers, date, date, rows)
    ensures sql == SqlText(TickerList(tickers))
    ensures forall k :: k in bound <==> 1 <= k <= |TickerList(tickers)| + 2
    ensures bound[1] == bound[2] == IntParam(EncodeDate(date))
    ensures forall i :: 0 <= i < |TickerList(tickers)| ==> bound[i + 3] == StringParam(TickerList(tickers)[i])
    ensures Placeholders(sql) == |TickerList(tickers)| + 2
    ensures result == Aggregate(rows)
  {
    sql, bound, result := Fetch(tickers, date, date, rows);
    BoundPositions(TickerList(tickers), date, date);
  }

  /** `fetchData(String[] tickers, StockDate from, StockDate to)`: a ticker array, possibly null, a range. */
  method FetchTickersInRange(tickers: Option<seq<string>>, from: StockDate, to: StockDate, rows: seq<Row>)
    returns (sql: string, bound: map<int, Param>, result: ResultMap)
    ensures Outcome(sql, bound, result) == FetchSpec(tickers, from, to, rows)
    ensures sql == SqlText(TickerList(tickers))
    ensures forall k :: k in bound <==> 1 <= k <= |TickerList(tickers)| + 2
    ensures bound[1] == IntParam(EncodeDate(from)) && bound[2] == IntParam(EncodeDate(to))
    ensures forall i :: 0 <= i < |TickerList(tickers)| ==> bound[i + 3] == StringParam(TickerList(tickers)[i])
    ensures Placeholders(sql) == |TickerList(tickers)| + 2
    ensures result == Aggregate(rows)
  {
    sql, bound, result := Fetch(tickers, from, to, rows);
    BoundPositions(TickerList(tickers), from, to);
  }

  /** `fetchData(StockDate date)`: every ticker, one date. */
  method FetchOnDate(date: StockDate, rows: seq<Row>)
    returns (sql: string, bound: map<int, Param>, result: ResultMap)
    ensures Outcome(sql, bound, result) == FetchSpec(None, date, date, rows)
    ensures sql == SelectSql
    ensures bound == map[1 := IntParam(EncodeDate(date)), 2 := IntParam(EncodeDate(date))]
    ensures result == Aggregate(rows)
  {
    sql, bound, result := Fetch(None, date, date, rows);
    NoTickerBindings(date, date);
  }

  /** `fetchData(StockDate from, StockDate to)`: every ticker, a range. */
  method FetchInRange(from: StockDate, to: StockDate, rows: seq<Row>)
    returns (sql: string, bound: map<int, Param>, result: ResultMap)
    ensures Outcome(sql, bound, result) == FetchSpec(None, from, to, rows)
    ensures sql == SelectSql
    ensures bound == map[1 := IntParam(EncodeDate(from)), 2 := IntParam(EncodeDate(to))]
    ensures result == Aggregate(rows)
  {
    sql, bound, result := Fetch(None, from, to, rows);
    NoTickerBindings(from, to);
  }
}
